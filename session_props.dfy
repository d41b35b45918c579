/**
 * What lib/droxi/state.rb promises about path resolution, the metadata walk,
 * listings, glob expansion and `forget_contents`, proved about the
 * specification functions that the `State` methods follow.
 */
module SessionProperties {
  import opened Wrappers
  import opened Strings
  import opened Hashes
  import opened Caches
  import opened Rewrite
  import opened Session
  import CacheProperties

  // ---------------------------------------------------------------------
  // resolve_path
  // ---------------------------------------------------------------------

  /** The leftmost match is at `i` when `i` matches and nothing before it does. */
  lemma LeftmostAt(s: string, from: nat, matchAt: (string, nat) -> Option<nat>, i: nat, e: nat)
    requires from <= i < |s| && matchAt(s, i) == Some(e)
    requires forall k :: from <= k < i ==> matchAt(s, k).None?
    ensures Leftmost(s, from, matchAt) == Some((i, e))
  {
  }

  predicate NoDot(s: string) {
    forall i :: 0 <= i < |s| ==> s[i] != '.'
  }

  /** Text without `..` holds nothing for the `/seg/..` rule to remove. */
  lemma NoDotDotPair(s: string)
    requires forall i :: 0 <= i < |s| - 1 ==> !(s[i] == '.' && s[i + 1] == '.')
    ensures SubDotDot(s).None?
  {
    forall k | 0 <= k < |s| ensures DotDotAt(s, k).None? {
    }
  }

  lemma NoDotSlash(s: string)
    requires NoDot(s)
    ensures !Occurs(s, "./")
  {
    forall i: nat ensures !OccursAt(s, "./", i) {
      if i + 2 <= |s| {
        assert s[i..i + 2][0] == s[i];
      }
    }
  }

  /** A path with none of the patterns `resolve_path` rewrites resolves to itself. */
  lemma ResolveNormal(pwd: string, p: string)
    requires IsAbsolute(p) && NoDoubleSlash(p)
    requires SubDotDot(p).None? && !Occurs(p, "./") && !EndsWith(p, "/.")
    requires p == "/" || !EndsWith(p, "/")
    ensures Resolve(pwd, p) == p
  {
    assert StartsWith(p, "/");
    if p == "/" {
      assert Chomp(p, "/") == [];
    }
  }

  /** A path without dots and doubled slashes, not ending in `/`, is normal. */
  lemma ResolvePlain(pwd: string, p: string)
    requires IsAbsolute(p) && NoDoubleSlash(p) && NoDot(p)
    requires p == "/" || p[|p| - 1] != '/'
    ensures Resolve(pwd, p) == p
  {
    NoDotDotPair(p);
    NoDotSlash(p);
    ResolveNormal(pwd, p);
  }

  /** An absolute argument does not depend on the working directory. */
  lemma ResolveAbsolute(pwd1: string, pwd2: string, arg: string)
    requires StartsWith(arg, "/")
    ensures Resolve(pwd1, arg) == Resolve(pwd2, arg)
  {
  }

  /** A relative argument is resolved as `pwd/arg`. */
  lemma ResolveRelative(pwd: string, arg: string)
    requires !StartsWith(arg, "/") && StartsWith(pwd, "/")
    ensures Resolve(pwd, arg) == Resolve("/", pwd + "/" + arg)
  {
    assert (pwd + "/" + arg)[..1] == pwd[..1];
  }

  /** 'must resolve root to itself'. */
  lemma ResolveRoot(pwd: string)
    ensures Resolve(pwd, "/") == "/"
  {
    ResolvePlain(pwd, "/");
  }

  /** A name that is neither empty nor holds a `/` or a `.`, such as `alpha`. */
  predicate Segment(a: string) {
    a != [] && NoDot(a) && forall i :: 0 <= i < |a| ==> a[i] != '/'
  }

  lemma SegmentPath(p: string, a: string)
    requires (p == [] || (IsAbsolute(p) && NoDoubleSlash(p) && NoDot(p) && p[|p| - 1] != '/')) && Segment(a)
    ensures var q := p + "/" + a;
      IsAbsolute(q) && NoDoubleSlash(q) && NoDot(q) && q[|q| - 1] != '/'
  {
    var q := p + "/" + a;
    assert q[|p|] == '/';
    assert forall i :: 0 <= i < |p| ==> q[i] == p[i];
    assert forall i :: |p| < i < |q| ==> q[i] == a[i - |p| - 1];
  }

  /** 'must resolve qualified path to itself', for any names. */
  lemma ResolveQualified(a: string, b: string)
    requires Segment(a) && Segment(b)
    ensures Resolve("/" + a, "/" + b) == "/" + b
  {
    SegmentPath([], b);
    assert [] + "/" + b == "/" + b;
    ResolvePlain("/" + a, "/" + b);
  }

  /** 'must resolve unqualified path to relative path', for any names. */
  lemma ResolveUnqualified(a: string, b: string)
    requires Segment(a) && Segment(b)
    ensures Resolve("/" + a, b) == "/" + a + "/" + b
  {
    assert b[0] != '/';
    assert !StartsWith(b, "/");
    SegmentPath([], a);
    assert [] + "/" + a == "/" + a;
    SegmentPath("/" + a, b);
    ResolvePlain("/", "/" + a + "/" + b);
  }

  /** `resolve_path` of an argument whose `/seg/..` pairs leave a plain path. */
  lemma ResolveVia(pwd: string, arg: string, mid: string)
    requires var p0 := if StartsWith(arg, "/") then arg else pwd + "/" + arg;
      NoDoubleSlash(p0) && RemoveDotDots(p0) == mid
    requires IsAbsolute(mid) && NoDoubleSlash(mid) && NoDot(mid) && mid[|mid| - 1] != '/'
    ensures Resolve(pwd, arg) == mid
  {
    NoDotSlash(mid);
  }

  /** `/.` after dot-free text holds no `./`. */
  lemma TrailingDotOnly(p: string)
    requires NoDot(p)
    ensures !Occurs(p + "/.", "./")
  {
    var s := p + "/.";
    forall i: nat ensures !OccursAt(s, "./", i) {
      if i + 2 <= |s| {
        assert s[i..i + 2][0] == s[i];
        if i < |p| {
          assert s[i] == p[i];
        }
      }
    }
  }

  /** `/a/.` for a plain name `a`: only the trailing-dot rule applies. */
  lemma DotArgSteps(a: string, s: string)
    requires Segment(a) && s == "/" + a + "/."
    ensures GsubDoubleSlash(s) == s && RemoveDotDots(s) == s && RemoveDotSlashes(s) == s
    ensures SubTrailingDot(s) == "/" + a
  {
    SegmentPath([], a);
    assert [] + "/" + a == "/" + a;
    assert s[|s| - 2] == '/' && s[|s| - 1] == '.';
    assert forall i :: 0 <= i < |s| - 2 ==> s[i] == ("/" + a)[i];
    assert NoDoubleSlash(s);
    NoDotDotPair(s);
    TrailingDotOnly("/" + a);
    assert EndsWith(s, "/.");
  }

  /** `/a` for a plain name `a` is left alone by the last two rewrites. */
  lemma PlainArgSteps(a: string)
    requires Segment(a)
    ensures Chomp("/" + a, "/") == "/" + a && GsubDoubleSlash("/" + a) == "/" + a
  {
    SegmentPath([], a);
    assert [] + "/" + a == "/" + a;
    assert !EndsWith("/" + a, "/");
  }

  /** 'must resolve . to current directory', for any name. */
  lemma ResolveDot(a: string)
    requires Segment(a)
    ensures Resolve("/" + a, ".") == "/" + a
  {
    var s := "/" + a + "/.";
    assert "."[0] != '/';
    assert !StartsWith(".", "/");
    assert ("/" + a) + "/" + "." == s;
    DotArgSteps(a, s);
    PlainArgSteps(a);
  }

  /** The leftmost `/seg/..` of `p/g/..r`, for dot-free `p` and a plain
      segment `g`, is the one after `p`. */
  /** Where the pieces of `p/g/..r` sit. */
  lemma PairLayout(p: string, g: string, r: string, s: string, j: nat)
    requires s == p + "/" + g + "/.." + r && j == |p| + 1 + |g|
    ensures j + 3 <= |s| && s[|p|] == '/' && s[j] == '/' && s[j + 1] == '.' && s[j + 2] == '.'
    ensures forall i :: 0 <= i < |p| ==> s[i] == p[i]
    ensures forall i :: |p| + 1 <= i < j ==> s[i] == g[i - |p| - 1]
    ensures s[..|p|] + s[j + 3..] == p + r
  {
    assert s[..|p|] == p;
    assert s[j + 3..] == r;
  }

  lemma SubDotDotPair(p: string, g: string, r: string)
    requires NoDot(p) && g != [] && NoDot(g)
    requires forall i :: 0 <= i < |g| ==> g[i] != '/'
    ensures SubDotDot(p + "/" + g + "/.." + r) == Some(p + r)
  {
    var s := p + "/" + g + "/.." + r;
    var k := |p|;
    var j := |p| + 1 + |g|;
    PairLayout(p, g, r, s, j);
    assert IndexFrom(s, '/', k + 1) == Some(j);
    assert DotDotAt(s, k) == Some(j + 3);
    forall m | 0 <= m < k ensures DotDotAt(s, m).None? {
      if s[m] == '/' {
        var n := IndexFrom(s, '/', m + 1);
        assert n.Some? && n.value <= k;
        if n.value + 1 > k {
          assert s[n.value + 1] == g[0];
        }
      }
    }
    LeftmostAt(s, 0, DotDotAt, k, j + 3);
  }

  lemma TwoDotDots(a: string, b: string, g: string)
    requires Segment(a) && Segment(b) && Segment(g)
    ensures RemoveDotDots("/" + a + "/" + b + "/" + g + "/" + "../..") == "/" + a
  {
    SegmentPath([], a);
    assert [] + "/" + a == "/" + a;
    var pa := "/" + a;
    var pb := pa + "/" + b;
    SegmentPath(pa, b);
    TwoDotDotsShape(a, b, g);
    RemovePair(pb, g, "/..");
    RemovePair(pa, b, "");
    NoDotDotPair(pa);
  }

  /** Removing the leftmost `/seg/..` of `p/g/..r` leaves `p + r`. */
  lemma RemovePair(p: string, g: string, r: string)
    requires NoDot(p) && Segment(g)
    ensures RemoveDotDots(p + "/" + g + "/.." + r) == RemoveDotDots(p + r)
  {
    SubDotDotPair(p, g, r);
  }

  lemma TwoDotDotsShape(a: string, b: string, g: string)
    ensures "/" + a + "/" + b + "/" + g + "/" + "../.." == ("/" + a + "/" + b) + "/" + g + "/.." + "/.."
    ensures ("/" + a + "/" + b) + "/.." == ("/" + a) + "/" + b + "/.." + ""
    ensures ("/" + a) + "" == "/" + a
  {
  }

  lemma UpTwiceNoDoubleSlash(pwd: string)
    requires IsAbsolute(pwd) && NoDoubleSlash(pwd) && pwd[|pwd| - 1] != '/'
    ensures NoDoubleSlash(pwd + "/" + "../..")
  {
    var s := pwd + "/" + "../..";
    assert forall i :: 0 <= i < |pwd| ==> s[i] == pwd[i];
    assert forall i :: |pwd| <= i < |s| ==> s[i] == "/../.."[i - |pwd|];
  }

  /** 'must resolve .. to upper directory', for any names. */
  lemma ResolveDotDot(a: string, b: string, g: string)
    requires Segment(a) && Segment(b) && Segment(g)
    ensures Resolve("/" + a + "/" + b + "/" + g, "../..") == "/" + a
  {
    var pwd := "/" + a + "/" + b + "/" + g;
    assert "../.."[0] != '/';
    assert !StartsWith("../..", "/");
    SegmentPath([], a);
    assert [] + "/" + a == "/" + a;
    SegmentPath("/" + a, b);
    SegmentPath("/" + a + "/" + b, g);
    TwoDotDots(a, b, g);
    UpTwiceNoDoubleSlash(pwd);
    ResolveVia(pwd, "../..", "/" + a);
  }

  // ---------------------------------------------------------------------
  // The prefixes metadata walks
  // ---------------------------------------------------------------------

  lemma FieldsOfAbsolute(p: string)
    requires IsAbsolute(p)
    ensures |Fields(p, '/')| >= 2 && Fields(p, '/')[0] == ""
  {
    assert IndexFrom(p, '/', 0) == Some(0);
  }

  /** How `join('/')` distributes over a leading empty field. */
  lemma JoinEmptyHead(ts: seq<string>)
    requires ts != []
    ensures Join([""] + ts, "/") == "/" + Join(ts, "/")
  {
    assert ([""] + ts)[1..] == ts;
  }

  /** The join of a prefix of a list is a prefix of the join of the list. */
  lemma {:induction false} JoinPrefix(ts: seq<string>, k: nat, sep: string)
    requires k <= |ts|
    ensures StartsWith(Join(ts, sep), Join(ts[..k], sep))
  {
    if k == 0 {
    } else if k == 1 {
      assert ts[..1] == [ts[0]];
    } else {
      JoinPrefix(ts[1..], k - 1, sep);
      assert ts[..k][1..] == ts[1..][..k - 1];
      var x := Join(ts[1..], sep);
      var y := Join(ts[1..][..k - 1], sep);
      assert ts[0] + sep + x == (ts[0] + sep) + x;
      assert ts[0] + sep + y == (ts[0] + sep) + y;
      assert x[..|y|] == y;
      assert ((ts[0] + sep) + x)[..|ts[0] + sep| + |y|] == (ts[0] + sep) + x[..|y|];
    }
  }

  /** Every walked prefix of an absolute path is a prefix of it, starting with the root. */
  lemma PrefixesOfPath(p: string, i: nat)
    requires IsAbsolute(p) && i <= |Tokens(p)|
    ensures StartsWith(p, Prefixes(p)[i])
  {
    if i > 0 {
      FieldsOfTokens(p, i);
      PrefixOfJoin(p, Fields(p, '/'), Tokens(p), i);
    }
  }

  /** The first `i + 1` fields of an absolute path are the root's empty
      field and its first `i` tokens. */
  lemma FieldsOfTokens(p: string, i: nat)
    requires IsAbsolute(p) && 0 < i <= |Tokens(p)|
    ensures i + 1 <= |Fields(p, '/')| && Fields(p, '/')[..i + 1] == [""] + Tokens(p)[..i]
  {
    var f := Fields(p, '/');
    var parts := Split(p, '/');
    FieldsOfAbsolute(p);
    PrefixTake(parts, f, i + 1);
    TakeHeadTail(parts, i);
  }

  lemma PrefixOfJoin(p: string, f: seq<string>, tokens: seq<string>, i: nat)
    requires Join(f, "/") == p && 0 < i <= |tokens| && i + 1 <= |f| && f[..i + 1] == [""] + tokens[..i]
    ensures StartsWith(p, "/" + Join(tokens[..i], "/"))
  {
    JoinEmptyHead(tokens[..i]);
    JoinPrefix(f, i + 1, "/");
  }

  /** The last prefix walked is the path itself, when it has no trailing `/`. */
  lemma LastPrefixIsPath(p: string)
    requires IsAbsolute(p) && (p == "/" || p[|p| - 1] != '/')
    ensures Prefixes(p)[|Tokens(p)|] == p
  {
    var f := Fields(p, '/');
    FieldsOfAbsolute(p);
    if p == "/" {
      assert f == ["", ""] by {
        assert IndexFrom(p, '/', 0) == Some(0);
        assert p[1..] == [];
      }
      assert TrimEmpty(f) == [];
      assert Tokens(p) == [];
    } else {
      assert TrimEmpty(f) == f;
      var ts := f[1..];
      assert Tokens(p) == ts;
      assert f == [""] + ts;
      JoinEmptyHead(ts);
      assert ts[..|ts|] == ts;
      assert Prefixes(p)[|ts|] == "/" + Join(ts, "/");
    }
  }

  // ---------------------------------------------------------------------
  // The walk
  // ---------------------------------------------------------------------

  /** When every prefix already has full info, the client is not called and
      nothing changes. */
  lemma {:induction false} WalkAllCached(t: Table, c: Client, prefixes: seq<string>, rc: bool)
    requires forall i :: 0 <= i < |prefixes| ==> FullInfoIn(t, prefixes[i], rc)
    ensures Walk(t, c, prefixes, rc) == Walked(t, true, [])
    decreases prefixes
  {
    if prefixes != [] {
      WalkAllCached(t, c, prefixes[1..], rc);
    }
  }

  /** `metadata` of a path whose every prefix has full info is the cached entry. */
  lemma MetadataCached(t: Table, c: Client, path: string, rc: bool)
    requires forall i :: 0 <= i < |Prefixes(Lower(path))| ==> FullInfoIn(t, Prefixes(Lower(path))[i], rc)
    ensures MetadataSpec(t, c, path, rc) == (t, Get(t, Lower(path)))
  {
    WalkAllCached(t, c, Prefixes(Lower(path)), rc);
  }

  /** A failed fetch of the root ends the walk with nothing cached and `nil`. */
  lemma MetadataRootFails(t: Table, c: Client, path: string, rc: bool)
    requires !FullInfoIn(t, "/", rc) && c.metadata("/").Failure?
    ensures MetadataSpec(t, c, path, rc) == (t, None)
  {
    LowerKeepsSlashes("/");
    assert Lower("/") == "/";
  }

  /** A prefix the client reports deleted is skipped, and the walk goes on. */
  lemma WalkSkipsDeleted(t: Table, c: Client, prefixes: seq<string>, rc: bool)
    requires prefixes != [] && !FullInfoIn(t, prefixes[0], rc)
    requires c.metadata(Lower(prefixes[0])).Gone?
    ensures var w := Walk(t, c, prefixes[1..], rc);
      Walk(t, c, prefixes, rc) == Walked(w.table, w.ok, [prefixes[0]] + w.queried)
  {
  }

  // ---------------------------------------------------------------------
  // expand_patterns and get_matches
  // ---------------------------------------------------------------------

  /** Expansion goes pattern by pattern: expanding `a + b` expands `a`, then
      `b` from the cache `a` left, and concatenates the results. */
  lemma {:induction false} ExpandAppend(t: Table, a: seq<string>, b: seq<string>,
                                        step: (Table, string) -> (Table, seq<Expansion>))
    ensures var x := ExpandWith(t, a, step); var y := ExpandWith(x.0, b, step);
      ExpandWith(t, a + b, step) == (y.0, x.1 + y.1)
    decreases a
  {
    if a == [] {
      assert a + b == b;
      var y := ExpandWith(t, b, step);
      assert [] + y.1 == y.1;
    } else {
      assert (a + b)[0] == a[0] && (a + b)[1..] == a[1..] + b;
      var one := step(t, a[0]);
      ExpandAppend(one.0, a[1..], b, step);
      var x := ExpandWith(one.0, a[1..], step);
      var y := ExpandWith(x.0, b, step);
      assert one.1 + (x.1 + y.1) == (one.1 + x.1) + y.1;
    }
  }

  /** A pattern naming a directory yields itself with `preserve_root`, and the
      resolved path otherwise. */
  lemma ExpandDirectory(t: Table, c: Client, pwd: string, fnmatch: (string, string) -> bool,
                        pattern: string, preserve: bool)
    requires DirectorySpec(t, c, pwd, Resolve(pwd, pattern)).1
    ensures ExpandOne(t, c, pwd, fnmatch, pattern, preserve).1 ==
              [Path(if preserve then pattern else Resolve(pwd, pattern))]
  {
  }

  /** Any other pattern yields the matches, or one `GlobError` when there are none. */
  lemma ExpandNoMatch(t: Table, c: Client, pwd: string, fnmatch: (string, string) -> bool,
                      pattern: string, path: string, preserve: bool)
    requires forall x :: x in ContentsSpec(t, c, pwd, Dirname(Lower(path))).1 ==> !fnmatch(Lower(path), Lower(x))
    ensures GetMatchesSpec(t, c, pwd, fnmatch, pattern, path, preserve).1 == [GlobError(pattern)]
  {
    var entries := ContentsSpec(t, c, pwd, Dirname(Lower(path))).1;
    NothingMatches(entries, Lower(path), fnmatch);
  }

  lemma NothingMatches(entries: seq<string>, path: string, fnmatch: (string, string) -> bool)
    requires forall x :: x in entries ==> !fnmatch(path, Lower(x))
    ensures Matching(entries, path, fnmatch) == []
  {
  }

  /** Without `preserve_root`, the matches are the listed paths that match. */
  /** `Path(x)` is listed exactly when `x` is one of the paths. */
  lemma PathsMember(ps: seq<string>, x: string)
    ensures Path(x) in Paths(ps) <==> x in ps
  {
    var r := Paths(ps);
    if Path(x) in r {
      var i :| 0 <= i < |r| && r[i] == Path(x);
      assert ps[i] == x;
    }
    if x in ps {
      var i :| 0 <= i < |ps| && ps[i] == x;
      assert r[i] == Path(x);
    }
  }

  /** Without `preserve_root`, a pattern that matched yields its matches as paths. */
  lemma GetMatchesPlain(t: Table, c: Client, pwd: string, fnmatch: (string, string) -> bool,
                        pattern: string, path: string)
    requires GetMatchesSpec(t, c, pwd, fnmatch, pattern, path, false).1 != [GlobError(pattern)]
    ensures GetMatchesSpec(t, c, pwd, fnmatch, pattern, path, false).1 ==
              Paths(Matching(ContentsSpec(t, c, pwd, Dirname(Lower(path))).1, Lower(path), fnmatch))
  {
  }

  lemma ExpandMatches(t: Table, c: Client, pwd: string, fnmatch: (string, string) -> bool,
                      pattern: string, path: string, x: string)
    requires GetMatchesSpec(t, c, pwd, fnmatch, pattern, path, false).1 != [GlobError(pattern)]
    ensures Path(x) in GetMatchesSpec(t, c, pwd, fnmatch, pattern, path, false).1 <==>
              x in ContentsSpec(t, c, pwd, Dirname(Lower(path))).1 && fnmatch(Lower(path), Lower(x))
  {
    GetMatchesPlain(t, c, pwd, fnmatch, pattern, path);
    PathsMember(Matching(ContentsSpec(t, c, pwd, Dirname(Lower(path))).1, Lower(path), fnmatch), x);
  }

  /** With `preserve_root`, a match in the working directory of a pattern
      without `/` keeps only its base name: `*2` gives `sub2`. */
  lemma ReprefixRelative(pattern: string, dir: string, name: string)
    requires forall i :: 0 <= i < |pattern| ==> pattern[i] != '/'
    requires forall i :: 0 <= i < |name| ==> name[i] != '/'
    ensures Reprefix(PrefixThroughSlash(pattern), [dir + "/" + name]) == [name]
  {
    var s := dir + "/" + name;
    assert s[|dir|] == '/';
    assert forall j :: |dir| < j < |s| ==> s[j] == name[j - |dir| - 1];
    assert LastIndex(s, '/') == Some(|dir|);
    assert s[|dir| + 1..] == name;
    assert "" + name == name;
  }

  // ---------------------------------------------------------------------
  // forget_contents
  // ---------------------------------------------------------------------

  /** Removing the listed paths deletes, with every deleted entry, everything
      that entry listed: no descendant of a removed path survives. */
  lemma {:induction false} RemoveEachGone(t: Table, links: seq<Info>)
    requires ValidTable(t)
    ensures CacheProperties.LinksGone(t, RemoveEach(t, links))
    decreases links
  {
    if links != [] {
      var c := InfoKey(links[0]);
      var t0 := RecRemove(t, c);
      var t1 := RemoveSpec(t, links[0].path);
      var r := RemoveEach(t1, links[1..]);
      CacheProperties.RecRemoveClosed(t, c);
      CacheProperties.UnlinkEffect(t0, c, Dirname(c));
      RemoveEachGone(t1, links[1..]);
      forall y, x | CacheProperties.Deleted(t, r, y) && x in LinkKeys(t.values[y])
        ensures x !in r.values
      {
        if y !in t1.values {
          assert CacheProperties.Deleted(t, t0, y);
        } else if x != c {
          var l :| l in t.values[y].contents.value && InfoKey(l) == x;
          assert l in t1.values[y].contents.value;
          assert CacheProperties.Deleted(t1, r, y);
        }
      }
    }
  }

  /** Removing the listed paths spares a set of entries that holds none of them
      and none of their parents, when everything listing a member of the set is
      itself in the set: each such entry keeps its fields. */
  lemma {:induction false} RemoveEachSpares(t: Table, links: seq<Info>, u: set<string>, x: string)
    requires ValidTable(t)
    requires x in u && x in t.values
    requires forall l :: l in links ==> InfoKey(l) !in u && Dirname(InfoKey(l)) != x
    requires forall y, z :: y in t.values && z in u && z in LinkKeys(t.values[y]) ==> y in u
    ensures x in RemoveEach(t, links).values && RemoveEach(t, links).values[x] == t.values[x]
    decreases links
  {
    if links != [] {
      var c := InfoKey(links[0]);
      var t0 := RecRemove(t, c);
      var t1 := RemoveSpec(t, links[0].path);
      assert links[0] in links;
      CacheProperties.RecRemoveSpares(t, c, u, x);
      CacheProperties.UnlinkEffect(t0, c, Dirname(c));
      forall y, z | y in t1.values && z in u && z in LinkKeys(t1.values[y]) ensures y in u {
        var l :| l in t1.values[y].contents.value && InfoKey(l) == z;
        assert l in t.values[y].contents.value;
      }
      assert forall l :: l in links[1..] ==> l in links;
      RemoveEachSpares(t1, links[1..], u, x);
    }
  }

  /** `forget(partial)` drops the whole subtree under the directory: every entry
      a dropped entry listed is dropped too. */
  lemma ForgetDescendantsGone(t: Table, pwd: string, partial: string)
    requires ValidTable(t)
    ensures CacheProperties.LinksGone(t, ForgetSpec(t, pwd, partial).0)
  {
    var k := Lower(Resolve(pwd, partial));
    if k in t.values && t.values[k].contents.Some? {
      var links := t.values[k].contents.value;
      var t1 := RemoveEach(t, links);
      RemoveEachGone(t, links);
      RemoveEachKeeps(t, links, k);
      var r := ForgetSpec(t, pwd, partial).0;
      assert r.values.Keys == t1.values.Keys;
      forall y | CacheProperties.Deleted(t, r, y) ensures CacheProperties.Deleted(t, t1, y) {
      }
    }
  }

  /** `forget(partial)` leaves alone every entry outside the dropped subtrees:
      a set that holds neither the directory nor any of its items, and that
      every entry listing one of its members belongs to, keeps its fields. */
  lemma ForgetSpares(t: Table, pwd: string, partial: string, u: set<string>, x: string)
    requires ValidTable(t)
    requires x in u && x in t.values
    requires var k := Lower(Resolve(pwd, partial));
      k in t.values && t.values[k].contents.Some? ==>
        && x != k
        && forall l :: l in t.values[k].contents.value ==>
             InfoKey(l) !in u && Dirname(InfoKey(l)) != x
    requires forall y, z :: y in t.values && z in u && z in LinkKeys(t.values[y]) ==> y in u
    ensures x in ForgetSpec(t, pwd, partial).0.values
    ensures ForgetSpec(t, pwd, partial).0.values[x] == t.values[x]
  {
    var k := Lower(Resolve(pwd, partial));
    if k in t.values && t.values[k].contents.Some? {
      RemoveEachSpares(t, t.values[k].contents.value, u, x);
    }
  }

  /** Forgetting a path a second time yields one line and changes nothing. */
  lemma ForgetTwice(t: Table, pwd: string, partial: string)
    requires ValidTable(t)
    ensures var first := ForgetSpec(t, pwd, partial);
      ForgetSpec(first.0, pwd, partial) == (first.0, ["forget: " + partial + ": nothing to forget"])
  {
  }
}
