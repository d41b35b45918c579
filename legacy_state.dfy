/**
 * The earlier, top-level state.rb: a working directory and the previous one,
 * path resolution without the `.` rules of lib/droxi/state.rb, and glob
 * expansion against the parent directory's listing.
 */
module LegacyState {
  import opened Wrappers
  import opened Strings
  import opened Rewrite

  /** `resolve_path(path)` with working directory `pwd` (state.rb:12-20):
      a relative path is put under `pwd`, `//` collapses, `/seg/..` pairs go,
      one trailing `/` is chomped and the empty result is the root. */
  function Resolve(pwd: string, path: string): (r: string)
    ensures r != []
  {
    var p0 := if StartsWith(path, "/") then path else pwd + "/" + path;
    var p1 := GsubDoubleSlash(p0);
    var p2 := RemoveDotDots(p1);
    var p3 := Chomp(p2, "/");
    if p3 == [] then "/" else p3
  }

  /** What `client.metadata(dir)['contents']` yields for a directory: the
      paths of its entries, or `None` when the call raises or the result has
      no `contents` (a file), where `each` on `nil` raises. */
  type Listing = string -> Option<seq<string>>

  /** The entries the pattern matches, in listing order (state.rb:26-30). */
  function Matches(entries: seq<string>, pattern: string, fnmatch: (string, string) -> bool): (r: seq<string>)
    ensures |r| <= |entries|
    ensures forall x :: x in r <==> x in entries && fnmatch(pattern, x)
  {
    if entries == [] then []
    else
      var init := entries[..|entries| - 1];
      var last := entries[|entries| - 1];
      assert entries == init + [last];
      var r0 := Matches(init, pattern, fnmatch);
      if fnmatch(pattern, last) then r0 + [last] else r0
  }

  /** The expansion of one pattern: its matches, or the resolved pattern
      itself when nothing matches (state.rb:23-36). */
  function ExpandOne(pwd: string, listing: Listing, fnmatch: (string, string) -> bool, pattern: string)
    : (r: Option<seq<string>>)
    ensures r.None? <==> listing(Dirname(Resolve(pwd, pattern))).None?
    ensures r.Some? ==> r.value != []
    ensures r.Some? ==> forall x :: x in r.value ==>
              x == Resolve(pwd, pattern) || fnmatch(Resolve(pwd, pattern), x)
  {
    var p := Resolve(pwd, pattern);
    match listing(Dirname(p))
    case None => None
    case Some(entries) =>
      var m := Matches(entries, p, fnmatch);
      Some(if m == [] then [p] else m)
  }

  /** `map` with a block that may raise, then `flatten`: `None` as soon as
      one element's block fails. */
  function FlatMap(f: string -> Option<seq<string>>, xs: seq<string>): (r: Option<seq<string>>)
    ensures r.Some? ==> forall x :: x in xs ==> f(x).Some?
    ensures xs == [] ==> r == Some([])
  {
    if xs == [] then Some([])
    else
      match f(xs[0])
      case None => None
      case Some(first) =>
        match FlatMap(f, xs[1..])
        case None => None
        case Some(rest) => Some(first + rest)
  }

  /** The flattening fails exactly when the block fails for some element. */
  lemma {:induction false} FlatMapFails(f: string -> Option<seq<string>>, xs: seq<string>)
    ensures FlatMap(f, xs).None? <==> exists i :: 0 <= i < |xs| && f(xs[i]).None?
    decreases |xs|
  {
    if xs != [] {
      var tail := xs[1..];
      FlatMapFails(f, tail);
      forall i | 1 <= i < |xs| ensures xs[i] == tail[i - 1] { }
      forall i | 0 <= i < |tail| ensures tail[i] == xs[i + 1] { }
    }
  }

  /** One more element appends its block's result. */
  lemma {:induction false} FlatMapSnoc(f: string -> Option<seq<string>>, xs: seq<string>, x: string)
    requires FlatMap(f, xs).Some? && f(x).Some?
    ensures FlatMap(f, xs + [x]) == Some(FlatMap(f, xs).value + f(x).value)
    decreases |xs|
  {
    var ys := xs + [x];
    if xs == [] {
      assert ys[0] == x && ys[1..] == [];
      assert f(x).value + [] == [] + f(x).value;
    } else {
      assert ys[0] == xs[0] && ys[1..] == xs[1..] + [x];
      FlatMapSnoc(f, xs[1..], x);
      var first := f(xs[0]).value;
      var rest := FlatMap(f, xs[1..]).value;
      assert first + (rest + f(x).value) == (first + rest) + f(x).value;
    }
  }

  /** The flattening of a concatenation is the concatenation of the flattenings. */
  lemma {:induction false} FlatMapAppend(f: string -> Option<seq<string>>, a: seq<string>, b: seq<string>)
    requires FlatMap(f, a).Some? && FlatMap(f, b).Some?
    ensures FlatMap(f, a + b) == Some(FlatMap(f, a).value + FlatMap(f, b).value)
    decreases |a|
  {
    if a == [] {
      assert a + b == b;
      assert [] + FlatMap(f, b).value == FlatMap(f, b).value;
    } else {
      assert (a + b)[0] == a[0] && (a + b)[1..] == a[1..] + b;
      FlatMapAppend(f, a[1..], b);
      var first := f(a[0]).value;
      var ra := FlatMap(f, a[1..]).value;
      var rb := FlatMap(f, b).value;
      assert first + (ra + rb) == (first + ra) + rb;
    }
  }

  lemma TakeOneMore(xs: seq<string>, i: nat)
    requires i < |xs|
    ensures xs[..i + 1] == xs[..i] + [xs[i]]
  {
  }

  /** When no block result is empty, the flattening is at least as long as the input. */
  lemma {:induction false} FlatMapLength(f: string -> Option<seq<string>>, xs: seq<string>)
    requires forall i :: 0 <= i < |xs| && f(xs[i]).Some? ==> f(xs[i]).value != []
    ensures FlatMap(f, xs).Some? ==> |FlatMap(f, xs).value| >= |xs|
    decreases |xs|
  {
    if xs != [] {
      var tail := xs[1..];
      forall i | 0 <= i < |tail| && f(tail[i]).Some? ensures f(tail[i]).value != [] {
        assert tail[i] == xs[i + 1];
      }
      FlatMapLength(f, tail);
    }
  }

  /** The block of `expand_patterns`. */
  function Expander(pwd: string, listing: Listing, fnmatch: (string, string) -> bool): string -> Option<seq<string>> {
    pattern => ExpandOne(pwd, listing, fnmatch, pattern)
  }

  /** `expand_patterns(client, patterns)`: every pattern contributes at least
      one path, and the first pattern whose listing fails aborts the whole
      expansion. */
  function ExpandSpec(pwd: string, listing: Listing, fnmatch: (string, string) -> bool, patterns: seq<string>)
    : (r: Option<seq<string>>)
    ensures r.Some? ==> |r.value| >= |patterns|
    ensures r.None? <==> exists i :: 0 <= i < |patterns| && ExpandOne(pwd, listing, fnmatch, patterns[i]).None?
  {
    var f := Expander(pwd, listing, fnmatch);
    FlatMapLength(f, patterns);
    FlatMapFails(f, patterns);
    FlatMap(f, patterns)
  }

  class State {
    var pwd: string
    var oldpwd: string

    /** `State.new`: both directories are the root (state.rb:4-6). */
    constructor ()
      ensures pwd == "/" && oldpwd == "/"
    {
      pwd := "/";
      oldpwd := "/";
    }

    /** `pwd = value`: the old working directory becomes `oldpwd` (state.rb:8-10). */
    method SetPwd(value: string)
      modifies this
      ensures pwd == value && oldpwd == old(pwd)
    {
      oldpwd, pwd := pwd, value;
    }

    /** `resolve_path(path)`, rewriting a copy step by step (state.rb:12-20). */
    method ResolvePath(path: string) returns (r: string)
      ensures r == Resolve(pwd, path)
    {
      var p := if StartsWith(path, "/") then path else pwd + "/" + path;
      p := GsubDoubleSlash(p);
      p := RepeatSubDotDot(p);
      p := Chomp(p, "/");
      r := if p == [] then "/" else p;
    }

    /** The block of `expand_patterns` for one pattern (state.rb:24-36). */
    method ExpandPattern(listing: Listing, fnmatch: (string, string) -> bool, pattern: string)
      returns (r: Option<seq<string>>)
      ensures r == ExpandOne(pwd, listing, fnmatch, pattern)
    {
      var finalPattern := ResolvePath(pattern);
      var contents := listing(Dirname(finalPattern));
      if contents.None? {
        return None;
      }
      var entries := contents.value;
      var matches: seq<string> := [];
      var j := 0;
      while j < |entries|
        invariant 0 <= j <= |entries|
        invariant matches == Matches(entries[..j], finalPattern, fnmatch)
      {
        assert entries[..j + 1][..j] == entries[..j];
        if fnmatch(finalPattern, entries[j]) {
          matches := matches + [entries[j]];
        }
        j := j + 1;
      }
      assert entries[..j] == entries;
      r := Some(if matches == [] then [finalPattern] else matches);
    }

    /** `expand_patterns(client, patterns)` (state.rb:22-38); `None` stands
        for the exception that a failed listing raises. */
    method ExpandPatterns(listing: Listing, fnmatch: (string, string) -> bool, patterns: seq<string>)
      returns (r: Option<seq<string>>)
      ensures r == ExpandSpec(pwd, listing, fnmatch, patterns)
    {
      var out: seq<string> := [];
      var i := 0;
      while i < |patterns|
        invariant 0 <= i <= |patterns|
        invariant FlatMap(Expander(pwd, listing, fnmatch), patterns[..i]) == Some(out)
      {
        var one := ExpandPattern(listing, fnmatch, patterns[i]);
        if one.None? {
          assert ExpandOne(pwd, listing, fnmatch, patterns[i]).None?;
          return None;
        }
        FlatMapSnoc(Expander(pwd, listing, fnmatch), patterns[..i], patterns[i]);
        TakeOneMore(patterns, i);
        out := out + one.value;
        i := i + 1;
      }
      assert patterns[..i] == patterns;
      r := Some(out);
    }
  }
}

/**
 * What the legacy `resolve_path` promises, and where it parts from the one
 * in lib/droxi/state.rb.
 */
module LegacyStateProperties {
  import opened Wrappers
  import opened Strings
  import opened Rewrite
  import opened LegacyState
  import Session
  import SessionProperties

  /** A plain absolute path resolves to itself under both versions of
      `resolve_path`. */
  lemma ResolvePlain(pwd: string, p: string)
    requires IsAbsolute(p) && NoDoubleSlash(p) && SessionProperties.NoDot(p)
    requires p == "/" || p[|p| - 1] != '/'
    ensures Resolve(pwd, p) == p
    ensures Session.Resolve(pwd, p) == p
  {
    assert StartsWith(p, "/");
    SessionProperties.NoDotDotPair(p);
    if p == "/" {
      assert Chomp(p, "/") == [];
    }
    SessionProperties.ResolvePlain(pwd, p);
  }

  /** The root resolves to itself from any working directory. */
  lemma ResolveRoot(pwd: string)
    ensures Resolve(pwd, "/") == "/"
  {
    ResolvePlain(pwd, "/");
  }

  /** An absolute path does not depend on the working directory. */
  lemma ResolveAbsolute(pwd1: string, pwd2: string, path: string)
    requires StartsWith(path, "/")
    ensures Resolve(pwd1, path) == Resolve(pwd2, path)
  {
  }

  /** A name resolves under the working directory. */
  lemma ResolveUnqualified(a: string, b: string)
    requires SessionProperties.Segment(a) && SessionProperties.Segment(b)
    ensures Resolve("/" + a, b) == "/" + a + "/" + b
  {
    assert b[0] != '/';
    assert !StartsWith(b, "/");
    SessionProperties.SegmentPath([], a);
    assert [] + "/" + a == "/" + a;
    SessionProperties.SegmentPath("/" + a, b);
    ResolvePlain("/", "/" + a + "/" + b);
  }

  /** `../..` climbs two directories. */
  lemma ResolveDotDot(a: string, b: string, g: string)
    requires SessionProperties.Segment(a) && SessionProperties.Segment(b) && SessionProperties.Segment(g)
    ensures Resolve("/" + a + "/" + b + "/" + g, "../..") == "/" + a
  {
    var pwd := "/" + a + "/" + b + "/" + g;
    assert "../.."[0] != '/';
    assert !StartsWith("../..", "/");
    SessionProperties.SegmentPath([], a);
    assert [] + "/" + a == "/" + a;
    SessionProperties.SegmentPath("/" + a, b);
    SessionProperties.SegmentPath("/" + a + "/" + b, g);
    SessionProperties.TwoDotDots(a, b, g);
    SessionProperties.UpTwiceNoDoubleSlash(pwd);
    assert !EndsWith("/" + a, "/");
  }

  /** The legacy version keeps a `.` segment: `.` under `/alpha` gives
      `/alpha/.`, where lib/droxi/state.rb gives `/alpha`. */
  lemma ResolveKeepsDot(a: string)
    requires SessionProperties.Segment(a)
    ensures Resolve("/" + a, ".") == "/" + a + "/."
    ensures Session.Resolve("/" + a, ".") == "/" + a
  {
    var s := "/" + a + "/.";
    assert "."[0] != '/';
    assert !StartsWith(".", "/");
    SessionProperties.SegmentPath([], a);
    assert [] + "/" + a == "/" + a;
    assert ("/" + a) + "/" + "." == s;
    assert s[|s| - 2] == '/' && s[|s| - 1] == '.';
    assert forall i :: 0 <= i < |s| - 2 ==> s[i] == ("/" + a)[i];
    assert NoDoubleSlash(s);
    SessionProperties.NoDotDotPair(s);
    assert !EndsWith(s, "/");
    SessionProperties.ResolveDot(a);
  }

  /** A single pattern expands to what its own block gives. */
  lemma ExpandSingle(pwd: string, listing: Listing, fnmatch: (string, string) -> bool, p: string)
    ensures ExpandSpec(pwd, listing, fnmatch, [p]) == ExpandOne(pwd, listing, fnmatch, p)
  {
    var f := Expander(pwd, listing, fnmatch);
    assert [p][1..] == [];
    match f(p)
    case None =>
    case Some(one) =>
      assert FlatMap(f, [p]) == Some(one + []);
      assert one + [] == one;
  }

  /** When nothing in the parent listing matches, the pattern stands for
      itself, resolved (state.rb:32-33). */
  lemma ExpandUnmatched(pwd: string, listing: Listing, fnmatch: (string, string) -> bool,
                        p: string, entries: seq<string>)
    requires listing(Dirname(Resolve(pwd, p))) == Some(entries)
    requires forall e :: e in entries ==> !fnmatch(Resolve(pwd, p), e)
    ensures ExpandSpec(pwd, listing, fnmatch, [p]) == Some([Resolve(pwd, p)])
  {
    ExpandSingle(pwd, listing, fnmatch, p);
    NoMatches(entries, Resolve(pwd, p), fnmatch);
  }

  lemma {:induction false} NoMatches(entries: seq<string>, pattern: string, fnmatch: (string, string) -> bool)
    requires forall e :: e in entries ==> !fnmatch(pattern, e)
    ensures Matches(entries, pattern, fnmatch) == []
    decreases |entries|
  {
    if entries != [] {
      var init := entries[..|entries| - 1];
      assert forall e :: e in init ==> e in entries;
      NoMatches(init, pattern, fnmatch);
    }
  }

  /** Otherwise it stands for the matching entries, in listing order
      (state.rb:26-35). */
  lemma ExpandMatched(pwd: string, listing: Listing, fnmatch: (string, string) -> bool,
                      p: string, entries: seq<string>, e: string)
    requires listing(Dirname(Resolve(pwd, p))) == Some(entries)
    requires e in entries && fnmatch(Resolve(pwd, p), e)
    ensures ExpandSpec(pwd, listing, fnmatch, [p]) == Some(Matches(entries, Resolve(pwd, p), fnmatch))
  {
    ExpandSingle(pwd, listing, fnmatch, p);
    assert e in Matches(entries, Resolve(pwd, p), fnmatch);
  }

  /** Expanding a concatenation concatenates the expansions. */
  lemma ExpandAppend(pwd: string, listing: Listing, fnmatch: (string, string) -> bool,
                     a: seq<string>, b: seq<string>)
    requires ExpandSpec(pwd, listing, fnmatch, a).Some? && ExpandSpec(pwd, listing, fnmatch, b).Some?
    ensures ExpandSpec(pwd, listing, fnmatch, a + b) ==
              Some(ExpandSpec(pwd, listing, fnmatch, a).value + ExpandSpec(pwd, listing, fnmatch, b).value)
  {
    FlatMapAppend(Expander(pwd, listing, fnmatch), a, b);
  }
}
