/**
 * Remote tab completion of lib/droxi/complete.rb: the directory in which to
 * look for candidates, and the candidates themselves.
 *
 * `remote` asks the session for a directory listing and for whether each
 * candidate is a directory; both questions fetch metadata on demand. Here
 * they are parameters: `contents` gives the listing of a directory and
 * `isDir` answers `directory?`, as the session answers them at the moment
 * of completion.
 */
module Complete {
  import opened Wrappers
  import opened Strings
  import opened Rewrite

  // ---------------------------------------------------------------------
  // strip_filename and collapse (lib/droxi/complete.rb:69-84)
  // ---------------------------------------------------------------------

  /** `strip_filename(path)`: the root stays, a trailing `/` is dropped, and
      anything else is reduced to its directory name. */
  function StripFilename(path: string): (r: string)
    ensures path == "/" ==> r == "/"
    ensures path != "/" && EndsWith(path, "/") ==> r + "/" == path
    ensures !EndsWith(path, "/") ==> r == Dirname(path)
  {
    if path != "/" then (if EndsWith(path, "/") then path[..|path| - 1] else Dirname(path))
    else path
  }

  /** `collapse(path)`: every `seg/../` becomes `/`, then every `./` goes. */
  function Collapsed(path: string): (r: string)
    ensures |r| <= |path|
    ensures !Occurs(r, "./")
  {
    RemoveDotSlashes(RemoveSegUps(path))
  }

  /** `collapse` as the source runs it: two `nil while sub!` loops over a copy. */
  method Collapse(path: string) returns (r: string)
    ensures r == Collapsed(path)
  {
    r := RepeatSubSegUp(path);
    r := RepeatSubDotSlash(r);
  }

  /** `remote_search_path(string, state)` with working directory `pwd`. */
  function RemoteSearchPath(pwd: string, s: string): (r: string)
    ensures StartsWith(s, "/") ==> r == StripFilename(Collapsed(s))
    ensures !StartsWith(s, "/") ==> r == StripFilename(Collapsed(pwd + "/" + s))
  {
    assert pwd + "/" + [] == pwd + "/";
    var path := if s == [] then pwd + "/" else if StartsWith(s, "/") then s else pwd + "/" + s;
    StripFilename(Collapsed(path))
  }

  // ---------------------------------------------------------------------
  // remote and remote_dir (lib/droxi/complete.rb:46-64)
  // ---------------------------------------------------------------------

  /** `contents(dir).map { |entry| File.basename(entry) }`. */
  function BaseNames(paths: seq<string>): (r: seq<string>)
    ensures |r| == |paths|
    ensures forall i :: 0 <= i < |r| ==> r[i] == Basename(paths[i])
  {
    seq(|paths|, i requires 0 <= i < |paths| => Basename(paths[i]))
  }

  /** The select of `remote`: the entry extends the typed name and is not
      `.` or `..`. */
  predicate Offered(name: string, e: string) {
    StartsWith(e, name) && e != "." && e != ".."
  }

  /** What `remote` appends to an entry: `/` for a directory, a space otherwise. */
  function Mark(isDir: bool): string {
    if isDir then "/" else " "
  }

  /** The candidate for one offered entry: the typed string followed by the
      part of the marked entry that was not typed yet. */
  function Candidate(s: string, name: string, dir: string, e: string, isDir: string -> bool): string
    requires |name| <= |e|
  {
    s + (e + Mark(isDir(dir + "/" + e)))[|name|..]
  }

  /** The select and second map of `remote`, entry by entry, in order. */
  function Candidates(s: string, name: string, dir: string, entries: seq<string>,
                      isDir: string -> bool): (r: seq<string>)
    ensures |r| <= |entries|
    ensures forall x :: x in r <==>
              exists e :: e in entries && Offered(name, e) && x == Candidate(s, name, dir, e, isDir)
  {
    if entries == [] then []
    else
      var rest := Candidates(s, name, dir, entries[1..], isDir);
      assert forall e :: e in entries <==> e == entries[0] || e in entries[1..];
      if Offered(name, entries[0]) then [Candidate(s, name, dir, entries[0], isDir)] + rest else rest
  }

  /** The basename typed so far: nothing after a trailing `/`. */
  function TypedName(s: string): string {
    if EndsWith(s, "/") then "" else Basename(s)
  }

  /** `remote(string, state)`. */
  function Remote(s: string, pwd: string, contents: string -> seq<string>, isDir: string -> bool): (r: seq<string>)
    ensures |r| <= |contents(RemoteSearchPath(pwd, s))|
  {
    var dir := RemoteSearchPath(pwd, s);
    Candidates(s, TypedName(s), dir, BaseNames(contents(dir)), isDir)
  }

  /** `select { |result| result.end_with?('/') }`, order kept. */
  function EndingInSlash(xs: seq<string>): (r: seq<string>)
    ensures |r| <= |xs|
    ensures forall x :: x in r <==> x in xs && EndsWith(x, "/")
  {
    if xs == [] then []
    else
      var rest := EndingInSlash(xs[1..]);
      assert forall x :: x in xs <==> x == xs[0] || x in xs[1..];
      if EndsWith(xs[0], "/") then [xs[0]] + rest else rest
  }

  /** `remote_dir(string, state)`: exactly the candidates of `remote` that end in `/`. */
  function RemoteDir(s: string, pwd: string, contents: string -> seq<string>, isDir: string -> bool): (r: seq<string>)
    ensures forall x :: x in r <==> x in Remote(s, pwd, contents, isDir) && EndsWith(x, "/")
  {
    EndingInSlash(Remote(s, pwd, contents, isDir))
  }
}

/**
 * What lib/droxi/complete.rb promises of its remote completions.
 */
module CompleteProperties {
  import opened Wrappers
  import opened Strings
  import opened Rewrite
  import opened Complete

  // ---------------------------------------------------------------------
  // strip_filename
  // ---------------------------------------------------------------------

  /** A path written with a trailing `/` is stripped back to the directory. */
  lemma StripTrailingSlash(p: string)
    requires p != []
    ensures StripFilename(p + "/") == (if p == "/" then "/" else p)
  {
    assert EndsWith(p + "/", "/");
    assert (p + "/")[..|p|] == p;
  }

  /** A name typed after a directory is stripped back to that directory. */
  lemma StripChild(p: string, name: string)
    requires IsAbsolute(p) && (p == "/" || p[|p| - 1] != '/')
    requires name != [] && !Contains(name, '/')
    ensures StripFilename(p + "/" + name) == p
  {
    var s := p + "/" + name;
    assert s[|s| - 1..] != "/" by {
      assert s[|s| - 1..][0] == name[|name| - 1];
    }
    assert StripSlashes(s) == s;
    forall k | |p| < k < |s| ensures s[k] != '/' {
      assert s[k] == name[k - |p| - 1];
    }
    assert s[|p|] == '/';
    var i := LastIndex(s, '/').value;
    assert i == |p|;
    assert s[..i] == p;
    if p == "/" {
      assert StripSlashes(p) == StripSlashes(p[..0]);
    }
  }

  /** The directory name of a one-segment absolute path is the root. */
  lemma DirnameTop(n: string)
    requires n != [] && !Contains(n, '/')
    ensures Dirname("/" + n) == "/"
  {
    var p := "/" + n;
    assert p[|p| - 1] == n[|n| - 1];
    assert StripSlashes(p) == p;
    forall k | 0 < k < |p| ensures p[k] != '/' {
      assert p[k] == n[k - 1];
    }
    assert p[0] == '/';
    assert LastIndex(p, '/').value == 0;
    assert StripSlashes(p[..0]) == [];
  }

  /** What `collapse` leaves of `..` under a one-segment directory strips to the root. */
  lemma StripDoubleSlash(f: string)
    requires !Contains(f, '/')
    ensures StripFilename("//" + f) == "/"
  {
    var s := "//" + f;
    if f == [] {
      assert s == "//";
      assert EndsWith(s, "/");
      assert s[..1] == "/";
    } else {
      assert s[|s| - 1..] != "/" by {
        assert s[|s| - 1..][0] == f[|f| - 1];
      }
      assert StripSlashes(s) == s;
      forall k | 1 < k < |s| ensures s[k] != '/' {
        assert s[k] == f[k - 2];
      }
      assert s[1] == '/';
      assert LastIndex(s, '/').value == 1;
      assert StripSlashes(s[..1]) == StripSlashes(s[..0]);
    }
  }

  // ---------------------------------------------------------------------
  // collapse
  // ---------------------------------------------------------------------

  /** Text without a `.` has nothing to collapse. */
  lemma CollapseNoDot(s: string)
    requires !Contains(s, '.')
    ensures RemoveSegUps(s) == s && RemoveDotSlashes(s) == s
    ensures Collapsed(s) == s
  {
    forall k | 0 <= k < |s| ensures SegUpAt(s, k).None? {
      match IndexFrom(s, '/', k)
      case None =>
      case Some(j) =>
        if j + 4 <= |s| {
          assert s[j..j + 4][1] == s[j + 1];
        }
    }
    assert Leftmost(s, 0, SegUpAt).None?;
    forall i: nat ensures !OccursAt(s, "./", i) {
      if i + 2 <= |s| {
        assert s[i..i + 2][0] == s[i];
      }
    }
  }

  /** `./` after a directory without dots collapses to that directory. */
  lemma CollapseDotSlash(p: string, f: string)
    requires !Contains(p, '.') && !Contains(f, '.')
    ensures Collapsed(p + "/./" + f) == p + "/" + f
  {
    var s := p + "/./" + f;
    var t := p + "/" + f;
    DotSlashKeepsSegments(p, f);
    DotSlashOnce(p, f);
    forall k | 0 <= k < |t| ensures t[k] != '.' {
      if k < |p| {
        assert t[k] == p[k];
      } else if k > |p| {
        assert t[k] == f[k - |p| - 1];
      }
    }
    CollapseNoDot(t);
    assert RemoveDotSlashes(s) == RemoveDotSlashes(t);
  }

  /** The only dot of `p/./f` is the one after `p/`. */
  lemma DotSlashOnlyDot(p: string, f: string)
    requires !Contains(p, '.') && !Contains(f, '.')
    ensures var s := p + "/./" + f; s[|p| + 1] == '.' && forall k :: 0 <= k < |s| && k != |p| + 1 ==> s[k] != '.'
  {
    var s := p + "/./" + f;
    var n := |p| + 1;
    forall k | 0 <= k < |s| && k != n ensures s[k] != '.' {
      if k < |p| {
        assert s[k] == p[k];
      } else if k > n + 1 {
        assert s[k] == f[k - n - 2];
      }
    }
  }

  /** `p/./f` holds no `/../` for `sub_seg_up` to remove. */
  lemma DotSlashKeepsSegments(p: string, f: string)
    requires !Contains(p, '.') && !Contains(f, '.')
    ensures RemoveSegUps(p + "/./" + f) == p + "/./" + f
  {
    var s := p + "/./" + f;
    DotSlashOnlyDot(p, f);
    forall k | 0 <= k < |s| ensures SegUpAt(s, k).None? {
      match IndexFrom(s, '/', k)
      case None =>
      case Some(j) =>
        if j + 4 <= |s| {
          assert s[j..j + 4][1] == s[j + 1] && s[j..j + 4][2] == s[j + 2];
        }
    }
    assert Leftmost(s, 0, SegUpAt).None?;
  }

  /** The one `./` of `p/./f` is the one after `p/`. */
  lemma DotSlashOnce(p: string, f: string)
    requires !Contains(p, '.') && !Contains(f, '.')
    ensures SubDotSlash(p + "/./" + f) == Some(p + "/" + f)
  {
    var s := p + "/./" + f;
    var n := |p| + 1;
    DotSlashOnlyDot(p, f);
    assert LiteralAt("./")(s, n).Some?;
    var x := Leftmost(s, 0, LiteralAt("./"));
    var i := x.value.0;
    assert s[i..i + 2][0] == s[i];
    assert i == n;
    var t := s[..n] + s[n + 2..];
    assert SubDotSlash(s) == Some(t);
    assert t == p + "/" + f;
  }

  /** `../` after a one-segment directory without dots collapses to `//`. */
  lemma CollapseParent(n: string, f: string)
    requires n != [] && !Contains(n, '/') && !Contains(n, '.') && !Contains(f, '.')
    ensures Collapsed("/" + n + "/../" + f) == "//" + f
  {
    var s := "/" + n + "/../" + f;
    var j := |n| + 1;
    assert s[j] == '/';
    forall k | 1 <= k < j ensures s[k] != '/' {
      assert s[k] == n[k - 1];
    }
    assert IndexFrom(s, '/', 1) == Some(j);
    assert s[1] == n[0];
    assert s[j..j + 4] == "/../";
    assert SegUpAt(s, 1) == Some(j + 4);
    assert SegUpAt(s, 0).None?;
    var x := Leftmost(s, 0, SegUpAt);
    assert x.value.0 == 1;
    var t := "//" + f;
    assert s[..1] + "/" + s[j + 4..] == t;
    assert SubSegUp(s) == Some(t);
    forall k | 0 <= k < |t| ensures t[k] != '.' {
      if k >= 2 {
        assert t[k] == f[k - 2];
      }
    }
    CollapseNoDot(t);
  }

  // ---------------------------------------------------------------------
  // remote_search_path (spec/complete_spec.rb:117-141)
  // ---------------------------------------------------------------------

  /** A working directory as the completion tests use it: the root, or an
      absolute path without dots or a trailing slash. */
  predicate PlainDir(pwd: string) {
    IsAbsolute(pwd) && !Contains(pwd, '.') && (pwd == "/" || pwd[|pwd| - 1] != '/')
  }

  /** A file name as typed: no `/` and no `.`. */
  predicate PlainName(f: string) {
    !Contains(f, '/') && !Contains(f, '.')
  }

  lemma NoDotJoin(a: string, b: string)
    requires !Contains(a, '.') && !Contains(b, '.')
    ensures !Contains(a + "/" + b, '.')
  {
    var s := a + "/" + b;
    forall k | 0 <= k < |s| ensures s[k] != '.' {
      if k < |a| {
        assert s[k] == a[k];
      } else if k > |a| {
        assert s[k] == b[k - |a| - 1];
      }
    }
  }

  lemma NotAbsolute(f: string)
    requires f != [] && f[0] != '/'
    ensures !StartsWith(f, "/")
  {
    assert f[..1][0] == f[0];
  }

  /** Nothing typed, or a bare name, is completed in the working directory. */
  lemma {:induction false} SearchUnqualified(pwd: string, f: string)
    requires PlainDir(pwd) && PlainName(f)
    ensures RemoteSearchPath(pwd, "") == pwd
    ensures RemoteSearchPath(pwd, f) == pwd
  {
    NoDotJoin(pwd, "");
    assert pwd + "/" + "" == pwd + "/";
    CollapseNoDot(pwd + "/");
    StripTrailingSlash(pwd);
    if f != [] {
      NotAbsolute(f);
      NoDotJoin(pwd, f);
      CollapseNoDot(pwd + "/" + f);
      StripChild(pwd, f);
    }
  }

  /** `/` and a name under it are completed in the root. */
  lemma {:induction false} SearchRoot(f: string)
    requires PlainName(f)
    ensures RemoteSearchPath("/", "/") == "/"
    ensures RemoteSearchPath("/", "/" + f) == "/"
  {
    assert StartsWith("/", "/");
    NoDotJoin("", "");
    assert "" + "/" + "" == "/";
    CollapseNoDot("/");
    assert StartsWith("/" + f, "/");
    NoDotJoin("", f);
    assert "" + "/" + f == "/" + f;
    CollapseNoDot("/" + f);
    if f != [] {
      var s := "/" + f;
      assert s[|s| - 1..] != "/" by {
        assert s[|s| - 1..][0] == f[|f| - 1];
      }
      DirnameTop(f);
    }
  }

  /** `/dir/` and a name under it are completed in `/dir`. */
  lemma {:induction false} SearchNamedDirectory(d: string, f: string)
    requires d != [] && PlainName(d) && PlainName(f)
    ensures RemoteSearchPath("/", "/" + d + "/") == "/" + d
    ensures RemoteSearchPath("/", "/" + d + "/" + f) == "/" + d
  {
    var p := "/" + d;
    NoDotJoin("", d);
    assert "" + "/" + d == p;
    NoDotJoin(p, "");
    assert p + "/" + "" == p + "/";
    assert StartsWith(p + "/", "/");
    CollapseNoDot(p + "/");
    StripTrailingSlash(p);
    NoDotJoin(p, f);
    assert StartsWith(p + "/" + f, "/");
    CollapseNoDot(p + "/" + f);
    assert p[|p| - 1] == d[|d| - 1];
    if f != [] {
      StripChild(p, f);
    }
  }

  /** `./` and a name after it are completed in the working directory. */
  lemma {:induction false} SearchDot(pwd: string, f: string)
    requires PlainDir(pwd) && PlainName(f)
    ensures RemoteSearchPath(pwd, "./") == pwd
    ensures RemoteSearchPath(pwd, "./" + f) == pwd
  {
    SearchDotAlone(pwd);
    SearchDotName(pwd, f);
  }

  lemma SearchDotAlone(pwd: string)
    requires PlainDir(pwd)
    ensures RemoteSearchPath(pwd, "./") == pwd
  {
    NotAbsolute("./");
    assert pwd + "/" + "./" == pwd + "/./" + "";
    CollapseDotSlash(pwd, "");
    assert pwd + "/" + "" == pwd + "/";
    StripTrailingSlash(pwd);
  }

  lemma SearchDotName(pwd: string, f: string)
    requires PlainDir(pwd) && PlainName(f)
    ensures RemoteSearchPath(pwd, "./" + f) == pwd
  {
    NotAbsolute("./" + f);
    assert pwd + "/" + ("./" + f) == pwd + "/./" + f;
    CollapseDotSlash(pwd, f);
    if f != [] {
      StripChild(pwd, f);
    } else {
      assert pwd + "/./" + f == pwd + "/./" + "";
      assert pwd + "/" + "" == pwd + "/";
      StripTrailingSlash(pwd);
    }
  }

  /** Under a one-segment working directory, `../` and a name after it are
      completed in the parent, the root. */
  lemma {:induction false} SearchParent(n: string, f: string)
    requires n != [] && PlainName(n) && PlainName(f)
    ensures RemoteSearchPath("/" + n, "../") == Dirname("/" + n)
    ensures RemoteSearchPath("/" + n, "../" + f) == Dirname("/" + n)
  {
    DirnameTop(n);
    NotAbsolute("../");
    assert "/" + n + "/" + "../" == "/" + n + "/../" + "";
    CollapseParent(n, "");
    StripDoubleSlash("");
    assert "//" + "" == "//";
    NotAbsolute("../" + f);
    assert "/" + n + "/" + ("../" + f) == "/" + n + "/../" + f;
    CollapseParent(n, f);
    StripDoubleSlash(f);
  }

  // ---------------------------------------------------------------------
  // remote and remote_dir (spec/complete_spec.rb:156-162)
  // ---------------------------------------------------------------------

  /** The typed basename is the end of what was typed. */
  lemma TypedNameSuffix(s: string)
    ensures EndsWith(s, TypedName(s))
  {
    if !EndsWith(s, "/") && s != [] {
      assert s[|s| - 1..] == [s[|s| - 1]];
      assert StripSlashes(s) == s;
      match LastIndex(s, '/')
      case None =>
      case Some(i) =>
        assert s[|s| - |s[i + 1..]|..] == s[i + 1..];
    }
  }

  /** What was typed before the basename being completed. */
  function Stem(s: string): (r: string)
    ensures r + TypedName(s) == s
  {
    TypedNameSuffix(s);
    assert s == s[..|s| - |TypedName(s)|] + TypedName(s);
    s[..|s| - |TypedName(s)|]
  }

  /** The candidate of an entry that extends the typed basename is the typed
      string with that basename replaced by the whole entry and its mark. */
  lemma CandidateShape(s: string, name: string, dir: string, e: string, isDir: string -> bool)
    requires EndsWith(s, name) && StartsWith(e, name)
    ensures var c := Candidate(s, name, dir, e, isDir);
            StartsWith(c, s) && c == s[..|s| - |name|] + e + Mark(isDir(dir + "/" + e))
  {
    var m := Mark(isDir(dir + "/" + e));
    var c := Candidate(s, name, dir, e, isDir);
    assert s == s[..|s| - |name|] + name;
    assert e == name + e[|name|..];
    assert (e + m)[|name|..] == e[|name|..] + m;
    assert c[..|s|] == s;
  }

  /** Every candidate extends what was typed: the typed basename is replaced
      by a whole entry name of the search directory (never `.` or `..`),
      followed by `/` for a directory and a space otherwise. */
  lemma RemoteCandidate(s: string, pwd: string, contents: string -> seq<string>, isDir: string -> bool, x: string)
    requires x in Remote(s, pwd, contents, isDir)
    ensures StartsWith(x, s)
    ensures var dir := RemoteSearchPath(pwd, s);
            exists e :: e in BaseNames(contents(dir)) && StartsWith(e, TypedName(s)) && e != "." && e != ".." &&
                        x == Stem(s) + e + Mark(isDir(dir + "/" + e))
  {
    var dir := RemoteSearchPath(pwd, s);
    var name := TypedName(s);
    var e :| e in BaseNames(contents(dir)) && Offered(name, e) && x == Candidate(s, name, dir, e, isDir);
    TypedNameSuffix(s);
    CandidateShape(s, name, dir, e, isDir);
  }

  /** Every entry of the search directory that extends the typed basename,
      other than `.` and `..`, is offered. */
  lemma RemoteComplete(s: string, pwd: string, contents: string -> seq<string>, isDir: string -> bool, e: string)
    requires e in BaseNames(contents(RemoteSearchPath(pwd, s)))
    requires StartsWith(e, TypedName(s)) && e != "." && e != ".."
    ensures Candidate(s, TypedName(s), RemoteSearchPath(pwd, s), e, isDir) in Remote(s, pwd, contents, isDir)
  {
  }

  /** `remote_dir` offers exactly the candidates of directories. */
  lemma RemoteDirIsDirectories(s: string, pwd: string, contents: string -> seq<string>, isDir: string -> bool, x: string)
    ensures var dir := RemoteSearchPath(pwd, s);
            var name := TypedName(s);
            x in RemoteDir(s, pwd, contents, isDir) <==>
              exists e :: e in BaseNames(contents(dir)) && Offered(name, e) && isDir(dir + "/" + e) &&
                          x == Candidate(s, name, dir, e, isDir)
  {
    var dir := RemoteSearchPath(pwd, s);
    var name := TypedName(s);
    forall e | e in BaseNames(contents(dir)) && Offered(name, e)
      ensures EndsWith(Candidate(s, name, dir, e, isDir), "/") <==> isDir(dir + "/" + e)
    {
      CandidateMark(s, name, dir, e, isDir);
    }
  }

  /** A candidate ends in `/` exactly when its entry is a directory. */
  lemma CandidateMark(s: string, name: string, dir: string, e: string, isDir: string -> bool)
    requires |name| <= |e|
    ensures EndsWith(Candidate(s, name, dir, e, isDir), "/") <==> isDir(dir + "/" + e)
  {
    var m := Mark(isDir(dir + "/" + e));
    var tail := (e + m)[|name|..];
    assert tail[|tail| - 1] == m[0];
    var c := s + tail;
    assert c == Candidate(s, name, dir, e, isDir);
    assert c[|c| - 1] == tail[|tail| - 1];
    assert c[|c| - 1..] == [m[0]];
  }
}
