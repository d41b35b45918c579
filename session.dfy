/**
 * The session state of lib/droxi/state.rb: the remote working directory and
 * its predecessor, path resolution, the lazy root-to-leaf metadata walk that
 * fills the cache, directory listings taken from the cache, glob expansion
 * and `forget_contents`.
 *
 * The Dropbox client is a value of function fields: each call's answer is
 * determined by its arguments. `File.fnmatch` is a parameter of the members
 * that use it.
 */
module Session {
  import opened Wrappers
  import opened Strings
  import opened Hashes
  import opened Caches
  import opened Rewrite
  import CacheProperties
  import Config

  // ---------------------------------------------------------------------
  // The client
  // ---------------------------------------------------------------------

  /** What `client.metadata(path)` does: returns a record, returns a record
      marked 'is_deleted', or raises DropboxError. */
  datatype Fetch = Found(m: Metadata) | Gone | Failure

  /** A client call that returns a value or raises DropboxError with a message. */
  datatype Reply<T> = Done(value: T) | Failed(error: string)

  datatype Client = Client(
    metadata: string -> Fetch,
    createFolder: string -> Reply<Info>,
    fileDelete: string -> Reply<Info>,
    fileCopy: (string, string) -> Reply<Metadata>,
    fileMove: (string, string) -> Reply<Metadata>)

  /** What the backend guarantees of the records it returns. */
  ghost predicate ClientOk(c: Client) {
    && (forall p :: c.metadata(p).Found? ==> WellFormed(c.metadata(p).m))
    && (forall a, b :: c.fileCopy(a, b).Done? ==> WellFormed(c.fileCopy(a, b).value))
    && (forall a, b :: c.fileMove(a, b).Done? ==> WellFormed(c.fileMove(a, b).value))
  }

  /** An item of `expand_patterns`: a path, or the `GlobError` of a pattern
      that matched nothing (state.rb:5). */
  datatype Expansion = Path(path: string) | GlobError(pattern: string)

  // ---------------------------------------------------------------------
  // resolve_path (lib/droxi/state.rb:81-91)
  // ---------------------------------------------------------------------

  /** `resolve_path(arg)` with working directory `pwd`. */
  function Resolve(pwd: string, arg: string): (r: string)
    ensures r != []
  {
    var p0 := if StartsWith(arg, "/") then arg else pwd + "/" + arg;
    var p1 := GsubDoubleSlash(p0);
    var p2 := RemoveDotDots(p1);
    var p3 := RemoveDotSlashes(p2);
    var p4 := SubTrailingDot(p3);
    var p5 := Chomp(p4, "/");
    var p6 := GsubDoubleSlash(p5);
    if p6 == [] then "/" else p6
  }

  // ---------------------------------------------------------------------
  // metadata and fetch_metadata (lib/droxi/state.rb:41-52, 122-129)
  // ---------------------------------------------------------------------

  /** `path.split('/').drop(1)`. */
  function Tokens(path: string): seq<string> {
    var parts := Split(path, '/');
    if parts == [] then [] else parts[1..]
  }

  /** The paths `'/' + tokens.take(i).join('/')` for `i` in `0..tokens.size`. */
  function Prefixes(path: string): (r: seq<string>)
    ensures |r| == |Tokens(path)| + 1 && r[0] == "/"
    ensures forall i :: 0 <= i < |r| ==> r[i] == "/" + Join(Tokens(path)[..i], "/")
  {
    var tokens := Tokens(path);
    seq(|tokens| + 1, i requires 0 <= i <= |tokens| => "/" + Join(tokens[..i], "/"))
  }

  /** `fetch_metadata(path)`: the cache afterwards and whether it succeeded.
      A deleted record is not cached, but counts as success. */
  function FetchStep(t: Table, c: Client, path: string): (r: (Table, bool))
    ensures ValidTable(t) && ClientOk(c) ==> ValidTable(r.0)
    ensures r.1 <==> !c.metadata(Lower(path)).Failure?
    ensures !c.metadata(Lower(path)).Found? ==> r.0 == t
  {
    match c.metadata(Lower(path))
    case Found(m) => (AddSpec(t, m), true)
    case Gone => (t, true)
    case Failure => (t, false)
  }

  /** The outcome of walking some prefixes: the cache, whether no fetch
      failed, and the prefixes the client was asked about, in order. */
  datatype Walked = Walked(table: Table, ok: bool, queried: seq<string>)

  /** The loop of `metadata`: skip a prefix with full info, fetch any other,
      and stop at the first failed fetch. */
  function Walk(t: Table, c: Client, prefixes: seq<string>, rc: bool): (r: Walked)
    decreases prefixes
    ensures ValidTable(t) && ClientOk(c) ==> ValidTable(r.table)
    ensures forall q :: q in r.queried ==> q in prefixes
    ensures r.ok <==> forall q :: q in r.queried ==> !c.metadata(Lower(q)).Failure?
  {
    if prefixes == [] then Walked(t, true, [])
    else if FullInfoIn(t, prefixes[0], rc) then Walk(t, c, prefixes[1..], rc)
    else
      var f := FetchStep(t, c, prefixes[0]);
      if !f.1 then Walked(f.0, false, [prefixes[0]])
      else
        var w := Walk(f.0, c, prefixes[1..], rc);
        Walked(w.table, w.ok, [prefixes[0]] + w.queried)
  }

  /** One round of the walk, as the loop of `metadata` takes it. */
  lemma WalkStep(t: Table, c: Client, prefixes: seq<string>, rc: bool)
    requires prefixes != []
    ensures FullInfoIn(t, prefixes[0], rc) ==> Walk(t, c, prefixes, rc) == Walk(t, c, prefixes[1..], rc)
    ensures !FullInfoIn(t, prefixes[0], rc) && !FetchStep(t, c, prefixes[0]).1 ==>
              Walk(t, c, prefixes, rc).table == FetchStep(t, c, prefixes[0]).0 && !Walk(t, c, prefixes, rc).ok
    ensures !FullInfoIn(t, prefixes[0], rc) && FetchStep(t, c, prefixes[0]).1 ==>
              var w := Walk(FetchStep(t, c, prefixes[0]).0, c, prefixes[1..], rc);
              Walk(t, c, prefixes, rc).table == w.table && Walk(t, c, prefixes, rc).ok == w.ok
  {
  }

  /** One step of the walk, from what `Visit` did at prefix `i`. */
  lemma VisitStep(t: Table, t1: Table, c: Client, prefixes: seq<string>, i: nat, rc: bool, ok: bool)
    requires i < |prefixes|
    requires FullInfoIn(t, prefixes[i], rc) ==> ok && t1 == t
    requires !FullInfoIn(t, prefixes[i], rc) ==> (t1, ok) == FetchStep(t, c, prefixes[i])
    ensures ok ==> Walk(t1, c, prefixes[i + 1..], rc).table == Walk(t, c, prefixes[i..], rc).table
    ensures ok ==> Walk(t1, c, prefixes[i + 1..], rc).ok == Walk(t, c, prefixes[i..], rc).ok
    ensures !ok ==> Walk(t, c, prefixes[i..], rc).table == t1 && !Walk(t, c, prefixes[i..], rc).ok
  {
    DropOne(prefixes, i);
    WalkStep(t, c, prefixes[i..], rc);
  }

  /** `metadata(path, rc)`: the cache afterwards and the entry of the
      lower-cased path, or `None` when a fetch failed or it is not cached. */
  function MetadataSpec(t: Table, c: Client, path: string, rc: bool): (r: (Table, Option<Entry>))
    ensures ValidTable(t) && ClientOk(c) ==> ValidTable(r.0)
    ensures r.1.Some? ==> Lower(path) in r.0.values && r.1.value == r.0.values[Lower(path)]
    ensures r.1.None? ==> !Walk(t, c, Prefixes(Lower(path)), rc).ok || Lower(path) !in r.0.values
  {
    var w := Walk(t, c, Prefixes(Lower(path)), rc);
    (w.table, if w.ok then Get(w.table, Lower(path)) else None)
  }

  // ---------------------------------------------------------------------
  // contents, directory? and get_matches (lib/droxi/state.rb:55-71, 133-143)
  // ---------------------------------------------------------------------

  /** A cache key one level below the directory prefix `d` (which ends in `/`). */
  predicate ChildKey(d: string, k: string) {
    StartsWith(k, d) && k != d && !Contains(k[|d|..], '/')
  }

  /** `keys.select { ... }.map { |key| cache[key]['path'] }`. */
  function ChildPaths(keys: seq<string>, values: map<string, Entry>, d: string): (r: seq<string>)
    ensures |r| <= |keys|
    ensures forall x :: x in r <==>
      exists k :: k in keys && k in values && ChildKey(d, k) && values[k].info.path == x
  {
    if keys == [] then []
    else
      var rest := ChildPaths(keys[1..], values, d);
      if keys[0] in values && ChildKey(d, keys[0]) then [values[keys[0]].info.path] + rest else rest
  }

  /** `contents(path)`: the cache after fetching the resolved path, and the
      'path' fields of the cached entries one level below it. */
  function ContentsSpec(t: Table, c: Client, pwd: string, path: string): (r: (Table, seq<string>))
    ensures forall x :: x in r.1 <==>
              exists k :: k in r.0.keys && k in r.0.values &&
                ChildKey(SubDoubleSlash(Resolve(pwd, Lower(path)) + "/"), k) && r.0.values[k].info.path == x
    ensures ValidTable(t) && ClientOk(c) ==> ValidTable(r.0)
  {
    var p := Resolve(pwd, Lower(path));
    var t1 := MetadataSpec(t, c, p, true).0;
    var d := SubDoubleSlash(p + "/");
    (t1, ChildPaths(t1.keys, t1.values, d))
  }

  /** `directory?(path)`: the resolved path is cached as a directory once its
      parent's listing has been fetched. */
  function DirectorySpec(t: Table, c: Client, pwd: string, path: string): (r: (Table, bool))
    ensures r.1 <==> var p := Resolve(pwd, Lower(path)); p in r.0.values && r.0.values[p].info.isDir
    ensures ValidTable(t) && ClientOk(c) ==> ValidTable(r.0)
  {
    var p := Resolve(pwd, Lower(path));
    var t1 := MetadataSpec(t, c, Dirname(p), true).0;
    (t1, p in t1.values && t1.values[p].info.isDir)
  }

  /** The entries that `File.fnmatch(path, entry.downcase)` accepts, in order. */
  function Matching(entries: seq<string>, path: string, fnmatch: (string, string) -> bool): (r: seq<string>)
    ensures |r| <= |entries|
    ensures forall x :: x in r <==> x in entries && fnmatch(path, Lower(x))
  {
    if entries == [] then []
    else
      var rest := Matching(entries[1..], path, fnmatch);
      if fnmatch(path, Lower(entries[0])) then [entries[0]] + rest else rest
  }

  /** `matches.map { |match| prefix + match.rpartition('/')[2] }`. */
  function Reprefix(prefix: string, matches: seq<string>): (r: seq<string>)
    ensures |r| == |matches|
    ensures forall i :: 0 <= i < |r| ==> r[i] == prefix + RPartition(matches[i], '/').1
  {
    seq(|matches|, i requires 0 <= i < |matches| => prefix + RPartition(matches[i], '/').1)
  }

  function Paths(ps: seq<string>): (r: seq<Expansion>)
    ensures |r| == |ps|
    ensures forall i :: 0 <= i < |r| ==> r[i] == Path(ps[i])
    ensures forall i :: 0 <= i < |r| ==> r[i].Path?
  {
    seq(|ps|, i requires 0 <= i < |ps| => Path(ps[i]))
  }

  /** `get_matches(pattern, path, preserve_root)`. */
  function GetMatchesSpec(t: Table, c: Client, pwd: string, fnmatch: (string, string) -> bool,
                          pattern: string, path: string, preserve: bool): (r: (Table, seq<Expansion>))
    ensures r.1 != []
    ensures r.1 == [GlobError(pattern)] || forall i :: 0 <= i < |r.1| ==> r.1[i].Path?
    ensures ValidTable(t) && ClientOk(c) ==> ValidTable(r.0)
  {
    var p := Lower(path);
    var listed := ContentsSpec(t, c, pwd, Dirname(p));
    var matches := Matching(listed.1, p, fnmatch);
    var found := if matches == [] then [GlobError(pattern)]
                 else if !preserve then Paths(matches)
                 else Paths(Reprefix(PrefixThroughSlash(pattern), matches));
    (listed.0, found)
  }

  /** One pattern of `expand_patterns`. */
  function ExpandOne(t: Table, c: Client, pwd: string, fnmatch: (string, string) -> bool,
                     pattern: string, preserve: bool): (r: (Table, seq<Expansion>))
    ensures r.1 != []
    ensures ValidTable(t) && ClientOk(c) ==> ValidTable(r.0)
  {
    var p := Resolve(pwd, pattern);
    var d := DirectorySpec(t, c, pwd, p);
    if d.1 then (d.0, [Path(if preserve then pattern else p)])
    else GetMatchesSpec(d.0, c, pwd, fnmatch, pattern, p, preserve)
  }

  /** `expand_patterns(patterns, preserve_root)`: pattern by pattern, in order. */
  /** `flat_map` of a block that also updates the cache. */
  function ExpandWith(t: Table, patterns: seq<string>, step: (Table, string) -> (Table, seq<Expansion>))
    : (r: (Table, seq<Expansion>))
    decreases patterns
    ensures patterns == [] ==> r == (t, [])
    ensures patterns != [] ==> var first := step(t, patterns[0]).1;
              |first| <= |r.1| && r.1[..|first|] == first
  {
    if patterns == [] then (t, [])
    else
      var one := step(t, patterns[0]);
      var more := ExpandWith(one.0, patterns[1..], step);
      (more.0, one.1 + more.1)
  }

  /** The block of `expand_patterns`. */
  function Expander(c: Client, pwd: string, fnmatch: (string, string) -> bool, preserve: bool)
    : (Table, string) -> (Table, seq<Expansion>)
  {
    (t: Table, pattern: string) => ExpandOne(t, c, pwd, fnmatch, pattern, preserve)
  }

  /** `expand_patterns(patterns, preserve_root)`: pattern by pattern, in order. */
  function ExpandSpec(t: Table, c: Client, pwd: string, fnmatch: (string, string) -> bool,
                      patterns: seq<string>, preserve: bool): (r: (Table, seq<Expansion>))
    ensures ValidTable(t) && ClientOk(c) ==> ValidTable(r.0)
  {
    ExpandKeepsValid(t, c, pwd, fnmatch, patterns, preserve);
    ExpandWith(t, patterns, Expander(c, pwd, fnmatch, preserve))
  }

  lemma {:induction false} ExpandKeepsValid(t: Table, c: Client, pwd: string, fnmatch: (string, string) -> bool,
                                            patterns: seq<string>, preserve: bool)
    ensures ValidTable(t) && ClientOk(c) ==> ValidTable(ExpandWith(t, patterns, Expander(c, pwd, fnmatch, preserve)).0)
    decreases patterns
  {
    if patterns != [] && ValidTable(t) && ClientOk(c) {
      var step := Expander(c, pwd, fnmatch, preserve);
      var one := step(t, patterns[0]);
      assert one == ExpandOne(t, c, pwd, fnmatch, patterns[0], preserve);
      ExpandKeepsValid(one.0, c, pwd, fnmatch, patterns[1..], preserve);
    }
  }

  /** What the loop of `expand_patterns` keeps: the results so far followed by
      the expansion of the remaining patterns are the whole expansion. */
  ghost predicate ExpandedSoFar(t: Table, rest: seq<string>, step: (Table, string) -> (Table, seq<Expansion>),
                                done: seq<Expansion>, e: (Table, seq<Expansion>))
  {
    var x := ExpandWith(t, rest, step);
    x.0 == e.0 && done + x.1 == e.1
  }

  lemma ExpandStart(t: Table, patterns: seq<string>, step: (Table, string) -> (Table, seq<Expansion>))
    ensures ExpandedSoFar(t, patterns, step, [], ExpandWith(t, patterns, step))
  {
    assert [] + ExpandWith(t, patterns, step).1 == ExpandWith(t, patterns, step).1;
  }

  lemma ExpandDone(t: Table, step: (Table, string) -> (Table, seq<Expansion>),
                   done: seq<Expansion>, e: (Table, seq<Expansion>))
    requires ExpandedSoFar(t, [], step, done, e)
    ensures (t, done) == e
  {
    assert done + [] == done;
  }

  lemma ExpandStep(t: Table, rest: seq<string>, step: (Table, string) -> (Table, seq<Expansion>),
                   done: seq<Expansion>, e: (Table, seq<Expansion>), t1: Table, xs: seq<Expansion>)
    requires ExpandedSoFar(t, rest, step, done, e) && rest != []
    requires (t1, xs) == step(t, rest[0])
    ensures ExpandedSoFar(t1, rest[1..], step, done + xs, e)
  {
    var x := ExpandWith(t1, rest[1..], step);
    assert done + xs + x.1 == done + (xs + x.1);
  }

  // ---------------------------------------------------------------------
  // forget_contents (lib/droxi/state.rb:108-116)
  // ---------------------------------------------------------------------

  /** `remove` of each listed path in turn. */
  function RemoveEach(t: Table, links: seq<Info>): (r: Table)
    requires ValidTable(t)
    decreases links
    ensures ValidTable(r)
    ensures r.values.Keys <= t.values.Keys
    ensures forall l :: l in links ==> InfoKey(l) !in r.values
  {
    if links == [] then t
    else
      var t1 := RemoveSpec(t, links[0].path);
      CacheProperties.RemoveKeepsShorter(t, links[0].path, "");
      var r := RemoveEach(t1, links[1..]);
      assert InfoKey(links[0]) !in r.values;
      assert forall l :: l in links ==> l == links[0] || l in links[1..];
      r
  }

  lemma RemoveEachStep(t: Table, links: seq<Info>)
    requires ValidTable(t) && links != []
    ensures RemoveEach(t, links) == RemoveEach(RemoveSpec(t, links[0].path), links[1..])
  {
  }

  /** Removing links longer than `k` keeps `k` with its fields. */
  lemma {:induction false} RemoveEachKeeps(t: Table, links: seq<Info>, k: string)
    requires ValidTable(t) && k in t.values
    requires forall l :: l in links ==> |InfoKey(l)| > |k|
    ensures k in RemoveEach(t, links).values
    ensures RemoveEach(t, links).values[k].info == t.values[k].info
    decreases links
  {
    if links != [] {
      assert links[0] in links;
      CacheProperties.RemoveKeepsShorter(t, links[0].path, k);
      RemoveEachKeeps(RemoveSpec(t, links[0].path), links[1..], k);
    }
  }

  /** `forget_contents(partial)`: the cache afterwards and the lines yielded. */
  function ForgetSpec(t: Table, pwd: string, partial: string): (r: (Table, seq<string>))
    requires ValidTable(t)
    ensures ValidTable(r.0)
    ensures var k := Lower(Resolve(pwd, partial));
      if k in t.values && t.values[k].contents.Some? then
        && r.1 == []
        && k in r.0.values && r.0.values[k] == Entry(t.values[k].info, None)
        && (forall l :: l in t.values[k].contents.value ==> InfoKey(l) !in r.0.values)
        && r.0.values.Keys <= t.values.Keys
      else
        r == (t, ["forget: " + partial + ": nothing to forget"])
  {
    var k := Lower(Resolve(pwd, partial));
    if k in t.values && t.values[k].contents.Some? then
      var links := t.values[k].contents.value;
      var t1 := RemoveEach(t, links);
      RemoveEachKeeps(t, links, k);
      (Store(t1, k, Entry(t1.values[k].info, None)), [])
    else (t, ["forget: " + partial + ": nothing to forget"])
  }

  // ---------------------------------------------------------------------
  // The State object
  // ---------------------------------------------------------------------

  class State {
    const cache: Cache
    const settings: Config.Settings
    const client: Client
    var pwd: string
    var oldpwd: string
    var localOldpwd: string
    var exitRequested: bool
    var debugEnabled: bool

    ghost predicate Valid()
      reads this, cache, settings
    {
      cache.Valid() && settings.Valid() && ClientOk(client)
    }

    /** `State.new(client)`: the root, an empty cache and the saved `oldpwd`;
        `localPwd` stands for `Dir.pwd`. */
    constructor (client: Client, settings: Config.Settings, localPwd: string)
      requires settings.Valid() && ClientOk(client)
      ensures Valid() && fresh(cache)
      ensures this.client == client && this.settings == settings
      ensures cache.table.keys == [] && cache.table.values == map[]
      ensures pwd == "/" && oldpwd == settings.Get("oldpwd").GetOr("/")
      ensures localOldpwd == localPwd && !exitRequested && !debugEnabled
    {
      cache := new Cache();
      this.client := client;
      this.settings := settings;
      exitRequested := false;
      debugEnabled := false;
      pwd := "/";
      oldpwd := settings.Get("oldpwd").GetOr("/");
      localOldpwd := localPwd;
    }

    /** `pwd = value`: the old working directory becomes `oldpwd` and is saved. */
    method SetPwd(value: string)
      requires Valid()
      modifies this, settings
      ensures Valid()
      ensures pwd == value && oldpwd == old(pwd)
      ensures settings.store.values == old(settings.store.values)["oldpwd" := old(pwd)]
      ensures old(settings.Get("oldpwd")) != Some(old(pwd)) ==>
                settings.store == Store(old(settings.store), "oldpwd", old(pwd)) && settings.dirty
      ensures old(settings.Get("oldpwd")) == Some(old(pwd)) ==>
                settings.store == old(settings.store) && settings.dirty == old(settings.dirty)
      ensures localOldpwd == old(localOldpwd) && exitRequested == old(exitRequested)
      ensures debugEnabled == old(debugEnabled)
    {
      oldpwd, pwd := pwd, value;
      settings.Set("oldpwd", oldpwd);
    }

    method ResolvePath(arg: string) returns (r: string)
      ensures r == Resolve(pwd, arg)
    {
      var path := if StartsWith(arg, "/") then arg else pwd + "/" + arg;
      path := GsubDoubleSlash(path);
      path := RepeatSubDotDot(path);
      path := RepeatSubDotSlash(path);
      path := SubTrailingDot(path);
      path := Chomp(path, "/");
      path := GsubDoubleSlash(path);
      r := if path == [] then "/" else path;
    }

    method FetchMetadata(path: string) returns (ok: bool)
      requires Valid()
      modifies cache
      ensures Valid()
      ensures (cache.table, ok) == FetchStep(old(cache.table), client, path)
    {
      match client.metadata(Lower(path))
      case Found(m) =>
        cache.Add(m);
        ok := true;
      case Gone =>
        ok := true;
      case Failure =>
        ok := false;
    }

    /** One prefix of the loop of `metadata`: fetch it unless its full info
        is cached. */
    method Visit(partial: string, requireContents: bool) returns (ok: bool)
      requires Valid()
      modifies cache
      ensures Valid()
      ensures FullInfoIn(old(cache.table), partial, requireContents) ==> ok && cache.table == old(cache.table)
      ensures !FullInfoIn(old(cache.table), partial, requireContents) ==>
                (cache.table, ok) == FetchStep(old(cache.table), client, partial)
    {
      ok := true;
      if !cache.FullInfo(partial, requireContents) {
        ok := FetchMetadata(partial);
      }
    }

    method Metadata(path: string, requireContents: bool) returns (r: Option<Entry>)
      requires Valid()
      modifies cache
      ensures Valid()
      ensures (cache.table, r) == MetadataSpec(old(cache.table), client, path, requireContents)
    {
      var p := Lower(path);
      var tokens := Tokens(p);
      ghost var prefixes := Prefixes(p);
      ghost var w := Walk(cache.table, client, prefixes, requireContents);
      var i: nat := 0;
      while i <= |tokens|
        invariant 0 <= i <= |tokens| + 1
        invariant Valid()
        invariant Walk(cache.table, client, prefixes[i..], requireContents).table == w.table
        invariant Walk(cache.table, client, prefixes[i..], requireContents).ok == w.ok
      {
        var partial := "/" + Join(tokens[..i], "/");
        assert partial == prefixes[i];
        ghost var before := cache.table;
        var ok := Visit(partial, requireContents);
        VisitStep(before, cache.table, client, prefixes, i, requireContents, ok);
        if !ok {
          return None;
        }
        i := i + 1;
      }
      r := cache.Lookup(p);
    }

    method Contents(path: string) returns (r: seq<string>)
      requires Valid()
      modifies cache
      ensures Valid()
      ensures (cache.table, r) == ContentsSpec(old(cache.table), client, pwd, path)
    {
      var p := ResolvePath(Lower(path));
      var e := Metadata(p, true);
      var d := SubDoubleSlash(p + "/");
      r := ChildPaths(cache.table.keys, cache.table.values, d);
    }

    method IsDirectory(path: string) returns (r: bool)
      requires Valid()
      modifies cache
      ensures Valid()
      ensures (cache.table, r) == DirectorySpec(old(cache.table), client, pwd, path)
    {
      var p := ResolvePath(Lower(path));
      var e := Metadata(Dirname(p), true);
      r := p in cache.table.values && cache.table.values[p].info.isDir;
    }

    method GetMatches(pattern: string, path: string, preserve: bool, fnmatch: (string, string) -> bool)
      returns (r: seq<Expansion>)
      requires Valid()
      modifies cache
      ensures Valid()
      ensures (cache.table, r) == GetMatchesSpec(old(cache.table), client, pwd, fnmatch, pattern, path, preserve)
    {
      var p := Lower(path);
      var entries := Contents(Dirname(p));
      var matches := Matching(entries, p, fnmatch);
      if matches == [] {
        r := [GlobError(pattern)];
      } else if !preserve {
        r := Paths(matches);
      } else {
        r := Paths(Reprefix(PrefixThroughSlash(pattern), matches));
      }
    }

    /** The block of `expand_patterns` for one pattern. */
    method ExpandPattern(pattern: string, preserve: bool, fnmatch: (string, string) -> bool)
      returns (xs: seq<Expansion>)
      requires Valid()
      modifies cache
      ensures Valid()
      ensures (cache.table, xs) == ExpandOne(old(cache.table), client, pwd, fnmatch, pattern, preserve)
      ensures (cache.table, xs) == Expander(client, pwd, fnmatch, preserve)(old(cache.table), pattern)
    {
      var path := ResolvePath(pattern);
      var isDir := IsDirectory(path);
      if isDir {
        xs := [Path(if preserve then pattern else path)];
      } else {
        xs := GetMatches(pattern, path, preserve, fnmatch);
      }
    }

    method ExpandPatterns(patterns: seq<string>, preserve: bool, fnmatch: (string, string) -> bool)
      returns (r: seq<Expansion>)
      requires Valid()
      modifies cache
      ensures Valid()
      ensures (cache.table, r) == ExpandSpec(old(cache.table), client, pwd, fnmatch, patterns, preserve)
    {
      ghost var step := Expander(client, pwd, fnmatch, preserve);
      ghost var e := ExpandWith(cache.table, patterns, step);
      r := [];
      var i := 0;
      assert patterns[i..] == patterns;
      ExpandStart(cache.table, patterns, step);
      while i < |patterns|
        invariant 0 <= i <= |patterns|
        invariant Valid()
        invariant ExpandedSoFar(cache.table, patterns[i..], step, r, e)
      {
        DropOne(patterns, i);
        ghost var t := cache.table;
        var xs := ExpandPattern(patterns[i], preserve, fnmatch);
        ExpandStep(t, patterns[i..], step, r, e, cache.table, xs);
        r := r + xs;
        i := i + 1;
      }
      assert patterns[i..] == [];
      ExpandDone(cache.table, step, r, e);
    }

    /** `contents.each { |path| cache.remove(path) }` of `forget_contents`. */
    method RemoveLinks(links: seq<Info>)
      requires Valid()
      modifies cache
      ensures Valid()
      ensures cache.table == RemoveEach(old(cache.table), links)
    {
      ghost var target := RemoveEach(cache.table, links);
      var i := 0;
      while i < |links|
        invariant 0 <= i <= |links|
        invariant Valid()
        invariant RemoveEach(cache.table, links[i..]) == target
      {
        DropOne(links, i);
        RemoveEachStep(cache.table, links[i..]);
        cache.Remove(links[i].path);
        i := i + 1;
      }
      assert links[i..] == [];
    }

    method ForgetContents(partial: string) returns (lines: seq<string>)
      requires Valid()
      modifies cache
      ensures Valid()
      ensures (cache.table, lines) == ForgetSpec(old(cache.table), pwd, partial)
    {
      var r := ResolvePath(partial);
      var k := Lower(r);
      var e := cache.Lookup(k);
      if e.Some? && e.value.contents.Some? {
        var links := e.value.contents.value;
        RemoveEachKeeps(cache.table, links, k);
        RemoveLinks(links);
        cache.Put(k, Entry(cache.table.values[k].info, None));
        lines := [];
      } else {
        lines := ["forget: " + partial + ": nothing to forget"];
      }
    }
  }
}
