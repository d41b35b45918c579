/**
 * The effects of `rm`, `mkdir` and `cp`/`mv` (lib/droxi/commands.rb:266-331
 * and 453-480): what they output, and what they leave in the cache.
 *
 * The client is a fixed oracle, so what these commands output does not
 * depend on the cache: it is given here by functions of the client alone,
 * and the commands are proved to output exactly that.
 *
 * `rm` and `mv` drop the affected path with the plain `Hash#delete`, under
 * the path as resolved, which keeps its letter case, while every cache key
 * is lower-cased, and without touching the parent's 'contents'. The lemmas
 * here show what that leaves behind, and that the `Cache#remove` update the
 * rest of the model uses (`RmOne`, `CopyMoveSpec`) leaves nothing behind.
 */
module CommandEffects {
  import opened Wrappers
  import opened Strings
  import opened Hashes
  import opened Caches
  import opened CacheProperties
  import opened Session
  import opened Commands

  // ---------------------------------------------------------------------
  // rm
  // ---------------------------------------------------------------------

  /** As written: after a successful `rm /Foo`, the entry cached as `/foo` is still there. */
  lemma RmAsWrittenKeepsEntry(t: Table, c: Client, p: string)
    requires ValidTable(t) && c.fileDelete(p).Done?
    requires Lower(p) in t.values && Lower(p) != p
    ensures Lower(p) in RmOneAsWritten(t, c, Path(p)).0.values
  {
    assert RmOneAsWritten(t, c, Path(p)).0 == Hashes.Remove(t, p);
  }

  /** As written: after a successful `rm` of a path already in lower case,
      the parent's 'contents' still lists the deleted record. */
  lemma RmAsWrittenKeepsLink(t: Table, c: Client, p: string, l: Info)
    requires ValidTable(t) && c.fileDelete(p).Done?
    requires Dirname(p) != p && Dirname(p) in t.values
    requires t.values[Dirname(p)].contents.Some? && l in t.values[Dirname(p)].contents.value
    requires InfoKey(l) == p
    ensures var r := RmOneAsWritten(t, c, Path(p)).0;
      Dirname(p) in r.values && r.values[Dirname(p)].contents.Some? &&
      l in r.values[Dirname(p)].contents.value
  {
    assert RmOneAsWritten(t, c, Path(p)).0 == Hashes.Remove(t, p);
  }

  /** As written, for a directory operand: `Hash#delete` drops only the key
      it is given, so every cached entry below the deleted directory stays. */
  lemma RmAsWrittenKeepsDescendants(t: Table, c: Client, p: string, q: string)
    requires ValidTable(t) && c.fileDelete(p).Done?
    requires q in t.values && q != p
    ensures q in RmOneAsWritten(t, c, Path(p)).0.values
    ensures RmOneAsWritten(t, c, Path(p)).0.values[q] == t.values[q]
  {
    assert RmOneAsWritten(t, c, Path(p)).0 == Hashes.Remove(t, p);
  }

  /** With `Cache#remove`: after a successful `rm`, the path has no entry in
      any letter case and its parent no longer lists it. */
  lemma RmForgetsPath(t: Table, c: Client, p: string)
    requires ValidTable(t) && c.fileDelete(p).Done?
    ensures var r := RmOne(t, c, Path(p)).0; var k := Lower(p); var d := Dirname(k);
      && k !in r.values
      && (d in r.values && r.values[d].contents.Some? ==>
            forall l :: l in r.values[d].contents.value ==> InfoKey(l) != k)
  {
    var k := Lower(p);
    var d := Dirname(k);
    assert RmOne(t, c, Path(p)).0 == RemoveSpec(t, p);
    RemoveEffect(t, p);
    var r := RemoveSpec(t, p);
    if d in r.values && r.values[d].contents.Some? {
      assert t.values[d].contents.Some?;
      assert r.values[d].contents == Some(DropKey(t.values[d].contents.value, k));
    }
  }

  // ---------------------------------------------------------------------
  // mv
  // ---------------------------------------------------------------------

  /** As written: after a successful `mv /Foo dest`, the entry cached as
      `/foo` is still there, unless the moved record itself stores it. */
  lemma MvAsWrittenKeepsEntry(t: Table, c: Client, pwd: string, source: string, dest: string)
    requires ValidTable(t) && ClientOk(c)
    requires var from := Resolve(pwd, source); var to := Resolve(pwd, dest);
      && c.fileMove(from, to).Done?
      && Lower(from) != from && Lower(from) in t.values
      && Lower(from) !in KeySet(c.fileMove(from, to).value)
      && Dirname(Key(c.fileMove(from, to).value)) != Lower(from)
    ensures Lower(Resolve(pwd, source)) in CopyMoveAsWritten(t, c, pwd, Move, source, dest).0.values
  {
    var from := Resolve(pwd, source);
    var m := c.fileMove(from, Resolve(pwd, dest)).value;
    var t1 := Hashes.Remove(t, from);
    assert CopyMoveAsWritten(t, c, pwd, Move, source, dest).0 == AddSpec(t1, m);
    AddFrame(t1, m, Lower(from));
  }

  /** With `Cache#remove`: after a successful `mv`, the source has no entry
      in any letter case, unless the moved record itself stores it. */
  lemma MvForgetsSource(t: Table, c: Client, pwd: string, source: string, dest: string)
    requires ValidTable(t) && ClientOk(c)
    requires var from := Resolve(pwd, source); var to := Resolve(pwd, dest);
      && c.fileMove(from, to).Done?
      && Lower(from) !in KeySet(c.fileMove(from, to).value)
    ensures Lower(Resolve(pwd, source)) !in CopyMoveSpec(t, c, pwd, Move, source, dest).0.values
  {
    var from := Resolve(pwd, source);
    var m := c.fileMove(from, Resolve(pwd, dest)).value;
    var t1 := RemoveSpec(t, from);
    assert CopyMoveSpec(t, c, pwd, Move, source, dest).0 == AddSpec(t1, m);
    AddFrame(t1, m, Lower(from));
  }

  // ---------------------------------------------------------------------
  // What the commands output
  // ---------------------------------------------------------------------

  /** The lines `rm` outputs for one item, whatever the cache holds. */
  function RmLine(c: Client, item: Expansion): seq<string> {
    match item
    case GlobError(pattern) => ["rm: " + pattern + ": No such file or directory"]
    case Path(p) => if c.fileDelete(p).Failed? then [c.fileDelete(p).error] else []
  }

  function RmLines(c: Client, items: seq<Expansion>): seq<string>
    decreases |items|
  {
    if items == [] then [] else RmLine(c, items[0]) + RmLines(c, items[1..])
  }

  /** `rm` outputs one line for each pattern that matched nothing and for each
      failed deletion, in order, and nothing else. */
  lemma {:induction false} RmOutput(t: Table, c: Client, items: seq<Expansion>)
    requires ValidTable(t)
    ensures RmAll(t, c, items).1 == RmLines(c, items)
    decreases |items|
  {
    if items != [] {
      var one := RmOne(t, c, items[0]);
      assert one.1 == RmLine(c, items[0]);
      RmOutput(one.0, c, items[1..]);
    }
  }

  /** A pattern that matched nothing is reported, and the items after it are
      still processed. */
  lemma {:induction false} RmReportsGlobErrors(c: Client, items: seq<Expansion>, pattern: string)
    requires GlobError(pattern) in items
    ensures "rm: " + pattern + ": No such file or directory" in RmLines(c, items)
    decreases |items|
  {
    if items[0] != GlobError(pattern) {
      assert GlobError(pattern) in items[1..];
      RmReportsGlobErrors(c, items[1..], pattern);
    }
  }

  /** Each line `rm` outputs is a pattern report or a client error. */
  lemma {:induction false} RmLinesExplained(c: Client, items: seq<Expansion>, l: string)
    requires l in RmLines(c, items)
    ensures exists i :: 0 <= i < |items| && l in RmLine(c, items[i])
    decreases |items|
  {
    if l in RmLine(c, items[0]) {
      assert 0 < |items|;
    } else {
      RmLinesExplained(c, items[1..], l);
      var i :| 0 <= i < |items[1..]| && l in RmLine(c, items[1..][i]);
      assert items[1..][i] == items[i + 1];
    }
  }

  /** The line `copy_move` outputs: `source -> dest`, or the client's error. */
  function CopyLine(c: Client, pwd: string, kind: Transfer, source: string, dest: string): string {
    match Send(c, kind, Resolve(pwd, source), Resolve(pwd, dest))
    case Failed(e) => e
    case Done(_) => source + " -> " + dest
  }

  /** One line per source, in order. */
  function CopyLines(c: Client, pwd: string, kind: Transfer, sources: seq<string>, dest: string): (r: seq<string>)
    decreases |sources|
    ensures |r| == |sources|
  {
    if sources == [] then []
    else [CopyLine(c, pwd, kind, sources[0], Target(dest, sources[0]))] + CopyLines(c, pwd, kind, sources[1..], dest)
  }

  /** Line `i` is about source `i`, copied or moved to
      `last.chomp('/') + '/' + basename(source)`. */
  lemma {:induction false} CopyLineAt(c: Client, pwd: string, kind: Transfer, sources: seq<string>, dest: string, i: nat)
    requires i < |sources|
    ensures CopyLines(c, pwd, kind, sources, dest)[i] == CopyLine(c, pwd, kind, sources[i], Target(dest, sources[i]))
    decreases i
  {
    if i == 0 {
      CopyLinesHead(c, pwd, kind, sources, dest);
    } else {
      CopyLineAt(c, pwd, kind, sources[1..], dest, i - 1);
      CopyLineShift(c, pwd, kind, sources, dest, i);
    }
  }

  /** Line `i` of the lines is line `i - 1` of the lines of the other sources,
      so what holds of that one for source `i` holds of this one. */
  lemma CopyLineShift(c: Client, pwd: string, kind: Transfer, sources: seq<string>, dest: string, i: nat)
    requires 0 < i < |sources|
    requires var rest := sources[1..];
             CopyLines(c, pwd, kind, rest, dest)[i - 1] == CopyLine(c, pwd, kind, rest[i - 1], Target(dest, rest[i - 1]))
    ensures CopyLines(c, pwd, kind, sources, dest)[i] == CopyLine(c, pwd, kind, sources[i], Target(dest, sources[i]))
  {
    CopyLinesTail(c, pwd, kind, sources, dest, i);
    assert sources[1..][i - 1] == sources[i];
  }

  /** The first line is about the first source. */
  lemma CopyLinesHead(c: Client, pwd: string, kind: Transfer, sources: seq<string>, dest: string)
    requires sources != []
    ensures CopyLines(c, pwd, kind, sources, dest)[0] == CopyLine(c, pwd, kind, sources[0], Target(dest, sources[0]))
  {
  }

  /** Past the first, the lines are those of the other sources. */
  lemma CopyLinesTail(c: Client, pwd: string, kind: Transfer, sources: seq<string>, dest: string, i: nat)
    requires 0 < i < |sources|
    ensures CopyLines(c, pwd, kind, sources, dest)[i] == CopyLines(c, pwd, kind, sources[1..], dest)[i - 1]
  {
  }

  /** `copy_move` outputs exactly one line. */
  lemma CopyMoveOutput(t: Table, c: Client, pwd: string, kind: Transfer, source: string, dest: string)
    requires ValidTable(t) && ClientOk(c)
    ensures CopyMoveSpec(t, c, pwd, kind, source, dest).1 == [CopyLine(c, pwd, kind, source, dest)]
  {
  }

  /** The first source's line, then the lines of the rest from the cache it left. */
  lemma CopyEachHead(t: Table, c: Client, pwd: string, kind: Transfer, sources: seq<string>, dest: string)
    requires ValidTable(t) && ClientOk(c) && sources != []
    ensures var one := CopyMoveSpec(t, c, pwd, kind, sources[0], Target(dest, sources[0]));
      CopyEach(t, c, pwd, kind, sources, dest).1 ==
        [CopyLine(c, pwd, kind, sources[0], Target(dest, sources[0]))] + CopyEach(one.0, c, pwd, kind, sources[1..], dest).1
  {
    CopyMoveOutput(t, c, pwd, kind, sources[0], Target(dest, sources[0]));
  }

  /** Copying several sources into a directory outputs one line per source, in
      order, each naming the source's own destination inside the directory. */
  lemma {:induction false} CopyEachOutput(t: Table, c: Client, pwd: string, kind: Transfer,
                                          sources: seq<string>, dest: string)
    requires ValidTable(t) && ClientOk(c)
    ensures CopyEach(t, c, pwd, kind, sources, dest).1 == CopyLines(c, pwd, kind, sources, dest)
    decreases |sources|
  {
    if sources != [] {
      var one := CopyMoveSpec(t, c, pwd, kind, sources[0], Target(dest, sources[0]));
      CopyEachHead(t, c, pwd, kind, sources, dest);
      CopyEachOutput(one.0, c, pwd, kind, sources[1..], dest);
    }
  }

  /** When the destination has no metadata, nothing is copied and one line says so. */
  lemma IntoMissing(t: Table, c: Client, pwd: string, kind: Transfer, sources: seq<string>, last: string, cmd: string)
    requires ValidTable(t) && ClientOk(c)
    requires MetadataSpec(t, c, Resolve(pwd, last), true).1.None?
    ensures IntoSpec(t, c, pwd, kind, sources, last, cmd) ==
              (MetadataSpec(t, c, Resolve(pwd, last), true).0, [cmd + ": " + last + ": no such directory"])
  {
  }

  /** One source and a destination that is not a directory: a single copy or
      move to the destination as typed. */
  lemma SingleToFile(t: Table, c: Client, pwd: string, kind: Transfer, source: string, last: string, cmd: string)
    requires ValidTable(t) && ClientOk(c)
    requires !DirectorySpec(t, c, pwd, Resolve(pwd, last)).1
    ensures DispatchSpec(t, c, pwd, kind, [source], last, cmd).1 == [CopyLine(c, pwd, kind, source, last)]
  {
    CopyMoveOutput(DirectorySpec(t, c, pwd, Resolve(pwd, last)).0, c, pwd, kind, source, last);
  }

  /** `mkdir` of one path: on success the client's record is found under the
      path exactly as resolved, every other key keeps its entry, and the keys
      already there keep their order, the path being appended when it is new;
      on failure the error is the only line and the cache is as it was. */
  lemma MkdirStores(t: Table, c: Client, path: string)
    ensures var r := MkdirOne(t, c, path);
            c.createFolder(path).Done? ==>
              && r.1 == []
              && Hashes.Get(r.0, path) == Some(Entry(c.createFolder(path).value, None))
              && (forall k :: k != path ==> Hashes.Get(r.0, k) == Hashes.Get(t, k))
              && |t.keys| <= |r.0.keys| <= |t.keys| + 1
              && r.0.keys[..|t.keys|] == t.keys
    ensures c.createFolder(path).Failed? ==> MkdirOne(t, c, path) == (t, [c.createFolder(path).error])
  {
  }

  /** `mkdir` assigns with `Hash#[]=` rather than `Cache#add`: for a path with
      capitals, an entry already under its lower-case form is left as it was,
      and the parent's entry, 'contents' included, is not touched. */
  lemma MkdirKeepsOtherEntries(t: Table, c: Client, path: string)
    requires c.createFolder(path).Done?
    ensures Lower(path) != path && Lower(path) in t.values ==>
              Lower(path) in MkdirOne(t, c, path).0.values &&
              MkdirOne(t, c, path).0.values[Lower(path)] == t.values[Lower(path)]
    ensures Dirname(path) != path && Dirname(path) in t.values ==>
              MkdirOne(t, c, path).0.values[Dirname(path)] == t.values[Dirname(path)]
  {
  }
}
