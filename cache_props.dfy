/**
 * What `Cache#add`, `#remove` and `#full_info?` (lib/droxi/cache.rb) promise,
 * proved about the specification functions that the `Cache` methods follow.
 */
module CacheProperties {
  import opened Wrappers
  import opened Strings
  import opened Hashes
  import opened Caches

  // ---------------------------------------------------------------------
  // add
  // ---------------------------------------------------------------------

  /** The keys stored by adding a well-formed record are its own key and longer ones. */
  lemma {:induction false} KeySetBound(m: Metadata)
    requires WellFormed(m)
    ensures forall x :: x in KeySet(m) ==> |x| >= |Key(m)|
    ensures m.contents.Listed? ==> forall x :: x in KeySetAll(m.contents.items) ==> |x| > |Key(m)|
    decreases m, 1
  {
    if m.contents.Listed? {
      var items := m.contents.items;
      forall i | 0 <= i < |items| ensures WellFormed(items[i]) && |Key(items[i])| > |Key(m)| {
        ChildLonger(m, items[i]);
      }
      KeySetAllBound(items, |Key(m)|);
    }
  }

  lemma {:induction false} KeySetAllBound(ms: seq<Metadata>, n: nat)
    requires forall i :: 0 <= i < |ms| ==> WellFormed(ms[i]) && |Key(ms[i])| > n
    ensures forall x :: x in KeySetAll(ms) ==> |x| > n
    decreases ms, 0
  {
    if ms != [] {
      KeySetBound(ms[0]);
      KeySetAllBound(ms[1..], n);
    }
  }

  /** Adding `m` cannot append to the entry under `k`: `k` is not `m`'s parent,
      or that parent has no 'contents', or it already lists `m`. */
  ghost predicate NoLinkInto(t: Table, k: string, m: Metadata) {
    (Dirname(Key(m)) == k && Key(m) != k && k in t.values && t.values[k].contents.Some?) ==>
      m.info in t.values[k].contents.value
  }

  /** Adding a record leaves every entry outside its own keys alone, unless the
      entry is its parent and the record is new to the parent's 'contents'. */
  lemma {:induction false} AddFrame(t: Table, m: Metadata, k: string)
    requires WellFormed(m) && k !in KeySet(m) && NoLinkInto(t, k, m)
    ensures k in AddSpec(t, m).values <==> k in t.values
    ensures k in t.values ==> AddSpec(t, m).values[k] == t.values[k]
    decreases m, 1
  {
    var t1 := Link(Store(t, Key(m), EntryOf(m)), m);
    assert k in t1.values <==> k in t.values;
    assert k in t.values ==> t1.values[k] == t.values[k];
    if m.contents.Listed? {
      var items := m.contents.items;
      forall i | 0 <= i < |items| ensures WellFormed(items[i]) && NoLinkInto(t1, k, items[i]) {
        assert Dirname(Key(items[i])) == Key(m);
      }
      AddAllFrame(t1, items, k);
    }
  }

  lemma {:induction false} AddAllFrame(t: Table, ms: seq<Metadata>, k: string)
    requires forall i :: 0 <= i < |ms| ==> WellFormed(ms[i]) && NoLinkInto(t, k, ms[i])
    requires k !in KeySetAll(ms)
    ensures k in AddAll(t, ms).values <==> k in t.values
    ensures k in t.values ==> AddAll(t, ms).values[k] == t.values[k]
    decreases ms, 0
  {
    if ms != [] {
      var t1 := AddSpec(t, ms[0]);
      AddFrame(t, ms[0], k);
      forall i | 0 <= i < |ms[1..]| ensures WellFormed(ms[1..][i]) && NoLinkInto(t1, k, ms[1..][i]) {
        assert ms[1..][i] == ms[i + 1];
      }
      AddAllFrame(t1, ms[1..], k);
    }
  }

  /** After `add(m)` the entry under `m`'s lower-cased path is `m` itself. */
  lemma AddStores(t: Table, m: Metadata)
    requires WellFormed(m)
    ensures Key(m) in AddSpec(t, m).values
    ensures AddSpec(t, m).values[Key(m)] == EntryOf(m)
  {
    var k := Key(m);
    var t1 := Link(Store(t, k, EntryOf(m)), m);
    assert t1.values[k] == EntryOf(m);
    if m.contents.Listed? {
      var items := m.contents.items;
      KeySetBound(m);
      forall i | 0 <= i < |items| ensures WellFormed(items[i]) && NoLinkInto(t1, k, items[i]) {
        assert Infos(items)[i] == items[i].info;
      }
      AddAllFrame(t1, items, k);
    }
  }

  /** The effect of `add(m)` on the parent directory's entry: appended to when
      it has 'contents' not holding `m` yet, otherwise unchanged; and an absent
      parent stays absent. */
  lemma AddParent(t: Table, m: Metadata)
    requires WellFormed(m) && Dirname(Key(m)) != Key(m)
    ensures var p := Dirname(Key(m));
      && (p in AddSpec(t, m).values <==> p in t.values)
      && (p in t.values ==>
            AddSpec(t, m).values[p] ==
              if t.values[p].contents.Some? && m.info !in t.values[p].contents.value
              then Entry(t.values[p].info, Some(t.values[p].contents.value + [m.info]))
              else t.values[p])
  {
    var k := Key(m);
    var p := Dirname(k);
    AbsoluteLower(m.info.path);
    DirnameShorter(k);
    KeySetBound(m);
    var t1 := Link(Store(t, k, EntryOf(m)), m);
    if m.contents.Listed? {
      var items := m.contents.items;
      forall i | 0 <= i < |items| ensures WellFormed(items[i]) && NoLinkInto(t1, p, items[i]) {
        assert Dirname(Key(items[i])) == k;
      }
      AddAllFrame(t1, items, p);
    }
  }

  /** Re-adding an identical record does not duplicate it in its parent's 'contents'. */
  lemma AddAgainNoDuplicate(t: Table, m: Metadata)
    requires WellFormed(m) && Dirname(Key(m)) != Key(m)
    requires Dirname(Key(m)) in t.values
    ensures var p := Dirname(Key(m));
      AddSpec(AddSpec(t, m), m).values[p] == AddSpec(t, m).values[p]
  {
    AddParent(t, m);
    AddParent(AddSpec(t, m), m);
  }

  /** A leaf record whose parent is absent or has no 'contents': `add` changes
      only the record's own key. */
  lemma AddLeafAlone(t: Table, m: Metadata)
    requires m.contents.Unlisted?
    requires var p := Dirname(Key(m)); p == Key(m) || p !in t.values || t.values[p].contents.None?
    ensures AddSpec(t, m).values == t.values[Key(m) := EntryOf(m)]
  {
  }

  /** The root never links to itself: `File.dirname('/')` is '/'. */
  lemma RootNoSelfLink(t: Table, m: Metadata)
    requires Key(m) == "/"
    ensures Link(Store(t, "/", EntryOf(m)), m) == Store(t, "/", EntryOf(m))
  {
    DirnameOfRoot();
  }

  // ---------------------------------------------------------------------
  // recursive_remove and remove
  // ---------------------------------------------------------------------

  /** The keys `recursive_remove` deleted: present before, absent after. */
  ghost predicate Deleted(t: Table, r: Table, x: string) {
    x in t.values && x !in r.values
  }

  /** Closure: every link of a deleted entry is gone too. */
  ghost predicate LinksGone(t: Table, r: Table) {
    forall y, x :: Deleted(t, r, y) && x in LinkKeys(t.values[y]) ==> x !in r.values
  }

  /** Every deleted key is `p`, or is linked from another deleted key. */
  ghost predicate Justified(t: Table, r: Table, p: string) {
    forall x :: Deleted(t, r, x) ==>
      x == p || exists y :: Deleted(t, r, y) && x in LinkKeys(t.values[y])
  }

  /** Every deleted key is one of `links`, or is linked from another deleted key. */
  ghost predicate Explained(t: Table, r: Table, links: seq<Info>) {
    forall x :: Deleted(t, r, x) ==>
      (exists l :: l in links && InfoKey(l) == x) ||
      (exists y :: Deleted(t, r, y) && x in LinkKeys(t.values[y]))
  }

  lemma LinkKeysOf(e: Entry, l: Info)
    requires e.contents.Some? && l in e.contents.value
    ensures InfoKey(l) in LinkKeys(e)
  {
  }

  lemma {:induction false} RecRemoveClosed(t: Table, p: string)
    requires ValidTable(t)
    ensures LinksGone(t, RecRemove(t, p)) && Justified(t, RecRemove(t, p), p)
    decreases |Longer(t, p)|, if p in t.values then 2 else 0, 0
  {
    var r := RecRemove(t, p);
    if p in t.values && t.values[p].contents.Some? {
      var links := t.values[p].contents.value;
      var r1 := RecRemoveAll(t, p, links);
      RecRemoveAllClosed(t, p, links);
      forall y, x | Deleted(t, r, y) && x in LinkKeys(t.values[y]) ensures x !in r.values {
        if y == p {
          var l :| l in links && InfoKey(l) == x;
        }
      }
      forall x | Deleted(t, r, x)
        ensures x == p || exists y :: Deleted(t, r, y) && x in LinkKeys(t.values[y])
      {
        if x != p {
          assert Deleted(t, r1, x);
          if exists l :: l in links && InfoKey(l) == x {
            var l :| l in links && InfoKey(l) == x;
            LinkKeysOf(t.values[p], l);
            assert Deleted(t, r, p);
          } else {
            var y :| Deleted(t, r1, y) && x in LinkKeys(t.values[y]);
            assert Deleted(t, r, y);
          }
        }
      }
    }
  }

  lemma {:induction false} RecRemoveAllClosed(t: Table, p: string, links: seq<Info>)
    requires ValidTable(t)
    requires forall l :: l in links ==> |InfoKey(l)| > |p|
    ensures var r := RecRemoveAll(t, p, links);
      && LinksGone(t, r)
      && (forall l :: l in links ==> InfoKey(l) !in r.values)
      && Explained(t, r, links)
    decreases |Longer(t, p)|, 1, |links|
  {
    if links != [] {
      var c := InfoKey(links[0]);
      MeasureDrops(t, t, p, c);
      var t1 := RecRemove(t, c);
      RecRemoveClosed(t, c);
      MeasureDrops(t, t1, p, c);
      SubsetCard(Longer(t1, p), Longer(t, p));
      var r := RecRemoveAll(t1, p, links[1..]);
      RecRemoveAllClosed(t1, p, links[1..]);
      assert r == RecRemoveAll(t, p, links);
      LinksGoneTrans(t, t1, r);
      forall l | l in links ensures InfoKey(l) !in r.values {
        if l != links[0] {
          assert l in links[1..];
        }
      }
      JustifiedStep(t, t1, r, links);
    }
  }

  /** Removals one after the other keep the closure. */
  lemma LinksGoneTrans(t: Table, t1: Table, r: Table)
    requires SubTable(t1, t) && SubTable(r, t1)
    requires LinksGone(t, t1) && LinksGone(t1, r)
    ensures LinksGone(t, r)
  {
    forall y, x | Deleted(t, r, y) && x in LinkKeys(t.values[y]) ensures x !in r.values {
      if !Deleted(t, t1, y) {
        assert Deleted(t1, r, y);
      }
    }
  }

  /** The justification of the keys `RecRemoveAll` deletes, one link further. */
  lemma JustifiedStep(t: Table, t1: Table, r: Table, links: seq<Info>)
    requires links != [] && SubTable(t1, t) && SubTable(r, t1)
    requires Justified(t, t1, InfoKey(links[0]))
    requires Explained(t1, r, links[1..])
    ensures Explained(t, r, links)
  {
    var c := InfoKey(links[0]);
    forall x | Deleted(t, r, x)
      ensures (exists l :: l in links && InfoKey(l) == x) ||
              (exists y :: Deleted(t, r, y) && x in LinkKeys(t.values[y]))
    {
      if Deleted(t, t1, x) {
        if x == c {
          assert links[0] in links;
        } else {
          var y :| Deleted(t, t1, y) && x in LinkKeys(t.values[y]);
          assert Deleted(t, r, y);
        }
      } else {
        assert Deleted(t1, r, x);
        if exists l :: l in links[1..] && InfoKey(l) == x {
          var l :| l in links[1..] && InfoKey(l) == x;
          assert l in links;
        } else {
          var y :| Deleted(t1, r, y) && x in LinkKeys(t1.values[y]);
          assert Deleted(t, r, y);
        }
      }
    }
  }

  /** `recursive_remove(p)` deletes `p`, every entry reachable from it through
      'contents' links and nothing else: a set of keys that holds no `p` and
      every entry linking into which is itself in the set survives untouched. */
  lemma RecRemoveSpares(t: Table, p: string, u: set<string>, x: string)
    requires ValidTable(t)
    requires p !in u && x in u && x in t.values
    requires forall y, z :: y in t.values && z in u && z in LinkKeys(t.values[y]) ==> y in u
    ensures x in RecRemove(t, p).values && RecRemove(t, p).values[x] == t.values[x]
    decreases |x|
  {
    var r := RecRemove(t, p);
    RecRemoveClosed(t, p);
    if Deleted(t, r, x) {
      var y :| Deleted(t, r, y) && x in LinkKeys(t.values[y]);
      assert y in u;
      var l :| l in t.values[y].contents.value && InfoKey(l) == x;
      RecRemoveSpares(t, p, u, y);
      assert false;
    }
  }

  /** `remove(path)`: the path and what it reaches are deleted, and the items with
      that path are dropped from the parent's 'contents', all else kept. */
  lemma RemoveEffect(t: Table, path: string)
    requires ValidTable(t)
    ensures var k := Lower(path); var d := Dirname(k);
      var t1 := RecRemove(t, k); var r := RemoveSpec(t, path);
      && r.values.Keys == t1.values.Keys
      && (forall x :: x in r.values && x != d ==> r.values[x] == t.values[x])
      && (d in r.values ==> r.values[d].info == t.values[d].info)
      && (d in r.values && t.values[d].contents.Some? ==>
            r.values[d].contents == Some(DropKey(t.values[d].contents.value, k)))
      && (d in r.values && t.values[d].contents.None? ==> r.values[d].contents.None?)
  {
    var k := Lower(path);
    var t1 := RecRemove(t, k);
    assert RemoveSpec(t, path) == Unlink(t1, k);
    UnlinkEffect(t1, k, Dirname(k));
  }

  /** Unlinking touches the parent's 'contents' and nothing else. */
  lemma UnlinkEffect(t: Table, k: string, d: string)
    requires d == Dirname(k)
    ensures Unlink(t, k).values.Keys == t.values.Keys
    ensures forall x :: x in t.values && x != d ==> Unlink(t, k).values[x] == t.values[x]
    ensures d in t.values ==> Unlink(t, k).values[d].info == t.values[d].info
    ensures d in t.values && t.values[d].contents.Some? ==>
              Unlink(t, k).values[d].contents == Some(DropKey(t.values[d].contents.value, k))
    ensures d in t.values && t.values[d].contents.None? ==> Unlink(t, k).values[d] == t.values[d]
  {
  }

  /** `recursive_remove(p)` deletes no key shorter than `p`: every key it
      deletes is `p` or is reached from `p` through links, which only lengthen. */
  lemma DeletedLonger(t: Table, p: string, x: string)
    requires ValidTable(t)
    ensures Deleted(t, RecRemove(t, p), x) ==> |x| >= |p|
    decreases |x|
  {
    var r := RecRemove(t, p);
    RecRemoveClosed(t, p);
    if Deleted(t, r, x) && x != p {
      var y :| Deleted(t, r, y) && x in LinkKeys(t.values[y]);
      var l :| l in t.values[y].contents.value && InfoKey(l) == x;
      DeletedLonger(t, p, y);
    }
  }

  /** `remove(q)` keeps every key shorter than `q`, with its fields, and adds no key. */
  lemma RemoveKeepsShorter(t: Table, q: string, x: string)
    requires ValidTable(t)
    ensures RemoveSpec(t, q).values.Keys <= t.values.Keys
    ensures x in t.values && |x| < |Lower(q)| ==>
              x in RemoveSpec(t, q).values && RemoveSpec(t, q).values[x].info == t.values[x].info
  {
    DeletedLonger(t, Lower(q), x);
    RemoveEffect(t, q);
  }

  /** A sibling of `p` that only its parent links to, where nothing links to the
      parent, survives `recursive_remove(p)` whatever its name. */
  lemma SiblingSurvives(t: Table, p: string, parent: string, s: string)
    requires ValidTable(t)
    requires parent in t.values && s in t.values && p != parent && p != s
    requires forall y :: y in t.values ==> parent !in LinkKeys(t.values[y])
    requires forall y :: y in t.values && s in LinkKeys(t.values[y]) ==> y == parent
    ensures s in RecRemove(t, p).values && RecRemove(t, p).values[s] == t.values[s]
  {
    RecRemoveSpares(t, p, {parent, s}, s);
  }

  // ---------------------------------------------------------------------
  // Worked cases of spec/cache_spec.rb, over arbitrary paths
  // ---------------------------------------------------------------------

  /** A file record: no 'contents' key. */
  function Leaf(i: Info): Metadata { Metadata(i, Unlisted) }

  lemma ThreeKeys(a: Info, b: Info, c: Info)
    ensures KeySetAll([Leaf(a), Leaf(b), Leaf(c)]) == {InfoKey(a), InfoKey(b), InfoKey(c)}
  {
    var ms := [Leaf(a), Leaf(b), Leaf(c)];
    assert ms[1..] == [Leaf(b), Leaf(c)];
    assert ms[1..][1..] == [Leaf(c)];
    assert [Leaf(c)][1..] == [];
    assert KeySet(Leaf(a)) == {InfoKey(a)} && KeySet(Leaf(b)) == {InfoKey(b)} && KeySet(Leaf(c)) == {InfoKey(c)};
    assert KeySetAll([Leaf(c)]) == {InfoKey(c)};
    assert KeySetAll([Leaf(b), Leaf(c)]) == {InfoKey(b), InfoKey(c)};
  }

  /** Into an empty cache, `add` stores exactly the keys of the record and its listing. */
  lemma AddToEmptyKeys(m: Metadata)
    ensures AddSpec(Empty(), m).values.Keys == KeySet(m)
  {
  }

  /** The keys of a directory record listing three files. */
  lemma DirOfThreeKeys(d: Metadata, dir: Info, a: Info, b: Info, c: Info)
    requires d == Metadata(dir, Listed([Leaf(a), Leaf(b), Leaf(c)]))
    ensures KeySet(d) == {InfoKey(dir), InfoKey(a), InfoKey(b), InfoKey(c)}
  {
    ThreeKeys(a, b, c);
  }

  lemma DirOfThree(dir: Info, a: Info, b: Info, c: Info)
    requires |{InfoKey(dir), InfoKey(a), InfoKey(b), InfoKey(c)}| == 4
    ensures |AddSpec(Empty(), Metadata(dir, Listed([Leaf(a), Leaf(b), Leaf(c)]))).values| == 4
  {
    var d := Metadata(dir, Listed([Leaf(a), Leaf(b), Leaf(c)]));
    DirOfThreeKeys(d, dir, a, b, c);
    AddToEmptyKeys(d);
  }


  lemma RemoveOnlyFile(f: Info)
    requires IsAbsolute(f.path)
    ensures RemoveSpec(AddSpec(Empty(), Leaf(f)), f.path).values == map[]
  {
    var t := AddSpec(Empty(), Leaf(f));
    assert t.values == map[InfoKey(f) := EntryOf(Leaf(f))];
    LowerIdempotent(f.path);
  }

  lemma AddEmptyDir(dir: Info)
    ensures AddSpec(Empty(), Metadata(dir, Listed([]))).values == map[InfoKey(dir) := Entry(dir, Some([]))]
  {
    var d := Metadata(dir, Listed([]));
    assert Infos([]) == [];
    var s0 := Store(Empty(), InfoKey(dir), EntryOf(d));
    assert Link(s0, d) == s0;
  }

  lemma AddFileToDir(t: Table, dir: Info, f: Info)
    requires Dirname(InfoKey(f)) == InfoKey(dir) && InfoKey(f) != InfoKey(dir)
    requires t.values == map[InfoKey(dir) := Entry(dir, Some([]))]
    ensures AddSpec(t, Leaf(f)).values ==
      map[InfoKey(dir) := Entry(dir, Some([f])), InfoKey(f) := Entry(f, None)]
  {
    var s1 := Store(t, InfoKey(f), Entry(f, None));
    assert [] + [f] == [f];
    assert Link(s1, Leaf(f)) == Store(s1, InfoKey(dir), Entry(dir, Some([f])));
  }

  /** The table after adding an empty directory and then one file in it. */
  function DirWithFile(dir: Info, f: Info): (r: Table)
    ensures FileInDir(dir, f) ==> ValidTable(r)
  {
    var d := Metadata(dir, Listed([]));
    assert FileInDir(dir, f) ==> WellFormed(d) && WellFormed(Leaf(f));
    AddSpec(AddSpec(Empty(), d), Leaf(f))
  }

  lemma DirWithFileShape(dir: Info, f: Info)
    requires Dirname(InfoKey(f)) == InfoKey(dir) && InfoKey(f) != InfoKey(dir)
    ensures DirWithFile(dir, f).values ==
      map[InfoKey(dir) := Entry(dir, Some([f])), InfoKey(f) := Entry(f, None)]
  {
    AddEmptyDir(dir);
    AddFileToDir(AddSpec(Empty(), Metadata(dir, Listed([]))), dir, f);
  }

  /** Both records of `DirWithFile` are well formed. */
  predicate FileInDir(dir: Info, f: Info) {
    IsAbsolute(dir.path) && IsAbsolute(f.path) &&
    Dirname(InfoKey(f)) == InfoKey(dir) && InfoKey(f) != InfoKey(dir)
  }

  /** `remove` of a key holding a file: delete it, then unlink it from its parent. */
  lemma RemoveSpecOfLeaf(t: Table, path: string, k: string)
    requires ValidTable(t) && k == Lower(path) && k in t.values && t.values[k].contents.None?
    ensures RemoveSpec(t, path) == Unlink(Hashes.Remove(t, k), k)
  {
  }

  /** Unlinking `k` rewrites only the parent's links. */
  lemma UnlinkFromParent(t: Table, k: string, d: string, parent: Info, links: seq<Info>)
    requires Dirname(k) == d && d in t.values && t.values[d] == Entry(parent, Some(links))
    ensures Unlink(t, k).values == t.values[d := Entry(parent, Some(DropKey(links, k)))]
  {
  }

  /** `recursive_remove` of a listed directory with a single link. */
  lemma RecRemoveOneLink(t: Table, p: string, l: Info)
    requires ValidTable(t) && p in t.values && t.values[p].contents == Some([l])
    ensures RecRemove(t, p) == Hashes.Remove(RecRemove(t, InfoKey(l)), p)
  {
    assert [l][1..] == [];
    assert RecRemoveAll(t, p, [l]) == RecRemoveAll(RecRemove(t, InfoKey(l)), p, []);
  }

  lemma DropPair<V>(a: string, b: string, x: V, y: V)
    requires a != b
    ensures map[a := x, b := y] - {b} == map[a := x]
  {
  }

  lemma DropOnlyLink(l: Info, k: string)
    requires InfoKey(l) == k
    ensures DropKey([l], k) == []
  {
    assert [l][1..] == [];
  }

  lemma RemoveLeafOfDir(t: Table, dir: Info, f: Info)
    requires ValidTable(t) && FileInDir(dir, f)
    requires t.values == map[InfoKey(dir) := Entry(dir, Some([f])), InfoKey(f) := Entry(f, None)]
    ensures RemoveSpec(t, f.path).values == map[InfoKey(dir) := Entry(dir, Some([]))]
  {
    LowerIdempotent(f.path);
    var k, kd := InfoKey(f), InfoKey(dir);
    RemoveSpecOfLeaf(t, f.path, k);
    var t1 := Hashes.Remove(t, k);
    DropPair(kd, k, Entry(dir, Some([f])), Entry(f, None));
    DropOnlyLink(f, k);
    UnlinkFromParent(t1, k, kd, dir, [f]);
  }

  lemma RemoveDirOfLeaf(t: Table, dir: Info, f: Info)
    requires ValidTable(t) && FileInDir(dir, f)
    requires t.values == map[InfoKey(dir) := Entry(dir, Some([f])), InfoKey(f) := Entry(f, None)]
    ensures RemoveSpec(t, dir.path).values == map[]
  {
    LowerIdempotent(dir.path);
    var kd, kf := InfoKey(dir), InfoKey(f);
    RecRemoveOneLink(t, kd, f);
    var t1 := Hashes.Remove(t, kf);
    assert RecRemove(t, kf) == t1;
    assert Hashes.Remove(t1, kd).values == map[];
  }

  lemma RemoveFileFromDir(dir: Info, f: Info)
    requires FileInDir(dir, f)
    ensures RemoveSpec(DirWithFile(dir, f), f.path).values == map[InfoKey(dir) := Entry(dir, Some([]))]
  {
    DirWithFileShape(dir, f);
    RemoveLeafOfDir(DirWithFile(dir, f), dir, f);
  }

  lemma RemoveDirRecursively(dir: Info, f: Info)
    requires FileInDir(dir, f)
    ensures RemoveSpec(DirWithFile(dir, f), dir.path).values == map[]
  {
    DirWithFileShape(dir, f);
    RemoveDirOfLeaf(DirWithFile(dir, f), dir, f);
  }

  /** Right after `add(m)`, `full_info?(m['path'], rc)` holds exactly when contents
      are not required, or `m` is a file, or `m` came with its 'contents'. */
  lemma FullInfoAfterAdd(t: Table, m: Metadata, rc: bool)
    requires WellFormed(m)
    ensures FullInfoIn(AddSpec(t, m), m.info.path, rc) <==>
      (!rc || !m.info.isDir || m.contents.Listed?)
  {
    AddStores(t, m);
  }
}
