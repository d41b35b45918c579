/**
 * The metadata cache of lib/droxi/cache.rb: a Hash from lower-cased remote path
 * to the metadata record of that path, where a directory whose listing is
 * known carries a 'contents' list linking the records of its children.
 *
 * Ruby shares one record object between the hash and the parent's 'contents'
 * array. Only the 'contents' key of a record is ever changed in place, and it is
 * always reached through the hash, so a link is modelled by the child's own
 * fields (`Info`) and the child's current listing is the one under its own key.
 */
module Caches {
  import opened Wrappers
  import opened Strings
  import opened Hashes

  /** The fields of a metadata record other than 'contents'. */
  datatype Info = Info(path: string, isDir: bool, size: string, modified: string)

  /** A metadata record as the client returns it. */
  datatype Metadata = Metadata(info: Info, contents: Listing)

  /** The 'contents' key of a record: absent, or the records of its children. */
  datatype Listing = Unlisted | Listed(items: seq<Metadata>)

  /** What the cache holds under a key: the record's fields and its 'contents' links. */
  datatype Entry = Entry(info: Info, contents: Option<seq<Info>>)

  type Table = Hash<Entry>

  /** The cache key of a record: its path, lower-cased. */
  function Key(m: Metadata): string {
    Lower(m.info.path)
  }

  function InfoKey(i: Info): string {
    Lower(i.path)
  }

  function Infos(ms: seq<Metadata>): (r: seq<Info>)
    ensures |r| == |ms|
    ensures forall i :: 0 <= i < |ms| ==> r[i] == ms[i].info
  {
    seq(|ms|, i requires 0 <= i < |ms| => ms[i].info)
  }

  /** The entry `store(path, metadata)` puts in the hash. */
  function EntryOf(m: Metadata): Entry {
    Entry(m.info, if m.contents.Listed? then Some(Infos(m.contents.items)) else None)
  }

  /** The keys an entry's 'contents' list links to. */
  function LinkKeys(e: Entry): set<string> {
    if e.contents.Some? then set l | l in e.contents.value :: InfoKey(l) else {}
  }

  /**
   * What the storage backend guarantees of a record it returns: the path is
   * absolute and every listed item is a child of the directory (its `dirname`
   * is the directory and it is not the directory itself), recursively.
   */
  ghost predicate WellFormed(m: Metadata)
    decreases m
  {
    && IsAbsolute(m.info.path)
    && (m.contents.Listed? ==>
          forall i :: 0 <= i < |m.contents.items| ==>
            && Dirname(Key(m.contents.items[i])) == Key(m)
            && Key(m.contents.items[i]) != Key(m)
            && WellFormed(m.contents.items[i]))
  }

  /** Every link of the entry under `k` leads to a strictly longer key. */
  ghost predicate LinksLonger(k: string, e: Entry) {
    e.contents.Some? ==> forall l :: l in e.contents.value ==> |InfoKey(l)| > |k|
  }

  /**
   * The cache invariant: the key order is exact, and links always lead to
   * longer keys, so following 'contents' lists cannot cycle (which is what
   * makes `recursive_remove` terminate).
   */
  ghost predicate ValidTable(t: Table) {
    && Ok(t)
    && forall k :: k in t.values ==> LinksLonger(k, t.values[k])
  }

  /** `r` is `t` with some keys deleted and nothing else changed. */
  ghost predicate SubTable(r: Table, t: Table) {
    forall k :: k in r.values ==> k in t.values && r.values[k] == t.values[k]
  }

  lemma AbsoluteLower(p: string)
    requires IsAbsolute(p)
    ensures IsAbsolute(Lower(p))
  {
  }

  lemma ChildLonger(m: Metadata, c: Metadata)
    requires IsAbsolute(c.info.path)
    requires Dirname(Key(c)) == Key(m) && Key(c) != Key(m)
    ensures |Key(c)| > |Key(m)|
  {
    AbsoluteLower(c.info.path);
    DirnameShorter(Key(c));
  }

  lemma ChildrenLonger(m: Metadata)
    ensures WellFormed(m) ==> LinksLonger(Key(m), EntryOf(m))
  {
    if WellFormed(m) && m.contents.Listed? {
      var items := m.contents.items;
      var links := Infos(items);
      forall i | 0 <= i < |items| ensures |InfoKey(links[i])| > |Key(m)| {
        assert WellFormed(items[i]);
        ChildLonger(m, items[i]);
      }
      assert EntryOf(m).contents.value == links;
    }
  }

  // ---------------------------------------------------------------------
  // add (lib/droxi/cache.rb:5-16)
  // ---------------------------------------------------------------------

  /** Lines 8-12: append the record to its parent's 'contents' when the parent
      is cached with a 'contents' list that does not hold it yet. */
  function Link(t: Table, m: Metadata): Table {
    var k := Key(m);
    var p := Dirname(k);
    if p != k && p in t.values && t.values[p].contents.Some? && m.info !in t.values[p].contents.value
    then Store(t, p, Entry(t.values[p].info, Some(t.values[p].contents.value + [m.info])))
    else t
  }

  lemma LinkValid(t: Table, m: Metadata)
    ensures ValidTable(t) && IsAbsolute(m.info.path) ==> ValidTable(Link(t, m))
  {
    if IsAbsolute(m.info.path) {
      AbsoluteLower(m.info.path);
      DirnameShorter(Key(m));
    }
  }

  /** The keys of a record and of everything nested in it. */
  function KeySet(m: Metadata): set<string>
    decreases m
  {
    {Key(m)} + (if m.contents.Listed? then KeySetAll(m.contents.items) else {})
  }

  function KeySetAll(ms: seq<Metadata>): set<string>
    decreases ms
  {
    if ms == [] then {} else KeySet(ms[0]) + KeySetAll(ms[1..])
  }

  /** The cache after `add(m)`: store, link into the parent, then add each listed item. */
  function AddSpec(t: Table, m: Metadata): (r: Table)
    decreases m
    ensures r.values.Keys == t.values.Keys + KeySet(m)
    ensures ValidTable(t) && WellFormed(m) ==> ValidTable(r)
  {
    ChildrenLonger(m);
    var t0 := Store(t, Key(m), EntryOf(m));
    LinkValid(t0, m);
    var t1 := Link(t0, m);
    if m.contents.Listed? then AddAll(t1, m.contents.items) else t1
  }

  function AddAll(t: Table, ms: seq<Metadata>): (r: Table)
    decreases ms
    ensures r.values.Keys == t.values.Keys + KeySetAll(ms)
    ensures ValidTable(t) && (forall i :: 0 <= i < |ms| ==> WellFormed(ms[i])) ==> ValidTable(r)
  {
    if ms == [] then t else AddAll(AddSpec(t, ms[0]), ms[1..])
  }

  /** Adding the items from position `i` on is adding item `i`, then the rest. */
  lemma AddAllStep(t: Table, ms: seq<Metadata>, i: nat)
    requires i < |ms|
    ensures AddAll(t, ms[i..]) == AddAll(AddSpec(t, ms[i]), ms[i + 1..])
  {
    DropOne(ms, i);
  }

  // ---------------------------------------------------------------------
  // recursive_remove and remove (lib/droxi/cache.rb:19-25, 37-42)
  // ---------------------------------------------------------------------

  /** The cached keys longer than `p`: the termination measure of `recursive_remove`. */
  function Longer(t: Table, p: string): set<string> {
    set k | k in t.values && |k| > |p|
  }

  lemma SubsetCard(a: set<string>, b: set<string>)
    requires a <= b
    ensures |a| <= |b|
  {
    assert b == a + (b - a);
  }

  lemma ProperSubsetCard(a: set<string>, b: set<string>, x: string)
    requires a <= b && x in b && x !in a
    ensures |a| < |b|
  {
    assert b == a + (b - a);
    assert x in b - a;
  }

  /** Removing from `t` what `recursive_remove(c)` removes, for a link `c` of `p`. */
  lemma MeasureDrops(t: Table, now: Table, p: string, c: string)
    requires SubTable(now, t) && |c| > |p|
    ensures |Longer(now, c)| <= |Longer(t, p)|
    ensures c in now.values ==> |Longer(now, c)| < |Longer(t, p)|
  {
    SubsetCard(Longer(now, c), Longer(t, p));
    if c in now.values {
      ProperSubsetCard(Longer(now, c), Longer(t, p), c);
    }
  }

  /** The cache after `recursive_remove(p)`, for a lower-cased `p`. */
  function RecRemove(t: Table, p: string): (r: Table)
    requires ValidTable(t)
    decreases |Longer(t, p)|, if p in t.values then 2 else 0, 0
    ensures ValidTable(r) && SubTable(r, t)
    ensures p !in r.values
  {
    if p in t.values && t.values[p].contents.Some? then
      Hashes.Remove(RecRemoveAll(t, p, t.values[p].contents.value), p)
    else
      Hashes.Remove(t, p)
  }

  /** `contents.each { |item| recursive_remove(item['path']) }` for the links of `p`. */
  function RecRemoveAll(t: Table, p: string, links: seq<Info>): (r: Table)
    requires ValidTable(t)
    requires forall l :: l in links ==> |InfoKey(l)| > |p|
    decreases |Longer(t, p)|, 1, |links|
    ensures ValidTable(r) && SubTable(r, t)
  {
    if links == [] then t
    else
      var c := InfoKey(links[0]);
      MeasureDrops(t, t, p, c);
      var t1 := RecRemove(t, c);
      MeasureDrops(t, t1, p, c);
      SubsetCard(Longer(t1, p), Longer(t, p));
      RecRemoveAll(t1, p, links[1..])
  }

  /** The links that remain when every item whose lower-cased path is `k` is dropped. */
  function DropKey(links: seq<Info>, k: string): (r: seq<Info>)
    ensures forall l :: l in r <==> l in links && InfoKey(l) != k
  {
    if links == [] then []
    else if InfoKey(links[0]) == k then DropKey(links[1..], k)
    else [links[0]] + DropKey(links[1..], k)
  }

  /** Lines 22-23: delete the items with path `k` from the 'contents' of `k`'s parent. */
  function Unlink(t: Table, k: string): Table {
    var d := Dirname(k);
    if d in t.values && t.values[d].contents.Some? then
      Store(t, d, Entry(t.values[d].info, Some(DropKey(t.values[d].contents.value, k))))
    else t
  }

  /** The cache after `remove(path)`. */
  function RemoveSpec(t: Table, path: string): (r: Table)
    requires ValidTable(t)
    ensures ValidTable(r)
    ensures Lower(path) !in r.values
  {
    var k := Lower(path);
    var t1 := RecRemove(t, k);
    DirnameOfRoot();
    Unlink(t1, k)
  }

  // ---------------------------------------------------------------------
  // full_info? (lib/droxi/cache.rb:28-32)
  // ---------------------------------------------------------------------

  predicate FullInfoIn(t: Table, path: string, requireContents: bool)
    ensures Lower(path) !in t.values ==> !FullInfoIn(t, path, requireContents)
    ensures Lower(path) in t.values && (!requireContents || !t.values[Lower(path)].info.isDir) ==>
              FullInfoIn(t, path, requireContents)
    ensures FullInfoIn(t, path, requireContents) && requireContents && t.values[Lower(path)].info.isDir ==>
              t.values[Lower(path)].contents.Some?
  {
    var k := Lower(path);
    k in t.values && (!requireContents || !t.values[k].info.isDir || t.values[k].contents.Some?)
  }

  // ---------------------------------------------------------------------
  // The Cache object
  // ---------------------------------------------------------------------

  class Cache {
    var table: Table

    ghost predicate Valid()
      reads this
    {
      ValidTable(table)
    }

    constructor ()
      ensures Valid() && table.values == map[] && table.keys == []
    {
      table := Empty();
    }

    /** `Hash#[]`: the entry under a key, as given. */
    function Lookup(key: string): (r: Option<Entry>)
      reads this
      ensures r.Some? <==> key in table.values
      ensures r.Some? ==> r.value == table.values[key]
    {
      Get(table, key)
    }

    /** `full_info?(path, require_contents)`. */
    function FullInfo(path: string, requireContents: bool): (r: bool)
      reads this
      ensures r <==> FullInfoIn(table, path, requireContents)
    {
      FullInfoIn(table, path, requireContents)
    }

    /** `add(metadata)`. */
    method Add(m: Metadata)
      requires Valid() && WellFormed(m)
      modifies this
      ensures Valid()
      ensures table == AddSpec(old(table), m)
      decreases m, 1
    {
      ChildrenLonger(m);
      table := Store(table, Lower(m.info.path), EntryOf(m));
      LinkToParent(m);
      if m.contents.Listed? {
        var items := m.contents.items;
        var i := 0;
        while i < |items|
          invariant 0 <= i <= |items|
          invariant Valid()
          invariant AddAll(table, items[i..]) == AddSpec(old(table), m)
        {
          ghost var before := table;
          AddAllStep(before, items, i);
          Add(items[i]);
          i := i + 1;
        }
      }
    }

    /** The part of `add` that appends the record to its parent's 'contents',
        when the parent is cached with a list that does not hold it yet. */
    method LinkToParent(m: Metadata)
      requires Valid() && IsAbsolute(m.info.path)
      modifies this
      ensures Valid()
      ensures table == Link(old(table), m)
      decreases m, 0
    {
      LinkValid(table, m);
      var k := Lower(m.info.path);
      var parent := Dirname(k);
      if parent != k {
        var e := Get(table, parent);
        if e.Some? && e.value.contents.Some? && m.info !in e.value.contents.value {
          table := Store(table, parent, Entry(e.value.info, Some(e.value.contents.value + [m.info])));
        }
      }
    }

    /** The private `recursive_remove(path)`. */
    method RecursiveRemove(path: string)
      requires Valid()
      modifies this
      ensures Valid()
      ensures table == RecRemove(old(table), Lower(path))
      decreases |Longer(table, Lower(path))|, if Lower(path) in table.values then 2 else 0
    {
      var k := Lower(path);
      var e := Get(table, k);
      if e.Some? && e.value.contents.Some? {
        var items := e.value.contents.value;
        var i := 0;
        while i < |items|
          invariant 0 <= i <= |items|
          invariant Valid() && SubTable(table, old(table))
          invariant RecRemoveAll(table, k, items[i..]) == RecRemoveAll(old(table), k, items)
        {
          DropOne(items, i);
          MeasureDrops(old(table), table, k, InfoKey(items[i]));
          RecursiveRemove(items[i].path);
          i := i + 1;
        }
      }
      table := Hashes.Remove(table, k);
    }

    /** `remove(path)`. */
    method Remove(path: string)
      requires Valid()
      modifies this
      ensures Valid()
      ensures table == RemoveSpec(old(table), path)
    {
      var k := Lower(path);
      LowerIdempotent(path);
      RecursiveRemove(k);
      var d := Dirname(k);
      var e := Get(table, d);
      if e.Some? && e.value.contents.Some? {
        table := Store(table, d, Entry(e.value.info, Some(DropKey(e.value.contents.value, k))));
      }
    }

    /** `Hash#[]=` as the commands use it: store an entry under a key, no linking. */
    method Put(key: string, e: Entry)
      requires Valid() && LinksLonger(key, e)
      modifies this
      ensures Valid()
      ensures table == Store(old(table), key, e)
    {
      table := Store(table, key, e);
    }

    /** `Hash#delete` as the commands use it: drop one key, no unlinking. */
    method Delete(key: string)
      requires Valid()
      modifies this
      ensures Valid()
      ensures table == Hashes.Remove(old(table), key)
    {
      table := Hashes.Remove(table, key);
    }

    /** `Hash#clear`. */
    method Clear()
      modifies this
      ensures Valid() && table.values == map[] && table.keys == []
    {
      table := Empty();
    }
  }
}
