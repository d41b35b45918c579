/**
 * Ruby's `Hash` keeps its keys in insertion order: storing under a present
 * key keeps its place, storing under a new key appends it, and deleting a key
 * drops it from the order. The cache and the settings store both depend on that
 * order (directory listings, the lines written by `save`), so the model keeps it.
 */
module Hashes {
  import opened Wrappers

  datatype Hash<V> = Hash(keys: seq<string>, values: map<string, V>)

  /** The key order lists every key exactly once. */
  ghost predicate Ok<V>(h: Hash<V>) {
    && (forall i, j :: 0 <= i < j < |h.keys| ==> h.keys[i] != h.keys[j])
    && (forall k :: k in h.keys <==> k in h.values)
  }

  function Empty<V>(): (h: Hash<V>)
    ensures Ok(h) && h.values == map[]
  {
    Hash([], map[])
  }

  /** `Hash#fetch(k, nil)`. */
  function Get<V>(h: Hash<V>, k: string): (r: Option<V>)
    ensures r.Some? <==> k in h.values
    ensures r.Some? ==> r.value == h.values[k]
  {
    if k in h.values then Some(h.values[k]) else None
  }

  /** `Hash#store(k, v)` / `Hash#[]=`. */
  function Store<V>(h: Hash<V>, k: string, v: V): (r: Hash<V>)
    ensures r.values == h.values[k := v]
    ensures k in h.values ==> r.keys == h.keys
    ensures k !in h.values ==> r.keys == h.keys + [k]
    ensures Ok(h) ==> Ok(r)
  {
    Hash(if k in h.values then h.keys else h.keys + [k], h.values[k := v])
  }

  /** The key sequence without `k`, order kept. */
  function Without(s: seq<string>, k: string): (r: seq<string>)
    ensures forall x :: x in r <==> x in s && x != k
    ensures |r| <= |s|
    ensures (forall i, j :: 0 <= i < j < |s| ==> s[i] != s[j]) ==>
              (forall i, j :: 0 <= i < j < |r| ==> r[i] != r[j])
  {
    if s == [] then []
    else if s[0] == k then Without(s[1..], k)
    else
      var t := Without(s[1..], k);
      assert (forall i, j :: 0 <= i < j < |s| ==> s[i] != s[j]) ==> s[0] !in s[1..];
      [s[0]] + t
  }

  /** `Hash#delete(k)`. */
  function Remove<V>(h: Hash<V>, k: string): (r: Hash<V>)
    ensures r.values == h.values - {k}
    ensures Ok(h) ==> Ok(r)
  {
    Hash(Without(h.keys, k), h.values - {k})
  }
}
