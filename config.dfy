/**
 * The persistent settings store of lib/droxi/settings.rb: an insertion-ordered
 * Hash of setting names to values with a dirty flag, filled from the rc file
 * by `read` and written back by `save`. The file itself is outside the model:
 * `read` takes the file's text (or `None` when the file does not exist) and
 * `save` returns the text it would write.
 */
module Config {
  import opened Wrappers
  import opened Strings
  import opened Hashes

  /** The setting names `parse` accepts (lib/droxi/settings.rb:61). */
  const Allowed: set<string> := {"access_token", "oldpwd"}

  // ---------------------------------------------------------------------
  // parse (lib/droxi/settings.rb:58-69)
  // ---------------------------------------------------------------------

  /** Index of the first `=` at or after index 1, the end of the lazy `(.+?)`. */
  function FirstEq(line: string): (r: Option<nat>)
    ensures r.Some? ==> 1 <= r.value < |line| && line[r.value] == '='
    ensures r.Some? ==> forall j :: 1 <= j < r.value ==> line[j] != '='
    ensures r.None? ==> forall j :: 1 <= j < |line| ==> line[j] != '='
  {
    IndexFrom(line, '=', 1)
  }

  /** The match of `/^(.+?)=(.+)$/` on a line holding no newline: the
      non-empty text before the first `=` past the first character, and the
      non-empty rest. */
  function SplitSetting(line: string): (r: Option<(string, string)>)
    ensures r.Some? ==> r.value.0 != [] && r.value.1 != [] && line == r.value.0 + "=" + r.value.1
    ensures r.Some? ==> forall j :: 1 <= j < |r.value.0| ==> r.value.0[j] != '='
  {
    match FirstEq(line)
    case None => None
    case Some(i) => if i + 1 < |line| then Some((line[..i], line[i + 1..])) else None
  }

  /** `Settings.parse(line)`: `{key => value}` as `Some((key, value))`, `{}` as `None`. */
  function Parse(line: string, allowed: set<string>): (r: Option<(string, string)>)
    ensures r.Some? ==> r.value.0 in allowed && r.value.1 != [] && line == r.value.0 + "=" + r.value.1
  {
    match SplitSetting(line)
    case Some((k, v)) => if k in allowed then Some((k, v)) else None
    case None => None
  }

  predicate NoEq(s: string) {
    forall j :: 0 <= j < |s| ==> s[j] != '='
  }

  /** Setting names that a `k=v` line carries unambiguously through `strip` and `parse`. */
  predicate GoodNames(allowed: set<string>) {
    forall a :: a in allowed ==> a != [] && NoEq(a) && !StripChar(a[0]) && '\n' !in a
  }

  lemma AllowedGood()
    ensures GoodNames(Allowed)
  {
    assert "access_token"[0] == 'a' && "oldpwd"[0] == 'o';
    assert NoEq("access_token") && NoEq("oldpwd");
  }

  /** For setting names free of `=`, a line parses to `(k, v)` exactly when it is
      `k=v` with `k` allowed and `v` non-empty. */
  lemma ParseIff(line: string, allowed: set<string>, k: string, v: string)
    requires forall a :: a in allowed ==> a != [] && NoEq(a)
    ensures Parse(line, allowed) == Some((k, v)) <==> (k in allowed && v != [] && line == k + "=" + v)
  {
    if k in allowed && v != [] && line == k + "=" + v {
      assert line[|k|] == '=';
      assert forall j :: 1 <= j < |k| ==> line[j] == k[j];
      assert FirstEq(line) == Some(|k|);
      assert line[..|k|] == k && line[|k| + 1..] == v;
    }
  }

  // ---------------------------------------------------------------------
  // read (lib/droxi/settings.rb:72-80)
  // ---------------------------------------------------------------------

  predicate StripChar(c: char) {
    IsSpace(c) || c == 0 as char
  }

  /** `String#strip`: drop leading and trailing whitespace and NUL characters. */
  function Strip(s: string): (r: string)
    ensures |r| <= |s|
    ensures r != [] ==> !StripChar(r[0]) && !StripChar(r[|r| - 1])
    decreases |s|
  {
    if s == [] then s
    else if StripChar(s[0]) then Strip(s[1..])
    else if StripChar(s[|s| - 1]) then Strip(s[..|s| - 1])
    else s
  }

  /** The lines `each_line` yields, each without its `\n`. */
  function Lines(text: string): (r: seq<string>)
    ensures forall i :: 0 <= i < |r| ==> '\n' !in r[i]
    decreases |text|
  {
    if text == [] then []
    else match IndexFrom(text, '\n', 0)
      case None => [text]
      case Some(i) => [text[..i]] + Lines(text[i + 1..])
  }

  /** `a.merge(parse(line.strip))`: a later line overrides an earlier one. */
  function MergeLine(h: Hash<string>, line: string, allowed: set<string>): (r: Hash<string>)
    ensures Ok(h) ==> Ok(r)
  {
    match Parse(Strip(line), allowed)
    case Some((k, v)) => Store(h, k, v)
    case None => h
  }

  function MergeLines(h: Hash<string>, lines: seq<string>, allowed: set<string>): (r: Hash<string>)
    decreases lines
    ensures Ok(h) ==> Ok(r)
    ensures forall k :: k in r.values && k !in h.values ==> k in allowed
  {
    if lines == [] then h else MergeLines(MergeLine(h, lines[0], allowed), lines[1..], allowed)
  }

  /** `Settings.read`: the settings a file with the given text holds, `{}` for no file. */
  function ReadText(file: Option<string>, allowed: set<string>): (r: Hash<string>)
    ensures Ok(r)
    ensures forall k :: k in r.values ==> k in allowed
  {
    match file
    case None => Empty()
    case Some(text) => MergeLines(Empty(), Lines(text), allowed)
  }

  lemma {:induction false} MergeLinesAppend(h: Hash<string>, a: seq<string>, b: seq<string>, allowed: set<string>)
    ensures MergeLines(h, a + b, allowed) == MergeLines(MergeLines(h, a, allowed), b, allowed)
    decreases a
  {
    if a != [] {
      assert (a + b)[0] == a[0] && (a + b)[1..] == a[1..] + b;
      MergeLinesAppend(MergeLine(h, a[0], allowed), a[1..], b, allowed);
    } else {
      assert a + b == b;
    }
  }

  /** In `read`, a later line for a setting overrides whatever came before it. */
  lemma ReadLaterWins(h: Hash<string>, lines: seq<string>, k: string, v: string)
    requires k in Allowed && Storable(v)
    ensures var r := MergeLines(h, lines + [k + "=" + v], Allowed); k in r.values && r.values[k] == v
  {
    AllowedGood();
    MergeLinesAppend(h, lines, [k + "=" + v], Allowed);
    StripSetting(k, v);
    ParseIff(k + "=" + v, Allowed, k, v);
  }

  // ---------------------------------------------------------------------
  // save (lib/droxi/settings.rb:34-45)
  // ---------------------------------------------------------------------

  /** The `"k=v\n"` lines `save` writes, in key order. */
  function Serialise(keys: seq<string>, values: map<string, string>): (r: string)
    requires forall k :: k in keys ==> k in values
    ensures keys == [] <==> r == ""
    ensures keys != [] ==> |r| > |keys[0]| + |values[keys[0]]| + 1 && r[|r| - 1] == '\n'
  {
    if keys == [] then "" else keys[0] + "=" + values[keys[0]] + "\n" + Serialise(keys[1..], values)
  }

  function SaveText(h: Hash<string>): (r: string)
    requires Ok(h)
    ensures h.values == map[] <==> r == ""
    ensures r != "" ==> r[|r| - 1] == '\n'
  {
    Serialise(h.keys, h.values)
  }

  /** A value that survives being written and read back. */
  predicate Storable(v: string) {
    v != [] && '\n' !in v && !StripChar(v[|v| - 1])
  }

  lemma LinesCons(a: string, rest: string)
    requires '\n' !in a
    ensures Lines(a + "\n" + rest) == [a] + Lines(rest)
  {
    var text := a + "\n" + rest;
    assert text[|a|] == '\n';
    assert forall j :: 0 <= j < |a| ==> text[j] == a[j];
    assert IndexFrom(text, '\n', 0) == Some(|a|);
    assert text[..|a|] == a && text[|a| + 1..] == rest;
  }

  lemma StripSetting(k: string, v: string)
    requires k != [] && !StripChar(k[0]) && Storable(v)
    ensures Strip(k + "=" + v) == k + "=" + v
  {
    var s := k + "=" + v;
    assert s[0] == k[0] && s[|s| - 1] == v[|v| - 1];
  }

  /** The first `i` pairs of `h`, in its key order. */
  function Firsts(h: Hash<string>, i: nat): (r: Hash<string>)
    requires Ok(h) && i <= |h.keys|
    ensures r.keys == h.keys[..i]
  {
    Hash(h.keys[..i], map k | k in h.keys[..i] :: h.values[k])
  }

  /** Folding `Store` over a Hash's own pairs, in its key order, starting from `{}`
      rebuilds the Hash. */
  lemma {:induction false} StoreAll(h: Hash<string>, i: nat)
    requires Ok(h) && i <= |h.keys|
    ensures MergePairs(Firsts(h, i), h, i) == h
    decreases |h.keys| - i
  {
    if i < |h.keys| {
      StoreNext(h, i);
      StoreAll(h, i + 1);
    } else {
      FirstsAll(h);
    }
  }

  /** Storing pair `i` into the first `i` pairs gives the first `i + 1`. */
  lemma StoreNext(h: Hash<string>, i: nat)
    requires Ok(h) && i < |h.keys|
    ensures Store(Firsts(h, i), h.keys[i], h.values[h.keys[i]]) == Firsts(h, i + 1)
  {
    var k := h.keys[i];
    assert k !in h.keys[..i];
    assert h.keys[..i + 1] == h.keys[..i] + [k];
    MapSnoc(h.keys[..i], k, h.values);
  }

  /** Adding one more key to a map built over a list of keys. */
  lemma MapSnoc(ks: seq<string>, k: string, vals: map<string, string>)
    requires k !in ks && k in vals
    requires forall x :: x in ks ==> x in vals
    ensures (map x | x in ks :: vals[x])[k := vals[k]] == map x | x in ks + [k] :: vals[x]
  {
  }

  lemma FirstsAll(h: Hash<string>)
    requires Ok(h)
    ensures Firsts(h, |h.keys|) == h
  {
    assert h.keys[..|h.keys|] == h.keys;
  }

  lemma FirstsNone(h: Hash<string>)
    requires Ok(h)
    ensures Firsts(h, 0) == Empty()
  {
    assert h.keys[..0] == [];
  }

  /** Store the pairs of `h` from key index `i` on into `acc`. */
  function MergePairs(acc: Hash<string>, h: Hash<string>, i: nat): Hash<string>
    requires Ok(h) && i <= |h.keys|
    decreases |h.keys| - i
  {
    if i == |h.keys| then acc else MergePairs(Store(acc, h.keys[i], h.values[h.keys[i]]), h, i + 1)
  }

  /** Reading back the lines `save` writes for the keys from index `i` on
      stores those pairs in key order. */
  lemma {:induction false} ReadSerialised(h: Hash<string>, acc: Hash<string>, i: nat)
    requires Ok(h) && i <= |h.keys| && GoodNames(Allowed)
    requires forall k :: k in h.values ==> k in Allowed && Storable(h.values[k])
    ensures MergeLines(acc, Lines(Serialise(h.keys[i..], h.values)), Allowed) == MergePairs(acc, h, i)
    decreases |h.keys| - i
  {
    if i < |h.keys| {
      var k := h.keys[i];
      var v := h.values[k];
      var line := k + "=" + v;
      var rest := Serialise(h.keys[i + 1..], h.values);
      DropOne(h.keys, i);
      assert Serialise(h.keys[i..], h.values) == line + "\n" + rest;
      assert line == k + ("=" + v);
      LinesCons(line, rest);
      StripSetting(k, v);
      ParseIff(line, Allowed, k, v);
      ReadSerialised(h, Store(acc, k, v), i + 1);
    } else {
      assert h.keys[i..] == [];
    }
  }

  /** `save` followed by `read` gives back the settings, order included, when
      every name is allowed and every value is storable. */
  lemma SaveReadRoundTrip(h: Hash<string>)
    requires Ok(h)
    requires forall k :: k in h.values ==> k in Allowed && Storable(h.values[k])
    ensures ReadText(Some(SaveText(h)), Allowed) == h
  {
    AllowedGood();
    ReadSerialised(h, Empty(), 0);
    assert h.keys[0..] == h.keys;
    FirstsNone(h);
    StoreAll(h, 0);
  }

  // ---------------------------------------------------------------------
  // The Settings store
  // ---------------------------------------------------------------------

  class Settings {
    var store: Hash<string>
    var dirty: bool

    ghost predicate Valid()
      reads this
    {
      Ok(store)
    }

    /** `@@settings = read` and `@@dirty = false`, `file` being the rc file's text. */
    constructor (file: Option<string>)
      ensures Valid()
      ensures store == ReadText(file, Allowed) && !dirty
    {
      store := ReadText(file, Allowed);
      dirty := false;
    }

    /** `Settings[key]`. */
    function Get(key: string): (r: Option<string>)
      reads this
      ensures r.Some? <==> key in store.values
      ensures r.Some? ==> r.value == store.values[key]
    {
      Hashes.Get(store, key)
    }

    /** `Settings.include?(key)`. */
    predicate Include(key: string)
      reads this
    {
      key in store.values
    }

    /** `Settings[key] = value`: stores and marks dirty only when the value changes. */
    method Set(key: string, value: string)
      requires Valid()
      modifies this
      ensures Valid()
      ensures Get(key) == Some(value)
      ensures store.values == old(store.values)[key := value]
      ensures old(Get(key)) != Some(value) ==> store == Store(old(store), key, value) && dirty
      ensures old(Get(key)) == Some(value) ==> store == old(store) && dirty == old(dirty)
    {
      if Hashes.Get(store, key) != Some(value) {
        dirty := true;
        store := Store(store, key, value);
      }
    }

    /** `Settings.delete(key)`: the removed value, or `None` (and no change) when absent. */
    method Delete(key: string) returns (r: Option<string>)
      requires Valid()
      modifies this
      ensures Valid()
      ensures r == old(Get(key))
      ensures key !in store.values
      ensures r.Some? ==> store == Hashes.Remove(old(store), key) && dirty
      ensures r.None? ==> store == old(store) && dirty == old(dirty)
    {
      r := Hashes.Get(store, key);
      if r.Some? {
        dirty := true;
        store := Hashes.Remove(store, key);
      }
    }

    /** `Settings.save`: when dirty, clears the flag and returns the text written
        to the rc file; otherwise writes nothing. */
    method Save() returns (written: Option<string>)
      requires Valid()
      modifies this
      ensures Valid() && !dirty && store == old(store)
      ensures old(dirty) ==> written == Some(SaveText(store))
      ensures !old(dirty) ==> written.None?
    {
      if dirty {
        dirty := false;
        written := Some(SaveText(store));
      } else {
        written := None;
      }
    }
  }
}
