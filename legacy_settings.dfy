/**
 * The earlier, top-level settings.rb: the same store and dirty flag as
 * lib/droxi/settings.rb, but `parse` accepts only `access_token` and the file
 * is written by `write`, which returns nothing.
 */
module LegacySettings {
  import opened Wrappers
  import opened Hashes
  import Config

  /** The only setting name the legacy `parse` accepts (settings.rb:49). */
  const LegacyAllowed: set<string> := {"access_token"}

  /** The legacy `Settings.parse`: only `access_token=value` lines with a
      non-empty value yield a setting. */
  lemma ParseOnlyAccessToken(line: string, k: string, v: string)
    ensures Config.Parse(line, LegacyAllowed) == Some((k, v)) <==>
              (k == "access_token" && v != [] && line == k + "=" + v)
  {
    assert Config.NoEq("access_token");
    Config.ParseIff(line, LegacyAllowed, k, v);
  }

  /** An `oldpwd` line, accepted by the later parser, is rejected by this one. */
  lemma OldpwdRejected(v: string)
    requires v != []
    ensures Config.Parse("oldpwd=" + v, Config.Allowed) == Some(("oldpwd", v))
    ensures Config.Parse("oldpwd=" + v, LegacyAllowed) == None
  {
    Config.AllowedGood();
    Config.ParseIff("oldpwd=" + v, Config.Allowed, "oldpwd", v);
  }

  class Settings {
    var store: Hash<string>
    var dirty: bool

    ghost predicate Valid()
      reads this
    {
      Ok(store)
    }

    /** `@@settings = read` and `@@dirty = false`, `file` being the rc file's text. */
    constructor (file: Option<string>)
      ensures Valid()
      ensures store == Config.ReadText(file, LegacyAllowed) && !dirty
    {
      store := Config.ReadText(file, LegacyAllowed);
      dirty := false;
    }

    /** `Settings[key]` (settings.rb:6-8). */
    function Get(key: string): (r: Option<string>)
      reads this
      ensures r.Some? <==> key in store.values
      ensures r.Some? ==> r.value == store.values[key]
    {
      Hashes.Get(store, key)
    }

    /** `Settings.include?(key)` (settings.rb:17-19). */
    predicate Include(key: string)
      reads this
    {
      key in store.values
    }

    /** `Settings[key] = value` (settings.rb:10-15). */
    method Set(key: string, value: string)
      requires Valid()
      modifies this
      ensures Valid()
      ensures Get(key) == Some(value) && Include(key)
      ensures old(Get(key)) != Some(value) ==> store == Store(old(store), key, value) && dirty
      ensures old(Get(key)) == Some(value) ==> store == old(store) && dirty == old(dirty)
    {
      if Hashes.Get(store, key) != Some(value) {
        dirty := true;
        store := Store(store, key, value);
      }
    }

    /** `Settings.delete(key)` (settings.rb:21-26). */
    method Delete(key: string) returns (r: Option<string>)
      requires Valid()
      modifies this
      ensures Valid()
      ensures r == old(Get(key))
      ensures !Include(key) && Get(key).None?
      ensures r.Some? ==> store == Hashes.Remove(old(store), key) && dirty
      ensures r.None? ==> store == old(store) && dirty == old(dirty)
    {
      r := Hashes.Get(store, key);
      if r.Some? {
        dirty := true;
        store := Hashes.Remove(store, key);
      }
    }

    /** `Settings.write` (settings.rb:28-36): when dirty, clears the flag and
        returns the text written to the rc file. */
    method Write() returns (written: Option<string>)
      requires Valid()
      modifies this
      ensures Valid() && !dirty && store == old(store)
      ensures old(dirty) ==> written == Some(Config.SaveText(store))
      ensures !old(dirty) ==> written.None?
    {
      if dirty {
        dirty := false;
        written := Some(Config.SaveText(store));
      } else {
        written := None;
      }
    }
  }
}
