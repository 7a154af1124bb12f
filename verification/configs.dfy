/** The current configuration: a string-to-string map with lookup, a merge in
    which the receiver wins, and in-place `set` / `remove`; plus the
    default written when no global configuration exists yet. */
module Configs {
  import opened Wrappers
  import Java

  datatype Config = Config(entries: map<string, string>)

  /** `Config::get`. */
  function Get(c: Config, key: string): (r: Option<string>)
    ensures r.Some? <==> key in c.entries
    ensures r.Some? ==> r.value == c.entries[key]
  {
    if key in c.entries then Some(c.entries[key]) else None
  }

  /** `Config::new`: the map is taken as it is. */
  function New(m: map<string, string>): (c: Config)
    ensures forall k :: Get(c, k).Some? <==> k in m
    ensures forall k :: k in m ==> Get(c, k) == Some(m[k])
  {
    Config(m)
  }

  /** `Config::empty`: no key is present. */
  function Empty(): (c: Config)
    ensures forall k :: Get(c, k) == None
  {
    Config(map[])
  }

  /** `self.merge(other)`: every key of either side, and on a key both have
      the value of `self`. */
  function Merge(self: Config, other: Config): (r: Config)
    ensures r.entries.Keys == self.entries.Keys + other.entries.Keys
    ensures forall k :: Get(self, k).Some? ==> Get(r, k) == Get(self, k)
    ensures forall k :: Get(self, k).None? ==> Get(r, k) == Get(other, k)
  {
    Config(other.entries + self.entries)
  }

  /** `ConfigMut::set`: the key now reads `value`; every other key reads as
      before. */
  function Set(c: Config, key: string, value: string): (r: Config)
    ensures Get(r, key) == Some(value)
    ensures forall k :: k != key ==> Get(r, k) == Get(c, k)
  {
    Config(c.entries[key := value])
  }

  /** `ConfigMut::remove`: the key is gone; every other key reads as
      before. */
  function Remove(c: Config, key: string): (r: Config)
    ensures Get(r, key) == None
    ensures forall k :: k != key ==> Get(r, k) == Get(c, k)
  {
    Config(c.entries - {key})
  }

  /** Two configurations that read the same on every key are equal. */
  lemma Extensionality(a: Config, b: Config)
    requires forall k :: Get(a, k) == Get(b, k)
    ensures a == b
  {
    assert a.entries.Keys == b.entries.Keys by {
      forall k ensures k in a.entries <==> k in b.entries {
        assert Get(a, k) == Get(b, k);
      }
    }
    forall k | k in a.entries ensures a.entries[k] == b.entries[k] {
      assert Get(a, k) == Get(b, k);
    }
  }

  /** Merging with an empty `other` gives `self`, and an empty `self`
      merged into `other` gives `other`. */
  lemma MergeEmpty(c: Config)
    ensures Merge(c, Empty()) == c
    ensures Merge(Empty(), c) == c
  {
    Extensionality(Merge(c, Empty()), c);
    Extensionality(Merge(Empty(), c), c);
  }

  /** Merging is associative and idempotent, so layering several
      configurations needs no parentheses. */
  lemma MergeAssociative(a: Config, b: Config, c: Config)
    ensures Merge(Merge(a, b), c) == Merge(a, Merge(b, c))
    ensures Merge(a, a) == a
  {
    Extensionality(Merge(Merge(a, b), c), Merge(a, Merge(b, c)));
    Extensionality(Merge(a, a), a);
  }

  /** A later `set` of a key overrides an earlier one, and `remove` undoes
      any `set` of the same key. */
  lemma SetRemoveLaws(c: Config, key: string, v: string, w: string)
    ensures Set(Set(c, key, v), key, w) == Set(c, key, w)
    ensures Remove(Set(c, key, v), key) == Remove(c, key)
    ensures Get(c, key) == Some(v) ==> Set(c, key, v) == c
  {
    Extensionality(Set(Set(c, key, v), key, w), Set(c, key, w));
    Extensionality(Remove(Set(c, key, v), key), Remove(c, key));
    if Get(c, key) == Some(v) {
      Extensionality(Set(c, key, v), c);
    }
  }

  /** The keys of the default configuration. */
  const DefaultKeys: set<string> := {"min_ram", "max_ram", "auth_player_name", "auth_access_token", "current_java_path"}

  /** `Config::create_default`: fails with a not-found I/O error when no Java
      installation is known; otherwise exactly the five default keys, with
      the newest Java as `current_java_path`. */
  function CreateDefault(javas: Java.JavaManager): (r: Result<Config, Error>)
    ensures Java.Latest(javas).None? <==> r.Err?
    ensures r.Err? ==> r.error == Io("No Java found")
    ensures r.Ok? ==> r.value.entries.Keys == DefaultKeys
    ensures r.Ok? ==> Get(r.value, "min_ram") == Some("512") && Get(r.value, "max_ram") == Some("2048")
    ensures r.Ok? ==> Get(r.value, "auth_player_name") == Some("dev") && Get(r.value, "auth_access_token") == Some("0")
    ensures r.Ok? ==> Get(r.value, "current_java_path") == Some(Java.Latest(javas).value.path)
  {
    match Java.Latest(javas)
    case None => Err(Io("No Java found"))
    case Some(java) =>
      Ok(Config(map[
        "min_ram" := "512",
        "max_ram" := "2048",
        "auth_player_name" := "dev",
        "auth_access_token" := "0",
        "current_java_path" := java.path]))
  }
}
