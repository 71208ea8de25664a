/** A persisted key/value configuration with a table of defaults (`ExtConfig`).
    Writing the file is left out: `Update` is an in-memory write. */
module Config {

  /** What `sync` makes of a configuration: exactly the default keys, each keeping
      its present value when it has one and taking the default otherwise. */
  function Synced<V>(config: map<string, V>, defaults: map<string, V>): (r: map<string, V>)
    ensures r.Keys == defaults.Keys
    ensures forall k :: k in defaults && k in config ==> r[k] == config[k]
    ensures forall k :: k in defaults && k !in config ==> r[k] == defaults[k]
  {
    map k | k in defaults :: if k in config then config[k] else defaults[k]
  }

  /** Synchronising twice is synchronising once. */
  lemma SyncedIdempotent<V>(config: map<string, V>, defaults: map<string, V>)
    ensures Synced(Synced(config, defaults), defaults) == Synced(config, defaults)
  {
  }

  /** A configuration that already has exactly the default keys is left alone. */
  lemma SyncedFixesComplete<V>(config: map<string, V>, defaults: map<string, V>)
    requires config.Keys == defaults.Keys
    ensures Synced(config, defaults) == config
  {
  }

  class ExtConfig<V> {
    const defaults: map<string, V>
    var config: map<string, V>

    /** A configuration loaded with `stored` as its current contents. */
    constructor(defaults: map<string, V>, stored: map<string, V>)
      ensures this.defaults == defaults && config == stored
    {
      this.defaults := defaults;
      config := stored;
    }

    /** `update(key=value)`. */
    method Update(key: string, value: V)
      modifies this
      ensures config == old(config)[key := value]
    {
      config := config[key := value];
    }

    /** `sync()`: add every missing default, then drop every key that is not a
        default. */
    method Sync()
      modifies this
      ensures config == Synced(old(config), defaults)
    {
      ghost var start := config;
      var todo := defaults.Keys;
      while todo != {}
        invariant todo <= defaults.Keys
        invariant config.Keys == start.Keys + (defaults.Keys - todo)
        invariant forall k :: k in start ==> config[k] == start[k]
        invariant forall k :: k in defaults.Keys - todo && k !in start ==> config[k] == defaults[k]
        decreases todo
      {
        var k :| k in todo;
        if k !in config {
          Update(k, defaults[k]);
        }
        todo := todo - {k};
      }
      ghost var filled := config;

      var remove: seq<string> := [];
      var rest := config.Keys;
      while rest != {}
        invariant rest <= config.Keys
        invariant config == filled
        invariant forall i, j :: 0 <= i < j < |remove| ==> remove[i] != remove[j]
        invariant forall k :: k in remove <==> k in config.Keys - rest && k !in defaults
        decreases rest
      {
        var k :| k in rest;
        if k !in defaults {
          remove := remove + [k];
        }
        rest := rest - {k};
      }

      if |remove| > 0 {
        for i := 0 to |remove|
          invariant forall k :: k in config <==> k in filled && k !in remove[..i]
          invariant forall k :: k in config ==> config[k] == filled[k]
        {
          assert remove[..i + 1] == remove[..i] + [remove[i]];
          config := config - {remove[i]};
        }
      }
      assert remove[..|remove|] == remove;
      assert forall k :: k in config <==> k in defaults;
      assert config.Keys == defaults.Keys;
    }
  }
}
