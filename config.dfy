/** Application configuration: a nested dictionary loaded from YAML, adjusted by
    environment variables, and read through dot-separated keys. */
module Config {
  import opened Wrappers
  import opened Text

  /** A YAML value: nested dictionaries, scalars, lists and `null`. */
  datatype Value = Dict(entries: map<string, Value>) | Str(s: string) | Int(i: int) | Bool(b: bool)
                 | List(items: seq<Value>) | Null

  /** One step of the dotted walk: `value.get(k)` on a dictionary, `None` for
      a missing key. */
  function Child(v: Value, k: string): Value
    requires v.Dict?
  {
    if k in v.entries then v.entries[k] else Null
  }

  /** The value the walk over `keys` ends at, or `default` as soon as a step
      starts from something that is not a dictionary or reaches `null`. */
  function Walk(v: Value, keys: seq<string>, default: Value): (r: Value)
    ensures r == default || r == v || !r.Null?
  {
    if |keys| == 0 then v
    else if !v.Dict? then default
    else
      var next := Child(v, keys[0]);
      if next.Null? then default else Walk(next, keys[1..], default)
  }

  /** `get(key, default)` on a configuration `cfg`. */
  function Lookup(cfg: map<string, Value>, key: string, default: Value): Value {
    Walk(Dict(cfg), Split(key, '.'), default)
  }

  /** A key without a dot reads the top level: the stored value when it is
      present and not `null` (falsy values such as 0, "" and false included),
      the default otherwise. */
  lemma LookupTopLevel(cfg: map<string, Value>, key: string, default: Value)
    requires '.' !in key
    ensures key in cfg && !cfg[key].Null? ==> Lookup(cfg, key, default) == cfg[key]
    ensures (key !in cfg || cfg[key].Null?) ==> Lookup(cfg, key, default) == default
  {
    var top := Dict(cfg);
    assert Split(key, '.') == [key];
    assert Lookup(cfg, key, default) == Walk(top, [key], default);
    assert [key][1..] == [];
    if key in cfg && !cfg[key].Null? {
      assert Child(top, key) == cfg[key];
      assert Walk(top, [key], default) == Walk(cfg[key], [], default);
    }
  }

  /** "a.b" reads entry b of section a when a holds a dictionary, and gives the
      default when a is missing, `null` or a scalar. */
  lemma LookupNested(cfg: map<string, Value>, a: string, b: string, default: Value)
    requires '.' !in a && '.' !in b
    ensures a in cfg && cfg[a].Dict? && b in cfg[a].entries && !cfg[a].entries[b].Null? ==>
              Lookup(cfg, a + "." + b, default) == cfg[a].entries[b]
    ensures (a !in cfg || !cfg[a].Dict?) ==> Lookup(cfg, a + "." + b, default) == default
  {
    var key := a + "." + b;
    assert key[..|a|] == a;
    assert key[|a|] == '.';
    assert IndexOf(key, '.') == Some(|a|);
    assert key[|a| + 1..] == b;
    assert Split(b, '.') == [b];
    var parts := Split(key, '.');
    assert parts == [a, b];
    assert parts[1..] == [b] && parts[1..][1..] == [];
    var top := Dict(cfg);
    assert Lookup(cfg, key, default) == Walk(top, [a, b], default);
    if a in cfg && cfg[a].Dict? && b in cfg[a].entries && !cfg[a].entries[b].Null? {
      assert Child(top, a) == cfg[a];
      assert Walk(top, [a, b], default) == Walk(cfg[a], [b], default);
      assert Child(cfg[a], b) == cfg[a].entries[b];
      assert Walk(cfg[a], [b], default) == Walk(cfg[a].entries[b], [], default);
    }
    if a !in cfg || cfg[a].Null? {
      assert Child(top, a).Null?;
    } else if !cfg[a].Dict? {
      assert Walk(top, [a, b], default) == Walk(cfg[a], [b], default);
    }
  }

  /** The four named sections the services read. */
  const Sections: set<string> := {"discovery", "download", "database", "logging"}

  /** `config.setdefault(section, {})[key] = val`, or `None` for the TypeError
      raised when the section holds something other than a dictionary. */
  function SetInSection(cfg: map<string, Value>, section: string, key: string, val: Value): (r: Option<map<string, Value>>)
    ensures r.None? <==> section in cfg && !cfg[section].Dict?
    ensures r.Some? ==> r.value.Keys == cfg.Keys + {section}
    ensures r.Some? ==> forall s :: s in cfg && s != section ==> r.value[s] == cfg[s]
    ensures r.Some? && section in cfg ==> r.value[section] == Dict(cfg[section].entries[key := val])
    ensures r.Some? && section !in cfg ==> r.value[section] == Dict(map[key := val])
  {
    if section !in cfg then Some(cfg[section := Dict(map[key := val])])
    else if cfg[section].Dict? then Some(cfg[section := Dict(cfg[section].entries[key := val])])
    else None
  }

  /** One environment override: applied only when the variable is set and
      non-empty. */
  function Override(cfg: map<string, Value>, env: map<string, string>, variable: string,
                    section: string, key: string): (r: Option<map<string, Value>>)
    ensures (variable !in env || env[variable] == "") ==> r == Some(cfg)
  {
    if variable in env && env[variable] != "" then SetInSection(cfg, section, key, Str(env[variable]))
    else Some(cfg)
  }

  class Configuration {
    var config: map<string, Value>

    /** The loaded YAML (an empty document is an empty dictionary). */
    constructor (loaded: map<string, Value>)
      ensures config == loaded
    {
      config := loaded;
    }

    /** DATABASE_URL, LOG_LEVEL and OUTPUT_DIRECTORY, in that order, each
        overriding one key of one section. `ok` is false when an override
        raised, which ends the sequence. */
    method ApplyEnvOverrides(env: map<string, string>) returns (ok: bool)
      modifies this
      ensures var s1 := Override(old(config), env, "DATABASE_URL", "database", "path");
              var s2 := if s1.Some? then Override(s1.value, env, "LOG_LEVEL", "logging", "level") else None;
              var s3 := if s2.Some? then Override(s2.value, env, "OUTPUT_DIRECTORY", "download", "output_directory") else None;
              ok == s3.Some? && (ok ==> config == s3.value)
    {
      var step := Override(config, env, "DATABASE_URL", "database", "path");
      if step.None? { return false; }
      config := step.value;
      step := Override(config, env, "LOG_LEVEL", "logging", "level");
      if step.None? { return false; }
      config := step.value;
      step := Override(config, env, "OUTPUT_DIRECTORY", "download", "output_directory");
      if step.None? { return false; }
      config := step.value;
      return true;
    }

    /** `config.<section>`: the stored section, or an empty dictionary when the
        section is absent. */
    function Section(name: string): (r: Value)
      requires name in Sections
      reads this
      ensures name !in config ==> r == Dict(map[])
      ensures name in config ==> r == config[name]
    {
      if name in config then config[name] else Dict(map[])
    }

    /** `get(key, default)`: walks the dot-separated parts of `key` one
        dictionary at a time. */
    method Get(key: string, default: Value) returns (r: Value)
      ensures r == Lookup(config, key, default)
      ensures r == default || !r.Null?
    {
      var keys := Split(key, '.');
      var value := Dict(config);
      var i := 0;
      while i < |keys|
        invariant 0 <= i <= |keys|
        invariant Walk(value, keys[i..], default) == Lookup(config, key, default)
        invariant value == Dict(config) || !value.Null?
      {
        if !value.Dict? {
          return default;
        }
        value := Child(value, keys[i]);
        if value.Null? {
          return default;
        }
        i := i + 1;
      }
      assert keys[i..] == [];
      return value;
    }
  }
}
