/**
 * The subset of a Redis server that the cache handler uses: one keyspace in which
 * every key holds either a string value or a set of strings, and the five commands
 * GET, SET, SADD, SMEMBERS and DEL. The string values are kept already decoded
 * (type parameter `V`), so no serialisation is modelled.
 */
module Redis {
  import opened Wrappers

  /** An abstract snapshot of the keyspace: the string-valued keys and the set-valued keys. */
  datatype Keyspace<V> = Keyspace(strings: map<string, V>, sets: map<string, set<string>>)
  {
    /** Redis keeps one value per key, so no key is both a string and a set. */
    predicate Valid() {
      strings.Keys !! sets.Keys
    }
  }

  /** The members of the set at `key`; an absent key reads as the empty set, as SMEMBERS does. */
  function Members<V>(ks: Keyspace<V>, key: string): set<string> {
    if key in ks.sets then ks.sets[key] else {}
  }

  /** SET: `key` now holds the string `v`, whatever it held before. */
  function SetKey<V>(ks: Keyspace<V>, key: string, v: V): Keyspace<V> {
    Keyspace(ks.strings[key := v], ks.sets - {key})
  }

  /** SADD: adds `m` to the set at `key`, creating it; a string at `key` makes the command fail and changes nothing. */
  function AddMember<V>(ks: Keyspace<V>, key: string, m: string): Keyspace<V> {
    if key in ks.strings then ks
    else Keyspace(ks.strings, ks.sets[key := Members(ks, key) + {m}])
  }

  /** DEL: removes `key`, whatever it holds; deleting an absent key changes nothing. */
  function DelKey<V>(ks: Keyspace<V>, key: string): Keyspace<V> {
    Keyspace(ks.strings - {key}, ks.sets - {key})
  }

  /** Adding a member a set already holds leaves the keyspace as it was. */
  lemma AddMemberIdempotent<V>(ks: Keyspace<V>, key: string, m: string)
    requires m in Members(ks, key)
    ensures AddMember(ks, key, m) == ks
  {
    assert key in ks.sets;
    if key !in ks.strings {
      assert ks.sets[key] + {m} == ks.sets[key];
      assert ks.sets[key := ks.sets[key]] == ks.sets;
    }
  }

  /** Deleting a key that is absent leaves the keyspace as it was. */
  lemma DelAbsentKey<V>(ks: Keyspace<V>, key: string)
    requires key !in ks.strings && key !in ks.sets
    ensures DelKey(ks, key) == ks
  {
    assert ks.strings - {key} == ks.strings;
    assert ks.sets - {key} == ks.sets;
  }

  /** A connected Redis server, updated in place by each command. */
  class RedisStore<V> {
    var strings: map<string, V>
    var sets: map<string, set<string>>

    ghost predicate Valid()
      reads this
    {
      State().Valid()
    }

    /** The current contents of the keyspace. */
    function State(): Keyspace<V>
      reads this
    {
      Keyspace(strings, sets)
    }

    /** An empty server. */
    constructor ()
      ensures Valid() && State() == Keyspace(map[], map[])
    {
      strings := map[];
      sets := map[];
    }

    /** GET: the string at `key`, absent when the key is missing, WRONGTYPE when it holds a set. */
    method Get(key: string) returns (r: Result<Option<V>>)
      requires Valid()
      ensures r.Err? <==> key in sets
      ensures r == Ok(None) <==> key !in strings && key !in sets
      ensures r.Ok? && r.value.Some? ==> key in strings && r.value.value == strings[key]
    {
      if key in sets {
        r := Err(WrongType);
      } else if key in strings {
        r := Ok(Some(strings[key]));
      } else {
        r := Ok(None);
      }
    }

    /** SET: overwrites `key` with the string `v`. */
    method Set(key: string, v: V)
      requires Valid()
      modifies this
      ensures Valid()
      ensures State() == SetKey(old(State()), key, v)
    {
      strings := strings[key := v];
      sets := sets - {key};
    }

    /** SADD: adds `m` to the set at `key` and replies with the number of members added (0 or 1). */
    method SAdd(key: string, m: string) returns (r: Result<nat>)
      requires Valid()
      modifies this
      ensures Valid()
      ensures State() == AddMember(old(State()), key, m)
      ensures r.Err? <==> key in old(strings)
      ensures r.Ok? ==> r.value == if m in Members(old(State()), key) then 0 else 1
    {
      if key in strings {
        r := Err(WrongType);
      } else {
        var before := Members(State(), key);
        sets := sets[key := before + {m}];
        r := Ok(if m in before then 0 else 1);
      }
    }

    /**
     * SMEMBERS: every member of the set at `key` exactly once, in an order the server
     * chooses; an absent key replies with no members, a string at `key` with WRONGTYPE.
     */
    method SMembers(key: string) returns (r: Result<seq<string>>)
      requires Valid()
      ensures r.Err? <==> key in strings
      ensures r.Ok? ==> (forall m :: m in r.value <==> m in Members(State(), key))
      ensures r.Ok? ==> forall i, j :: 0 <= i < j < |r.value| ==> r.value[i] != r.value[j]
    {
      if key in strings {
        return Err(WrongType);
      }
      var rest := Members(State(), key);
      var keys: seq<string> := [];
      while rest != {}
        invariant forall m :: m in Members(State(), key) <==> m in keys || m in rest
        invariant forall m :: m in keys ==> m !in rest
        invariant forall i, j :: 0 <= i < j < |keys| ==> keys[i] != keys[j]
        decreases rest
      {
        var m :| m in rest;
        keys := keys + [m];
        rest := rest - {m};
      }
      r := Ok(keys);
    }

    /** DEL: removes `key` and replies with the number of keys removed (0 or 1). */
    method Del(key: string) returns (n: nat)
      requires Valid()
      modifies this
      ensures Valid()
      ensures State() == DelKey(old(State()), key)
      ensures n == if key in old(strings) || key in old(sets) then 1 else 0
    {
      n := if key in strings || key in sets then 1 else 0;
      strings := strings - {key};
      sets := sets - {key};
    }
  }
}
