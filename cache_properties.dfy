/**
 * Properties of the cache handler's effect on the keyspace: what `set` writes and
 * indexes, what `revalidateTag` deletes, the invariant both keep, and idempotence.
 */
module CacheProperties {
  import opened Wrappers
  import opened Redis
  import opened CacheModel

  // ----- set -----

  /** The SADD loop never touches string values. */
  lemma {:induction false} IndexTagsKeepsStrings<V>(ks: Keyspace<V>, tags: seq<string>, key: string)
    ensures IndexTags(ks, tags, key).strings == ks.strings
    decreases |tags|
  {
    if tags != [] {
      IndexTagsKeepsStrings(ks, tags[..|tags| - 1], key);
    }
  }

  /** The sets of `ks` after `key` is added to the set at each of `setKeys`. */
  function Enrolled<V>(ks: Keyspace<V>, setKeys: set<string>, key: string): map<string, set<string>> {
    ks.sets + map s | s in setKeys :: Members(ks, s) + {key}
  }

  /** Adding `key` to one more set extends `Enrolled` by that set. */
  lemma EnrolledStep<V>(ks: Keyspace<V>, setKeys: set<string>, s0: string, key: string)
    ensures var e := Enrolled(ks, setKeys, key);
            e[s0 := (if s0 in e then e[s0] else {}) + {key}] == Enrolled(ks, setKeys + {s0}, key)
  {
    var e := Enrolled(ks, setKeys, key);
    var lhs := e[s0 := (if s0 in e then e[s0] else {}) + {key}];
    var rhs := Enrolled(ks, setKeys + {s0}, key);
    assert lhs.Keys == rhs.Keys;
    forall s | s in lhs ensures lhs[s] == rhs[s] {
      if s == s0 && s0 in setKeys {
        assert e[s0] == Members(ks, s0) + {key};
      }
    }
  }

  /** The set keys of `init + [t]` are those of `init` and that of `t`. */
  lemma TagKeysSnoc(init: seq<string>, t: string)
    ensures TagKeys(init + [t]) == TagKeys(init) + {TagKey(t)}
  {
    var tags := init + [t];
    forall s | s in TagKeys(tags) ensures s in TagKeys(init) + {TagKey(t)} {
      var u :| u in tags && s == TagKey(u);
      if u != t { assert u in init; }
    }
  }

  /** A tag's set key is among those of `tags` exactly when the tag is. */
  lemma TagKeysMember(tags: seq<string>, t: string)
    ensures TagKey(t) in TagKeys(tags) <==> t in tags
  {
    if TagKey(t) in TagKeys(tags) {
      var u :| u in tags && TagKey(t) == TagKey(u);
      TagKeyInjective(t, u);
    }
  }

  /**
   * The SADD loop, in one step: the set of every listed tag gains `key` (being created
   * if it was absent) and every other key keeps its value.
   */
  lemma {:induction false} IndexTagsClosedForm<V>(ks: Keyspace<V>, tags: seq<string>, key: string)
    requires forall t :: t in tags ==> TagKey(t) !in ks.strings
    ensures IndexTags(ks, tags, key) == Keyspace(ks.strings, Enrolled(ks, TagKeys(tags), key))
    decreases |tags|
  {
    if tags == [] {
      assert TagKeys(tags) == {};
      assert Enrolled(ks, {}, key) == ks.sets;
    } else {
      var init, t := tags[..|tags| - 1], tags[|tags| - 1];
      assert tags == init + [t];
      IndexTagsClosedForm(ks, init, key);
      TagKeysSnoc(init, t);
      EnrolledStep(ks, TagKeys(init), TagKey(t), key);
    }
  }

  /** `set`, in one step: the entry key is overwritten and the listed tags' sets gain `key`. */
  lemma WriteEntryClosedForm<V>(ks: Store<V>, key: string, value: V, ctx: CacheContext, now: int)
    requires Layout(ks)
    ensures WriteEntry(ks, key, value, ctx, now)
         == Keyspace(ks.strings[EntryKey(key) := CacheStructure(value, now, ctx.tags)],
                     Enrolled(ks, TagKeys(ctx.tags), key))
  {
    var e := CacheStructure(value, now, ctx.tags);
    var written := SetKey(ks, EntryKey(key), e);
    assert written.sets == ks.sets;
    forall t | t in ctx.tags
      ensures TagKey(t) !in written.strings
    {
      NamespacesDisjoint(key, t);
    }
    IndexTagsClosedForm(written, ctx.tags, key);
    forall s | s in TagKeys(ctx.tags)
      ensures Members(written, s) == Members(ks, s)
    {
    }
  }

  /** After `set(key, value, ctx)` at time `now`, `get(key)` returns exactly what was written. */
  lemma SetThenGet<V>(ks: Store<V>, key: string, value: V, ctx: CacheContext, now: int)
    ensures Lookup(WriteEntry(ks, key, value, ctx, now), key) == Some(CacheStructure(value, now, ctx.tags))
  {
    IndexTagsKeepsStrings(SetKey(ks, EntryKey(key), CacheStructure(value, now, ctx.tags)), ctx.tags, key);
  }

  /**
   * `set(key, …)` indexes `key` under every tag of the context, leaves every other
   * tag's set and every other key's entry as they were.
   */
  lemma SetUpdatesOnlyItsEntryAndTags<V>(ks: Store<V>, key: string, value: V, ctx: CacheContext, now: int)
    requires Layout(ks)
    ensures forall t :: t in ctx.tags ==>
              Members(WriteEntry(ks, key, value, ctx, now), TagKey(t)) == Members(ks, TagKey(t)) + {key}
    ensures forall t :: t !in ctx.tags ==>
              Members(WriteEntry(ks, key, value, ctx, now), TagKey(t)) == Members(ks, TagKey(t))
    ensures forall k :: k != key ==> Lookup(WriteEntry(ks, key, value, ctx, now), k) == Lookup(ks, k)
  {
    WriteEntryClosedForm(ks, key, value, ctx, now);
    forall t | t !in ctx.tags
      ensures TagKey(t) !in TagKeys(ctx.tags)
    {
      forall u | u in ctx.tags ensures TagKey(u) != TagKey(t) {
        TagKeyInjective(u, t);
      }
    }
    forall k | k != key
      ensures EntryKey(k) != EntryKey(key)
    {
      EntryKeyInjective(k, key);
    }
  }

  /** `set` keeps the key layout. */
  lemma SetPreservesLayout<V>(ks: Store<V>, key: string, value: V, ctx: CacheContext, now: int)
    requires Layout(ks)
    ensures Layout(WriteEntry(ks, key, value, ctx, now))
  {
    var w := WriteEntry(ks, key, value, ctx, now);
    WriteEntryClosedForm(ks, key, value, ctx, now);
    forall s | s in TagKeys(ctx.tags)
      ensures s != EntryKey(key) && s !in ks.strings
    {
      var t :| t in ctx.tags && s == TagKey(t);
      NamespacesDisjoint(key, t);
    }
    forall k
      ensures EntryKey(k) !in w.sets
    {
      forall t | t in ctx.tags ensures EntryKey(k) != TagKey(t) {
        NamespacesDisjoint(k, t);
      }
    }
    forall t
      ensures TagKey(t) !in w.strings
    {
      NamespacesDisjoint(key, t);
    }
  }

  /** `set` keeps the key layout and tag coverage. */
  lemma SetPreservesIndexed<V>(ks: Store<V>, key: string, value: V, ctx: CacheContext, now: int)
    requires Indexed(ks)
    ensures Indexed(WriteEntry(ks, key, value, ctx, now))
  {
    var w := WriteEntry(ks, key, value, ctx, now);
    SetPreservesLayout(ks, key, value, ctx, now);
    WriteEntryClosedForm(ks, key, value, ctx, now);
    SetUpdatesOnlyItsEntryAndTags(ks, key, value, ctx, now);
    forall k, t | EntryKey(k) in w.strings && t in w.strings[EntryKey(k)].tags
      ensures k in Members(w, TagKey(t))
    {
      EntryKeyInjective(k, key);
    }
  }

  /** Writing the same entry twice leaves the keyspace as writing it once. */
  lemma SetIdempotent<V>(ks: Store<V>, key: string, value: V, ctx: CacheContext, now: int)
    requires Layout(ks)
    ensures WriteEntry(WriteEntry(ks, key, value, ctx, now), key, value, ctx, now)
         == WriteEntry(ks, key, value, ctx, now)
  {
    var w := WriteEntry(ks, key, value, ctx, now);
    SetPreservesLayout(ks, key, value, ctx, now);
    WriteEntryClosedForm(ks, key, value, ctx, now);
    WriteEntryClosedForm(w, key, value, ctx, now);
    var e := CacheStructure(value, now, ctx.tags);
    assert w.strings[EntryKey(key) := e] == w.strings;
    assert Enrolled(w, TagKeys(ctx.tags), key) == w.sets;
  }

  // ----- revalidateTag -----

  /** An entry key is doomed by invalidating `tags` exactly when its key is in one of their sets. */
  lemma DoomedMember<V>(ks: Keyspace<V>, tags: seq<string>, k: string)
    ensures EntryKey(k) in Doomed(ks, tags) <==> exists t :: t in tags && k in Members(ks, TagKey(t))
  {
    if EntryKey(k) in Doomed(ks, tags) {
      var t, k' :| t in tags && k' in Members(ks, TagKey(t)) && EntryKey(k) == EntryKey(k');
      EntryKeyInjective(k, k');
    }
  }

  /** The entries doomed by `init + [t]` are those doomed by `init` and those of `t`'s members. */
  lemma DoomedSnoc<V>(ks: Keyspace<V>, init: seq<string>, t: string)
    ensures Doomed(ks, init + [t]) == Doomed(ks, init) + EntryKeys(Members(ks, TagKey(t)))
  {
    var tags := init + [t];
    forall s | s in Doomed(ks, tags) ensures s in Doomed(ks, init) + EntryKeys(Members(ks, TagKey(t))) {
      var u, k :| u in tags && k in Members(ks, TagKey(u)) && s == EntryKey(k);
      if u != t { assert u in init; }
    }
  }

  /** Invalidating one more tag, given the closed form for the tags before it. */
  lemma InvalidateTagStep<V>(ks: Store<V>, init: seq<string>, t: string)
    requires Layout(ks)
    ensures InvalidateTag(Keyspace(ks.strings - Doomed(ks, init), ks.sets - TagKeys(init)), t)
         == Keyspace(ks.strings - Doomed(ks, init + [t]), ks.sets - TagKeys(init + [t]))
  {
    var mid := Keyspace(ks.strings - Doomed(ks, init), ks.sets - TagKeys(init));
    var dead := EntryKeys(Members(mid, TagKey(t)));
    TagKeysSnoc(init, t);
    DoomedSnoc(ks, init, t);
    TagKeysMember(init, t);
    if t in init {
      assert dead == {};
      assert EntryKeys(Members(ks, TagKey(t))) <= Doomed(ks, init);
    } else {
      assert Members(mid, TagKey(t)) == Members(ks, TagKey(t));
    }
    assert TagKey(t) !in ks.strings;
    assert mid.sets - dead == mid.sets;
  }

  /** Deleting one more key after the keys `gone` is deleting `gone` and that key. */
  lemma DeleteOneMore<V>(ks: Keyspace<V>, gone: set<string>, key: string)
    ensures DelKey(Keyspace(ks.strings - gone, ks.sets - gone), key)
         == Keyspace(ks.strings - (gone + {key}), ks.sets - (gone + {key}))
  {
    assert ks.strings - gone - {key} == ks.strings - (gone + {key});
    assert ks.sets - gone - {key} == ks.sets - (gone + {key});
  }

  /** Deleting the entries of the keys SMEMBERS listed deletes the entries of the set's members. */
  lemma ListedEntryKeys(keys: seq<string>, members: set<string>)
    requires forall m :: m in keys <==> m in members
    ensures (set k | k in keys :: EntryKey(k)) == EntryKeys(members)
  {
  }

  /** One more key deleted in the inner loop of `revalidateTag`. */
  lemma ListedEntryKeysSnoc(keys: seq<string>, j: nat)
    requires j < |keys|
    ensures (set k | k in keys[..j + 1] :: EntryKey(k)) == (set k | k in keys[..j] :: EntryKey(k)) + {EntryKey(keys[j])}
  {
    assert keys[..j + 1] == keys[..j] + [keys[j]];
  }

  /**
   * Invalidating `tags` one after another, in one step: the entries of every member of
   * every listed tag's set (as the sets were at the start) are gone, and so are the
   * listed tags' sets; nothing else changes.
   */
  lemma {:induction false} InvalidateTagsClosedForm<V>(ks: Store<V>, tags: seq<string>)
    requires Layout(ks)
    ensures InvalidateTags(ks, tags) == Keyspace(ks.strings - Doomed(ks, tags), ks.sets - TagKeys(tags))
    decreases |tags|
  {
    if tags == [] {
      assert Doomed(ks, tags) == {} && TagKeys(tags) == {};
      assert ks.strings - {} == ks.strings && ks.sets - {} == ks.sets;
    } else {
      var init, t := tags[..|tags| - 1], tags[|tags| - 1];
      assert tags == init + [t];
      InvalidateTagsClosedForm(ks, init);
      InvalidateTagStep(ks, init, t);
    }
  }

  /** Invalidation keeps the key layout. */
  lemma InvalidateTagsPreservesLayout<V>(ks: Store<V>, tags: seq<string>)
    requires Layout(ks)
    ensures Layout(InvalidateTags(ks, tags))
  {
    InvalidateTagsClosedForm(ks, tags);
  }

  /** Invalidation keeps the key layout and tag coverage. */
  lemma InvalidateTagsPreservesIndexed<V>(ks: Store<V>, tags: seq<string>)
    requires Indexed(ks)
    ensures Indexed(InvalidateTags(ks, tags))
  {
    var r := InvalidateTags(ks, tags);
    InvalidateTagsClosedForm(ks, tags);
    forall k, t | EntryKey(k) in r.strings && t in r.strings[EntryKey(k)].tags
      ensures k in Members(r, TagKey(t))
    {
      DoomedMember(ks, tags, k);
      TagKeysMember(tags, t);
      assert k in Members(ks, TagKey(t));
    }
  }

  /**
   * Invalidation fan-out: after invalidating `tags`, every key that was in one of their
   * sets has no entry and their sets are gone; the entries of all other keys and the
   * sets of all other tags are as before.
   */
  lemma InvalidationFanOut<V>(ks: Store<V>, tags: seq<string>)
    requires Layout(ks)
    ensures forall t, k :: t in tags && k in Members(ks, TagKey(t)) ==> Lookup(InvalidateTags(ks, tags), k) == None
    ensures forall t :: t in tags ==> TagKey(t) !in InvalidateTags(ks, tags).sets
    ensures forall k :: (forall t :: t in tags ==> k !in Members(ks, TagKey(t))) ==>
              Lookup(InvalidateTags(ks, tags), k) == Lookup(ks, k)
    ensures forall t :: t !in tags ==> Members(InvalidateTags(ks, tags), TagKey(t)) == Members(ks, TagKey(t))
  {
    InvalidateTagsClosedForm(ks, tags);
    forall k ensures EntryKey(k) in Doomed(ks, tags) <==> exists t :: t in tags && k in Members(ks, TagKey(t)) {
      DoomedMember(ks, tags, k);
    }
    forall t ensures TagKey(t) in TagKeys(tags) <==> t in tags {
      TagKeysMember(tags, t);
    }
  }

  /** After invalidating `tags`, no remaining entry carries any of them. */
  lemma RevalidatedTagsUnreachable<V>(ks: Store<V>, tags: seq<string>)
    requires Indexed(ks)
    ensures forall k, t :: t in tags && EntryKey(k) in InvalidateTags(ks, tags).strings ==>
              t !in InvalidateTags(ks, tags).strings[EntryKey(k)].tags
  {
    InvalidateTagsClosedForm(ks, tags);
    forall k, t | t in tags && EntryKey(k) in InvalidateTags(ks, tags).strings
      ensures t !in InvalidateTags(ks, tags).strings[EntryKey(k)].tags
    {
      DoomedMember(ks, tags, k);
    }
  }

  /** Invalidating the same tags a second time changes nothing. */
  lemma InvalidateTagsIdempotent<V>(ks: Store<V>, tags: seq<string>)
    requires Layout(ks)
    ensures InvalidateTags(InvalidateTags(ks, tags), tags) == InvalidateTags(ks, tags)
  {
    var r := InvalidateTags(ks, tags);
    InvalidateTagsClosedForm(ks, tags);
    InvalidateTagsPreservesLayout(ks, tags);
    InvalidateTagsClosedForm(r, tags);
    assert Doomed(r, tags) == {};
    assert r.strings - {} == r.strings;
    assert r.sets - TagKeys(tags) == r.sets;
  }

  /** `revalidateTag(t)` and `revalidateTag([t])` have the same effect. */
  lemma OneTagAsList<V>(ks: Store<V>, tag: string)
    ensures Revalidate(ks, OneTag(tag)) == Revalidate(ks, TagList([tag]))
  {
  }

  /** `set(key, …)` with tag `tag`, then `revalidateTag(tag)`, then `get(key)` finds nothing. */
  lemma SetThenRevalidateMisses<V>(ks: Store<V>, key: string, value: V, ctx: CacheContext, now: int, tag: string)
    requires Layout(ks)
    requires tag in ctx.tags
    ensures Lookup(Revalidate(WriteEntry(ks, key, value, ctx, now), OneTag(tag)), key) == None
  {
    var w := WriteEntry(ks, key, value, ctx, now);
    SetPreservesLayout(ks, key, value, ctx, now);
    SetUpdatesOnlyItsEntryAndTags(ks, key, value, ctx, now);
    InvalidationFanOut(w, [tag]);
  }

  /**
   * Tag sets are never pruned when an entry is overwritten: after `set(key, …)` with tag
   * `stale` and then `set(key, …)` without it, `revalidateTag(stale)` still deletes the
   * newer entry, although that entry does not carry `stale`.
   */
  lemma OverwriteKeepsOldTagMembership<V>(ks: Store<V>, key: string, v1: V, ctx1: CacheContext, n1: int,
                                          v2: V, ctx2: CacheContext, n2: int, stale: string)
    requires Layout(ks)
    requires stale in ctx1.tags && stale !in ctx2.tags
    ensures var w := WriteEntry(WriteEntry(ks, key, v1, ctx1, n1), key, v2, ctx2, n2);
            Lookup(w, key) == Some(CacheStructure(v2, n2, ctx2.tags))
            && Lookup(Revalidate(w, OneTag(stale)), key) == None
  {
    var w1 := WriteEntry(ks, key, v1, ctx1, n1);
    var w := WriteEntry(w1, key, v2, ctx2, n2);
    SetUpdatesOnlyItsEntryAndTags(ks, key, v1, ctx1, n1);
    SetPreservesLayout(ks, key, v1, ctx1, n1);
    SetUpdatesOnlyItsEntryAndTags(w1, key, v2, ctx2, n2);
    SetPreservesLayout(w1, key, v2, ctx2, n2);
    SetThenGet(w1, key, v2, ctx2, n2);
    assert key in Members(w, TagKey(stale));
    InvalidationFanOut(w, [stale]);
  }

  /** An empty server satisfies the handler's invariant. */
  lemma EmptyStoreIndexed<V>()
    ensures Indexed<V>(Keyspace(map[], map[]))
  {
  }
}
