/**
 * The cache handler of src/index.ts: `get`, `set` and `revalidateTag` as methods that
 * issue Redis commands one after another on the store the handler holds.
 */
module RedisCacheHandler {
  import opened Wrappers
  import opened Redis
  import opened CacheModel
  import opened CacheProperties

  class CacheHandler<V> {
    /** The Redis connection every operation goes through. */
    const redis: RedisStore<CacheStructure<V>>

    /** The store is a well-formed Redis keyspace laid out as the handler lays it out. */
    ghost predicate Valid()
      reads redis
    {
      redis.Valid() && Layout(redis.State())
    }

    /** A handler over an already connected store. */
    constructor (redis: RedisStore<CacheStructure<V>>)
      requires redis.Valid() && Layout(redis.State())
      ensures this.redis == redis && Valid()
    {
      this.redis := redis;
    }

    /** `get(key)`: the entry stored under `key:<key>`, or absent. */
    method Get(key: string) returns (r: Option<CacheStructure<V>>)
      requires Valid()
      ensures r == Lookup(redis.State(), key)
      ensures r.Some? <==> EntryKey(key) in redis.strings
      ensures r.Some? ==> r.value == redis.strings[EntryKey(key)]
    {
      var reply := redis.Get(EntryKey(key));
      assert reply.Ok?;
      r := reply.value;
    }

    /**
     * `set(key, cache, ctx)` at time `now`: writes the entry under `key:<key>`, then adds
     * `key` to the set `tag:<t>` of every tag `t` of the context, in order.
     */
    method Set(key: string, cache: V, ctx: CacheContext, now: int)
      requires Valid()
      modifies redis
      ensures Valid()
      ensures redis.State() == WriteEntry(old(redis.State()), key, cache, ctx, now)
      ensures Covered(old(redis.State())) ==> Covered(redis.State())
      ensures Lookup(redis.State(), key) == Some(CacheStructure(cache, now, ctx.tags))
      ensures forall t :: t in ctx.tags ==>
                Members(redis.State(), TagKey(t)) == Members(old(redis.State()), TagKey(t)) + {key}
      ensures forall t :: t !in ctx.tags ==>
                Members(redis.State(), TagKey(t)) == Members(old(redis.State()), TagKey(t))
      ensures forall k :: k != key ==> Lookup(redis.State(), k) == Lookup(old(redis.State()), k)
    {
      ghost var before := redis.State();
      redis.Set(EntryKey(key), CacheStructure(cache, now, ctx.tags));
      ghost var written := redis.State();
      for i := 0 to |ctx.tags|
        invariant redis.Valid()
        invariant redis.State() == IndexTags(written, ctx.tags[..i], key)
      {
        var tag := ctx.tags[i];
        IndexTagsKeepsStrings(written, ctx.tags[..i], key);
        NamespacesDisjoint(key, tag);
        var added := redis.SAdd(TagKey(tag), key);
        assert added.Ok?;
        assert ctx.tags[..i + 1][..i] == ctx.tags[..i];
      }
      assert ctx.tags[..|ctx.tags|] == ctx.tags;
      SetPreservesLayout(before, key, cache, ctx, now);
      if Covered(before) {
        SetPreservesIndexed(before, key, cache, ctx, now);
      }
      SetThenGet(before, key, cache, ctx, now);
      SetUpdatesOnlyItsEntryAndTags(before, key, cache, ctx, now);
    }

    /**
     * `revalidateTag(tags)`: for each tag in turn, deletes the entry of every key in the
     * tag's set, then the set itself.
     */
    method RevalidateTag(input: TagInput)
      requires Valid()
      modifies redis
      ensures Valid()
      ensures redis.State() == Revalidate(old(redis.State()), input)
      ensures Covered(old(redis.State())) ==> Covered(redis.State())
      ensures forall t, k :: t in Flatten(input) && k in Members(old(redis.State()), TagKey(t)) ==>
                Lookup(redis.State(), k) == None
      ensures forall t :: t in Flatten(input) ==> TagKey(t) !in redis.sets
      ensures forall k :: (forall t :: t in Flatten(input) ==> k !in Members(old(redis.State()), TagKey(t))) ==>
                Lookup(redis.State(), k) == Lookup(old(redis.State()), k)
    {
      ghost var before := redis.State();
      var tags := Flatten(input);
      for i := 0 to |tags|
        invariant redis.Valid()
        invariant redis.State() == InvalidateTags(before, tags[..i])
      {
        var tag := tags[i];
        ghost var current := redis.State();
        InvalidateTagsPreservesLayout(before, tags[..i]);
        assert TagKey(tag) !in current.strings;
        var reply := redis.SMembers(TagKey(tag));
        assert reply.Ok?;
        var keys := reply.value;
        ghost var gone: set<string> := {};
        for j := 0 to |keys|
          invariant redis.Valid()
          invariant gone == set k | k in keys[..j] :: EntryKey(k)
          invariant redis.State() == Keyspace(current.strings - gone, current.sets - gone)
        {
          DeleteOneMore(current, gone, EntryKey(keys[j]));
          var _ := redis.Del(EntryKey(keys[j]));
          gone := gone + {EntryKey(keys[j])};
          ListedEntryKeysSnoc(keys, j);
        }
        assert keys[..|keys|] == keys;
        ListedEntryKeys(keys, Members(current, TagKey(tag)));
        var _ := redis.Del(TagKey(tag));
        assert tags[..i + 1][..i] == tags[..i];
      }
      assert tags[..|tags|] == tags;
      InvalidateTagsPreservesLayout(before, tags);
      if Covered(before) {
        InvalidateTagsPreservesIndexed(before, tags);
      }
      InvalidationFanOut(before, tags);
    }
  }
}
