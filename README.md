# Redis cache handler for Next.js, modelled in Dafny

This project models `CacheHandler` from `src/index.ts`. It is a cache handler for the
Next.js framework that stores cache entries in Redis and indexes them by tag:

- `get(key)` reads the entry stored at the Redis key `key:<key>`.
- `set(key, value, ctx)` writes the entry `{value, lastModified, tags: ctx.tags}` at
  `key:<key>`. It then adds `key` to the Redis set `tag:<t>` for each tag `t` of the context.
- `revalidateTag(tags)` takes one tag or a list of tags. For each tag it deletes the entry of
  every key in the tag's set, then deletes the set.

Files:

- `wrappers.dfy` (module `Wrappers`): `Option`, plus `Result` for store replies. The only
  store error is Redis's `WRONGTYPE`.
- `redis_store.dfy` (module `Redis`): the Redis server the handler talks to.
  - `Keyspace` is an immutable snapshot of the keyspace: string keys and set keys, and no key
    is both.
  - The spec functions `SetKey`, `AddMember`, `Members` and `DelKey` give the effect of the
    commands.
  - `RedisStore` is the mutable server. Its methods `Get`, `Set`, `SAdd`, `SMembers` and
    `Del` update the two maps in place.
- `cache_model.dfy` (module `CacheModel`) holds:
  - the records `CacheStructure` and `CacheContext`;
  - the key scheme `EntryKey`/`TagKey`;
  - `Flatten`, which is `[tags].flat()`;
  - specification functions for what each handler operation does to the keyspace
    (`Lookup`, `WriteEntry`, `InvalidateTag`, `InvalidateTags`, `Revalidate`);
  - the key layout `Layout`: entry keys never hold sets and tag keys never hold strings.
    The handler's methods need only this;
  - tag coverage `Covered`: every tag of every stored entry has that entry's key in its set.
    `set` and `revalidateTag` keep it when it holds, but do not need it. `Indexed` is both.
- `cache_properties.dfy` (module `CacheProperties`): lemmas about those functions.
  - Closed forms of `set` and of invalidation.
  - Get-after-set.
  - The frame of `set`.
  - Preservation of `Layout` and of `Indexed`.
  - Invalidation fan-out and idempotence.
- `cache_handler.dfy` (module `RedisCacheHandler`): the class `CacheHandler`. Its methods issue
  the store commands in the source's order, with the source's loops. Each method is proved
  to leave the keyspace equal to the matching specification function of the keyspace before
  the call.

The store can reply `WRONGTYPE`: GET or SMEMBERS on a key of the other type, or SADD on a
string key. Because of the `key:`/`tag:` prefixes, the handler never issues such a command.
The handler methods assert this where they use a reply.

`src/index.ts` has a single tier: every entry goes to Redis. It never reads a `kind`
field, always iterates `ctx.tags`, and lets store errors propagate to the caller.

## Model

| member | source | states |
|---|---|---|
| `Redis.RedisStore.Get` | src/index.ts:30 | GET replies with the string at the key, with absent when the key is missing, and with WRONGTYPE exactly when the key holds a set |
| `Redis.RedisStore.Set` | src/index.ts:35-39 | SET makes the key hold the given string, whatever it held before; every other key is unchanged |
| `Redis.RedisStore.SAdd` | src/index.ts:41 | SADD adds the member to the key's set, creating the set if absent. It replies 1 if the member is new and 0 if not. On a string key it fails with WRONGTYPE and changes nothing |
| `Redis.RedisStore.SMembers` | src/index.ts:48 | SMEMBERS replies with every member of the key's set exactly once. An absent key gives no members; a string key gives WRONGTYPE |
| `Redis.RedisStore.Del` | src/index.ts:50-52 | DEL removes the key whatever it holds and replies with the number of keys removed |
| `Redis.AddMemberIdempotent` | src/index.ts:41 | adding a member a set already holds leaves the keyspace unchanged |
| `Redis.DelAbsentKey` | src/index.ts:50-52 | deleting an absent key leaves the keyspace unchanged |
| `CacheModel.NamespacesDisjoint` | src/index.ts:30-52 | `key:<k>` and `tag:<t>` are different Redis keys for every key `k` and tag `t` |
| `CacheModel.EntryKeyInjective` | src/index.ts:30-50 | different cache keys are stored under different `key:` keys |
| `CacheModel.TagKeyInjective` | src/index.ts:41-52 | different tags have their sets under different `tag:` keys |
| `CacheModel.Flatten` | src/index.ts:46 | definition of `[tags].flat()`: one tag becomes a one-element list, a list is kept as it is |
| `CacheModel.Lookup` | src/index.ts:29-32 | definition of what `get(key)` reads: the entry at `key:<key>`, or absent |
| `CacheModel.IndexTags` | src/index.ts:40-42 | definition of the SADD loop: `key` added to the set `tag:<t>` of each tag in order |
| `CacheModel.WriteEntry` | src/index.ts:34-43 | definition of `set`: SET of `{value, now, ctx.tags}` at `key:<key>`, then the SADD loop |
| `CacheModel.InvalidateTag` | src/index.ts:48-52 | definition of one iteration of `revalidateTag`: DEL of the entry of every member, then DEL of the tag's set |
| `CacheModel.InvalidateTags` | src/index.ts:47-53 | definition of the loop of `revalidateTag`: the tags invalidated one after another |
| `CacheModel.Revalidate` | src/index.ts:45-54 | definition of `revalidateTag(tags)`: the input flattened, then its tags invalidated |
| `CacheProperties.IndexTagsKeepsStrings` | src/index.ts:40-42 | the SADD loop of `set` changes no stored entry |
| `CacheProperties.IndexTagsClosedForm` | src/index.ts:40-42 | after the SADD loop, the set of every listed tag is its previous members plus the key, and every other key is unchanged |
| `CacheProperties.WriteEntryClosedForm` | src/index.ts:35-42 | `set` overwrites the entry at `key:<key>` with `{value, now, ctx.tags}`, adds the key to each `tag:<t>` with `t` in `ctx.tags`, and changes nothing else |
| `CacheProperties.SetThenGet` | src/index.ts:29-39 | after `set(key, value, ctx)` at time `now`, `get(key)` returns an entry with that value, `lastModified == now` and `tags == ctx.tags` |
| `CacheProperties.SetUpdatesOnlyItsEntryAndTags` | src/index.ts:35-42 | after `set`, each tag in `ctx.tags` has its previous members plus the key, every other tag's set is unchanged, and `get` of every other key is unchanged |
| `CacheProperties.SetPreservesLayout` | src/index.ts:34-43 | `set` keeps the key layout: entry keys never hold sets, tag keys never hold strings |
| `CacheProperties.SetPreservesIndexed` | src/index.ts:34-43 | `set` keeps the key layout and tag coverage: every tag of every stored entry lists that entry's key |
| `CacheProperties.SetIdempotent` | src/index.ts:34-43 | repeating `set` with the same arguments and time leaves the keyspace as one call did |
| `CacheProperties.InvalidateTagStep` | src/index.ts:48-52 | processing one more tag deletes the entries of its current members and its set. A tag already processed has no set left, so processing it again deletes nothing more |
| `CacheProperties.InvalidateTagsClosedForm` | src/index.ts:46-53 | invalidating a list of tags deletes the entries of all members of their sets as those sets were at the start, deletes those sets, and changes nothing else |
| `CacheProperties.InvalidateTagsPreservesLayout` | src/index.ts:45-54 | `revalidateTag` keeps the key layout |
| `CacheProperties.InvalidateTagsPreservesIndexed` | src/index.ts:45-54 | `revalidateTag` keeps the key layout and tag coverage |
| `CacheProperties.InvalidationFanOut` | src/index.ts:47-53 | after invalidating the tags, every key that was in one of their sets has no entry and their sets are absent. Entries of keys in none of those sets are unchanged, and so are the sets of all other tags |
| `CacheProperties.RevalidatedTagsUnreachable` | src/index.ts:47-53 | after invalidating the tags, no remaining entry carries any of them |
| `CacheProperties.InvalidateTagsIdempotent` | src/index.ts:47-53 | invalidating the same tags twice leaves the keyspace as invalidating them once |
| `CacheProperties.OneTagAsList` | src/index.ts:46 | `revalidateTag(t)` and `revalidateTag([t])` have the same effect |
| `CacheProperties.SetThenRevalidateMisses` | src/index.ts:34-53 | `set(key, …)` with tag `t`, then `revalidateTag(t)`, makes `get(key)` absent |
| `CacheProperties.OverwriteKeepsOldTagMembership` | src/index.ts:34-53 | re-setting a key without a tag it had before does not remove it from that tag's set, so revalidating the old tag deletes the newer entry |
| `CacheProperties.EmptyStoreIndexed` | src/index.ts:21-27 | a handler started on an empty server starts from a keyspace with the key layout and tag coverage, so every state reached from it by `set` and `revalidateTag` has both |
| `RedisCacheHandler.CacheHandler.constructor` | src/index.ts:21-27 | the handler holds the given connected store, which must have the key layout (tag coverage is not required) |
| `RedisCacheHandler.CacheHandler.Get` | src/index.ts:29-32 | `get(key)` returns the entry at `key:<key>`, or absent when there is none. It changes nothing and never meets WRONGTYPE |
| `RedisCacheHandler.CacheHandler.Set` | src/index.ts:34-43 | `set` leaves the keyspace as `WriteEntry` gives it. It keeps the key layout, and keeps tag coverage when it held before. `get(key)` then returns the written entry. Each listed tag's set gains the key; every other tag set and every other entry is unchanged |
| `RedisCacheHandler.CacheHandler.RevalidateTag` | src/index.ts:45-54 | `revalidateTag` leaves the keyspace as `Revalidate` gives it. It keeps the key layout, and keeps tag coverage when it held before. Keys in the processed sets have no entry, the processed sets are absent, and other entries are unchanged |

## Left out

- The constructor's connection setup. Reading `REDIS_HOST` and `REDIS_PORT` (default 6379)
  from the environment is I/O and configuration. The model's constructor takes a connected
  store, and the unused `options` field is dropped.
- The ioredis client and `async`/`await`. Each command is one atomic, sequential update of
  the store. Other clients writing the same Redis concurrently, and interleaved handler
  calls, are not modelled.
- Connection and network errors from the store. In the source they propagate to the caller;
  in the model the store never fails except with WRONGTYPE, which the invariant rules out.
- If another client breaks the key layout, `get`, `set` or `revalidateTag` would throw
  WRONGTYPE. This is not modelled at handler level: the handler methods require the key
  layout (`Layout`). They do not require tag coverage, so a store left by a `set` that failed
  between its SET and its SADDs is within the model.
- `JSON.stringify`/`JSON.parse`. The store holds the entry record itself, which assumes
  encoding round-trips. For payloads JSON cannot represent (`undefined`, functions, `Date`),
  the real `get` returns something other than what was set.
- `Date.now()`. The time is the parameter `now`. `lastModified` and `fetchIdx` are unbounded
  integers, not JavaScript doubles.
- Unpaired UTF-16 surrogates in keys and tags. The model's keys and tags are Dafny strings,
  which hold only Unicode scalar values. A JavaScript string can also hold lone surrogates, and
  the Redis client sends them as U+FFFD. Two different cache keys of that kind can then share
  one Redis key. The following contracts hold only for well-formed strings:
  - `CacheModel.EntryKeyInjective` and `CacheModel.TagKeyInjective`;
  - the "every other key is unchanged" frame of `CacheProperties.SetUpdatesOnlyItsEntryAndTags`
    and `RedisCacheHandler.CacheHandler.Set`.
- The order of SMEMBERS replies. The store picks an order; nothing proved depends on it.
- The commented-out `resetRequestCache`.
- The context variant without `tags` in `src/types/context.ts`. `src/index.ts` does not use
  it, and its loop at line 40 requires `tags`.
- `src/types/structure.ts` and its `kind` field. Nothing in `src/index.ts` reads them, so
  there is no placement by kind and no local tier.
- `eslint.config.js`: lint configuration, no behaviour.
