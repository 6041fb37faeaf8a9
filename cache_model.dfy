/**
 * What the cache handler of src/index.ts stores and how it lays it out in Redis:
 * the entry and context records, the `key:`/`tag:` key scheme, and the effect of
 * `set` and `revalidateTag` on the keyspace as functions of the keyspace before.
 */
module CacheModel {
  import opened Wrappers
  import opened Redis

  /** A stored entry: the cached payload, the time it was written and the tags it carries. */
  datatype CacheStructure<V> = CacheStructure(value: V, lastModified: int, tags: seq<string>)

  /** The context the framework passes to `set`; only `tags` is consulted. */
  datatype CacheContext = CacheContext(
    fetchCache: bool,
    revalidate: bool,
    fetchUrl: string,
    fetchIdx: int,
    tags: seq<string>)

  /** The argument of `revalidateTag`: one tag or a list of tags. */
  datatype TagInput = OneTag(tag: string) | TagList(tags: seq<string>)

  /** The keyspace as the handler sees it: strings hold entries. */
  type Store<V> = Keyspace<CacheStructure<V>>

  /** The Redis key of the entry cached under `key`. */
  function EntryKey(key: string): string {
    "key:" + key
  }

  /** The Redis key of the set of cache keys carrying `tag`. */
  function TagKey(tag: string): string {
    "tag:" + tag
  }

  /** The Redis keys of the sets of all the given tags. */
  function TagKeys(tags: seq<string>): set<string> {
    set t | t in tags :: TagKey(t)
  }

  /** The Redis keys of the entries of all the given cache keys. */
  function EntryKeys(keys: set<string>): set<string> {
    set k | k in keys :: EntryKey(k)
  }

  /** An entry key and a tag key never coincide, whatever the key and the tag. */
  lemma NamespacesDisjoint(key: string, tag: string)
    ensures EntryKey(key) != TagKey(tag)
  {
    assert EntryKey(key)[0] == 'k' && TagKey(tag)[0] == 't';
  }

  /** Distinct cache keys have distinct entry keys. */
  lemma EntryKeyInjective(a: string, b: string)
    ensures EntryKey(a) == EntryKey(b) ==> a == b
  {
    assert EntryKey(a)[4..] == a && EntryKey(b)[4..] == b;
  }

  /** Distinct tags have distinct tag keys. */
  lemma TagKeyInjective(a: string, b: string)
    ensures TagKey(a) == TagKey(b) ==> a == b
  {
    assert TagKey(a)[4..] == a && TagKey(b)[4..] == b;
  }

  /** `[tags].flat()`: a single tag becomes a one-element list, a list stays as it is. */
  function Flatten(input: TagInput): seq<string> {
    match input
    case OneTag(t) => [t]
    case TagList(ts) => ts
  }

  /** What `get(key)` returns from the keyspace `ks`. */
  function Lookup<V>(ks: Store<V>, key: string): Option<CacheStructure<V>> {
    if EntryKey(key) in ks.strings then Some(ks.strings[EntryKey(key)]) else None
  }

  /**
   * The handler's key layout: the keyspace is well formed, entry keys never hold sets
   * and tag keys never hold strings. Under it no command the handler issues meets
   * WRONGTYPE.
   */
  ghost predicate Layout<V>(ks: Store<V>) {
    && ks.Valid()
    && (forall k :: EntryKey(k) !in ks.sets)
    && (forall t :: TagKey(t) !in ks.strings)
  }

  /** Tag coverage: every tag of every stored entry has that entry's key in its set. */
  ghost predicate Covered<V>(ks: Store<V>) {
    forall k, t :: EntryKey(k) in ks.strings && t in ks.strings[EntryKey(k)].tags ==>
      k in Members(ks, TagKey(t))
  }

  /** The key layout together with tag coverage. */
  ghost predicate Indexed<V>(ks: Store<V>) {
    Layout(ks) && Covered(ks)
  }

  /** The SADD loop of `set`: `key` is added to the set of each tag in turn. */
  function IndexTags<V>(ks: Keyspace<V>, tags: seq<string>, key: string): Keyspace<V>
    decreases |tags|
  {
    if tags == [] then ks
    else AddMember(IndexTags(ks, tags[..|tags| - 1], key), TagKey(tags[|tags| - 1]), key)
  }

  /** The keyspace after `set(key, value, ctx)` at time `now`. */
  function WriteEntry<V>(ks: Store<V>, key: string, value: V, ctx: CacheContext, now: int): Store<V> {
    IndexTags(SetKey(ks, EntryKey(key), CacheStructure(value, now, ctx.tags)), ctx.tags, key)
  }

  /** The keyspace after one tag is invalidated: each member's entry is deleted, then the tag's set. */
  function InvalidateTag<V>(ks: Keyspace<V>, tag: string): Keyspace<V> {
    var dead := EntryKeys(Members(ks, TagKey(tag)));
    DelKey(Keyspace(ks.strings - dead, ks.sets - dead), TagKey(tag))
  }

  /** The keyspace after the tags are invalidated one after another. */
  function InvalidateTags<V>(ks: Keyspace<V>, tags: seq<string>): Keyspace<V>
    decreases |tags|
  {
    if tags == [] then ks
    else InvalidateTag(InvalidateTags(ks, tags[..|tags| - 1]), tags[|tags| - 1])
  }

  /** The keyspace after `revalidateTag(input)`. */
  function Revalidate<V>(ks: Store<V>, input: TagInput): Store<V> {
    InvalidateTags(ks, Flatten(input))
  }

  /** Every entry key removed by invalidating `tags` in `ks`: the entries of all their members. */
  function Doomed<V>(ks: Keyspace<V>, tags: seq<string>): set<string> {
    set t, k | t in tags && k in Members(ks, TagKey(t)) :: EntryKey(k)
  }
}
