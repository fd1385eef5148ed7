/** The backing `MemoryCache`: a map from key to entry, where an entry is the
    stored object together with the options it was written with. Capacity
    eviction and time-based expiry are not modelled; the options are kept as
    metadata only. */
module MemoryStore {
  import opened Values

  /** `CacheItemPriority`. */
  datatype Priority = Low | Normal | High | NeverRemove

  /** The absolute expiration of an entry, as an opaque timestamp. */
  datatype Expiration = NoExpiration | AbsoluteAt(ticks: int)

  /** The parts of `MemoryCacheEntryOptions` this cache sets. */
  datatype Options = Options(priority: Priority, expiration: Expiration)

  /** A freshly constructed `MemoryCacheEntryOptions`. */
  const DefaultOptions: Options := Options(Normal, NoExpiration)

  /** `new MemoryCacheEntryOptions { Priority = CacheItemPriority.NeverRemove }`. */
  const NeverRemoveOptions: Options := Options(NeverRemove, NoExpiration)

  /** `new MemoryCacheEntryOptions { AbsoluteExpiration = expiration }`. */
  function ExpiresAt(expiration: int): (o: Options)
    ensures o.expiration.AbsoluteAt? && o.expiration.ticks == expiration
    ensures o.priority == DefaultOptions.priority
  {
    Options(Normal, AbsoluteAt(expiration))
  }

  datatype Entry = Entry(value: Val, options: Options)

  type Store = map<string, Entry>

  const EmptyStore: Store := map[]

  /** Every key other than `key` has the same entry (or absence) in both stores. */
  predicate SameElsewhere(s: Store, s': Store, key: string) {
    && (forall k :: k in s && k != key ==> k in s' && s'[k] == s[k])
    && (forall k :: k in s' && k != key ==> k in s)
  }

  /** `MemoryCache.Set(key, value, options)`: insert or overwrite, whatever
      was there before; the last writer wins. */
  function Set(s: Store, key: string, value: Val, options: Options): (s': Store)
    ensures key in s' && s'[key] == Entry(value, options)
    ensures SameElsewhere(s, s', key)
    ensures s'.Keys == s.Keys + {key}
  {
    s[key := Entry(value, options)]
  }

  /** `MemoryCache.Remove(key)`: delete if present, otherwise nothing happens. */
  function Remove(s: Store, key: string): (s': Store)
    ensures key !in s'
    ensures SameElsewhere(s, s', key)
    ensures key !in s ==> s' == s
  {
    s - {key}
  }

  /** Setting a key and then removing it leaves the store as if the key had
      only been removed. */
  lemma RemoveUndoesSet(s: Store, key: string, value: Val, options: Options)
    ensures Remove(Set(s, key, value, options), key) == Remove(s, key)
  {
  }

  /** Two writes to the same key: only the second is visible. */
  lemma SetOverwrites(s: Store, key: string, v1: Val, o1: Options, v2: Val, o2: Options)
    ensures Set(Set(s, key, v1, o1), key, v2, o2) == Set(s, key, v2, o2)
  {
  }
}
