/** The `KeyLocks` registry: a map from key to the asynchronous lock that
    serialises population of that key. A lock is identified by the number
    of locks the registry had stored before it. Entries are never removed. */
module LockRegistry {

  type LockId = nat

  datatype Registry = Registry(locks: map<string, LockId>, created: nat)

  const Empty: Registry := Registry(map[], 0)

  /** Every stored lock was created, and no two keys share a lock, so
      callers for different keys never wait for each other. */
  predicate Valid(r: Registry) {
    && (forall k :: k in r.locks ==> r.locks[k] < r.created)
    && (forall k1, k2 :: k1 in r.locks && k2 in r.locks && k1 != k2 ==> r.locks[k1] != r.locks[k2])
  }

  /** `r'` keeps every lock `r` holds, under the same key. */
  predicate Grows(r: Registry, r': Registry) {
    forall k :: k in r.locks ==> k in r'.locks && r'.locks[k] == r.locks[k]
  }

  datatype Acquired = Acquired(lock: LockId, registry: Registry)

  /** `KeyLocks.GetOrAdd(key, new AsyncLock())`: the lock already stored for
      `key`, or a new one that is stored for it from now on. */
  function GetOrAdd(r: Registry, key: string): (a: Acquired)
    ensures key in a.registry.locks && a.registry.locks[key] == a.lock
    ensures key in r.locks ==> a.lock == r.locks[key] && a.registry == r
    ensures a.registry.locks.Keys == r.locks.Keys + {key}
    ensures Grows(r, a.registry)
    ensures Valid(r) ==> Valid(a.registry)
    ensures Valid(r) && key !in r.locks ==> a.lock !in r.locks.Values
  {
    if key in r.locks then Acquired(r.locks[key], r)
    else Acquired(r.created, Registry(r.locks[key := r.created], r.created + 1))
  }

  /** `KeyLocks` starts empty, and the empty registry is valid. */
  lemma EmptyIsValid()
    ensures Valid(Empty)
  {
  }

  /** The registry after a series of `GetOrAdd` calls, one per key in order. */
  function GetOrAddAll(r: Registry, keys: seq<string>): Registry
    decreases |keys|
  {
    if keys == [] then r else GetOrAddAll(GetOrAdd(r, keys[0]).registry, keys[1..])
  }

  /** A series of `GetOrAdd` calls only ever adds locks, keeps the
      registry valid, and adds exactly the requested keys. */
  lemma {:induction false} GetOrAddAllGrows(r: Registry, keys: seq<string>)
    ensures Grows(r, GetOrAddAll(r, keys))
    ensures Valid(r) ==> Valid(GetOrAddAll(r, keys))
    ensures forall k :: k in GetOrAddAll(r, keys).locks <==> k in r.locks || k in keys
    decreases |keys|
  {
    if keys != [] {
      var r1 := GetOrAdd(r, keys[0]).registry;
      GetOrAddAllGrows(r1, keys[1..]);
      assert forall k :: k in keys <==> k == keys[0] || k in keys[1..];
    }
  }

  /** Once a lock exists for `key`, any later `GetOrAdd(key)`, after any
      number of calls for other keys, hands out that same lock. */
  lemma LockIsStable(r: Registry, key: string, between: seq<string>)
    ensures
      var first := GetOrAdd(r, key);
      GetOrAdd(GetOrAddAll(first.registry, between), key).lock == first.lock
  {
    var first := GetOrAdd(r, key);
    GetOrAddAllGrows(first.registry, between);
  }
}
