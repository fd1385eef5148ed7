# Memoizing feature-flag cache

This project models `CacheUtility`, the static memoizing cache of the
LaunchDarkly proof-of-concept client. The cache has four parts:

- a process-wide `MemoryCache` that maps a string key to a stored object and
  the entry options it was written with;
- a lock-free lookup `Get(string)`;
- the get-or-compute calls `Get<TResult>` (blocking: it locks on the interned
  key string) and `GetAsync<TResult>` (suspending: it takes an `AsyncLock` from
  the `KeyLocks` registry);
- the unconditional writers `Remove` and `Update`.

A get-or-compute call rejects a null factory. It then reads the store without a
lock and returns a hit of the requested type. On a miss it takes the key's lock
and re-reads. If the key is still empty, it invokes the factory once and caches
a non-null result with the call's options. A null result yields `default(T)` and
is not cached. A stored object of another type yields `default(T)`, and the entry
is left as it is.

The model is a functional state machine:

- `Values`: stored objects (`Val`, with a `Null`), four representative type
  arguments for `TResult` (`Ty`), the type test `is T`, and `default(T)`.
  `bool` and `int` stand for non-nullable value types, `string` for a sealed
  reference type, and `object` for the type every non-null object passes.
- `MemoryStore`: the store as `map<string, Entry>`. Entry options are opaque
  metadata: a priority and an absolute expiration.
- `LockRegistry`: `KeyLocks` as a map from key to lock identity. `GetOrAdd`
  returns the stored lock, or stores a fresh one.
- `CacheUtility`: every public operation, as a pure function from the cache
  state to a `Response`. A response holds the caller's result, the next state,
  and the number of factory invocations. `GetOrCompute` is the shared algorithm
  with two points where other callers' writes interleave. One point is between
  the first read and the re-read. The other is while the factory runs, before
  its result is written. `Get`, `GetAsync` and the convenience overloads are
  the undisturbed calls.
- `CacheProperties`: lemmas that relate several calls. They cover the double
  check, last-write-wins, retries after a null result or an exception, and the
  flag client's usage.
- `Singleflight`: many callers miss on an empty key and then hold the same
  lock one after another. Only the factories up to the first cached result run.

The model follows the code where it departs from the intent that a stored
value is never null: `Update(string, object)` accepts null and stores it.
`Get(string)` then reads the key as null. The next get-or-compute call treats it as a miss and invokes its
factory; if the factory returns an object, that object replaces the null, while a null result or an exception leaves the null in place (`CacheProperties.NullUpdateReadsAsAbsent`). So the
store can hold null. Population alone never stores null (`NoNulls` is preserved
by `Get` and `GetAsync`).

## Model

| member | source | states |
|---|---|---|
| CacheUtility.GetObject | Client/FeatureFlag/CacheUtility.cs:23-26 | `Get(string)`: a present key reads as its stored object (which may be null), and an absent key reads as null. |
| CacheUtility.GetObjectAfterWrite | Client/FeatureFlag/CacheUtility.cs:23-26 | Read after write: a lookup after writing a key returns the value put there, or null after a removal. A write to another key does not change what the lookup returns. |
| CacheUtility.RemoveKey | Client/FeatureFlag/CacheUtility.cs:182 | Afterwards the key is absent and reads as null. Every other key keeps its entry, and the lock registry is unchanged. |
| CacheUtility.Update | Client/FeatureFlag/CacheUtility.cs:189 | The key maps to the value with default entry options, whatever it held before. Other keys are unchanged and the registry is untouched. |
| CacheUtility.UpdateUntil | Client/FeatureFlag/CacheUtility.cs:197 | The key maps to exactly the value with default priority and the given absolute expiration, whatever it held before. Other keys and the registry are unchanged. |
| CacheUtility.UpdateWith | Client/FeatureFlag/CacheUtility.cs:205 | The key maps to exactly that value and those options, whatever it held before. Other keys are unchanged, and the registry is neither consulted nor changed. |
| CacheUtility.UnderLock | Client/FeatureFlag/CacheUtility.cs:60-82 | The factory runs at most once, and exactly when the re-read sees null. A populated key is left as it is and yields its object when the type matches, else `default(T)`. The caller always gets a `TResult` or the factory's own exception; a factory that returned hands back exactly its object, or `default(T)` for null. After a factory call only the caller's key differs from what the other callers wrote; a non-null result is stored there with the call's options, and otherwise nothing is written. |
| CacheUtility.GetOrCompute | Client/FeatureFlag/CacheUtility.cs:49-87 | Null factory: argument error, state unchanged, no call. Typed hit: that object, no call, state unchanged. The factory runs at most once, and exactly when the first read missed and the re-read after others' writes found the key empty. The result always has type `TResult`. Only the suspending path adds to the registry, and only after a miss. |
| CacheUtility.Get | Client/FeatureFlag/CacheUtility.cs:49-87 | An undisturbed blocking call memoizes. A present key is returned, or `default(T)` on a type mismatch, with no call and no write. An empty key runs the factory once; a non-null result is cached with the call's options. A null result or an exception leaves the store as it was. The registry is unchanged, and a null-free store stays null-free. |
| CacheUtility.GetAsync | Client/FeatureFlag/CacheUtility.cs:123-163 | The same memoizing contract as the blocking call. After a fast-path miss the key's lock is in the registry, through `GetOrAdd`. The registry only grows and stays valid. |
| CacheUtility.GetNeverRemove | Client/FeatureFlag/CacheUtility.cs:34-37 | The whole blocking contract of `Get`, with never-remove options: it memoizes, leaves the registry unchanged and keeps a null-free store null-free. Every entry the call writes carries never-remove priority and no expiration. |
| CacheUtility.GetUntil | Client/FeatureFlag/CacheUtility.cs:96-99 | The whole blocking contract of `Get`, with the expiration's options: it memoizes, leaves the registry unchanged and keeps a null-free store null-free. Every entry the call writes carries the given absolute expiration. |
| CacheUtility.GetAsyncNeverRemove | Client/FeatureFlag/CacheUtility.cs:108-111 | The whole suspending contract of `GetAsync`, with never-remove options. It memoizes, and after a fast-path miss the key's lock is in the registry through `GetOrAdd`. The registry only grows and stays valid, and a null-free store stays null-free. Every entry the call writes carries never-remove priority. |
| CacheUtility.GetAsyncUntil | Client/FeatureFlag/CacheUtility.cs:173-176 | The whole suspending contract of `GetAsync`, with the expiration's options. It memoizes, and after a fast-path miss the key's lock is in the registry through `GetOrAdd`. The registry only grows and stays valid, and a null-free store stays null-free. Every entry the call writes carries the given absolute expiration. |
| MemoryStore.Set | Client/FeatureFlag/CacheUtility.cs:76 | After the write the key holds exactly the new value and options, and the key set grows by that key only. Every other key is unchanged. |
| MemoryStore.Remove | Client/FeatureFlag/CacheUtility.cs:182 | After the call the key is absent and every other key is unchanged. Removing an absent key changes nothing. |
| MemoryStore.ExpiresAt | Client/FeatureFlag/CacheUtility.cs:98 | The options carry exactly the given absolute expiration and the default priority. |
| MemoryStore.RemoveUndoesSet | Client/FeatureFlag/CacheUtility.cs:182-189 | Removing a key just written gives the same store as removing it without the write. |
| MemoryStore.SetOverwrites | Client/FeatureFlag/CacheUtility.cs:189-205 | Of two writes to one key, only the second is visible (last writer wins). |
| Values.IsType | Client/FeatureFlag/CacheUtility.cs:56 | The type test `is T` is never true of null, so a stored null is never a hit. |
| Values.TypeTestHierarchy | Client/FeatureFlag/CacheUtility.cs:141 | Every non-null object, and nothing else, passes `is object`. No object passes two distinct tests below `object`. |
| Values.Default | Client/FeatureFlag/CacheUtility.cs:65 | `default(T)` is a value a `Func<T>` could return. It is null exactly for the reference-type tags, and it passes the type test unless it is null. |
| LockRegistry.EmptyIsValid | Client/FeatureFlag/CacheUtility.cs:11 | `KeyLocks` starts empty, and the empty registry is valid: no two keys share a lock. |
| CacheUtility.InitialCacheIsSound | Client/FeatureFlag/CacheUtility.cs:11-12 | At process start the store holds no null and the lock registry is valid, so the null-freedom and validity guarantees of the get-or-compute calls hold from the first call on. |
| LockRegistry.GetOrAdd | Client/FeatureFlag/CacheUtility.cs:132 | The returned lock is the one stored for the key afterwards. An existing lock is returned with the registry unchanged. A new key gets a lock no other key holds. No lock is ever removed or replaced, and validity (distinct keys, distinct locks) is preserved. |
| LockRegistry.GetOrAddAllGrows | Client/FeatureFlag/CacheUtility.cs:11 | Any series of `GetOrAdd` calls keeps every existing lock and keeps the registry valid. It adds exactly the requested keys. |
| LockRegistry.LockIsStable | Client/FeatureFlag/CacheUtility.cs:132 | Once a key has a lock, a later `GetOrAdd` for it returns that same lock, whatever other keys were added in between. |
| CacheProperties.UntouchedKeyKeepsEntry | Client/FeatureFlag/CacheUtility.cs:182-205 | Writes by others to other keys leave a key's entry, or its absence, exactly as it was. |
| CacheProperties.LastPutWins | Client/FeatureFlag/CacheUtility.cs:189-205 | Among interleaved writes, the last `Update` of a key decides its entry, as long as no later write touches that key. |
| CacheProperties.PopulatedWhileWaitingSkipsFactory | Client/FeatureFlag/CacheUtility.cs:136-142 | A non-null write by another caller between the first read and the re-read, if nothing later touches the key, has these effects: the factory is not invoked; the entry stays as that caller wrote it; the result is its object, or `default(T)` on a type mismatch. |
| CacheProperties.PopulationOverwritesConcurrentUpdate | Client/FeatureFlag/CacheUtility.cs:146-153 | An `Update` that lands while the factory runs is overwritten by the factory's non-null result and the call's options. Other keys keep what the other callers wrote. |
| CacheProperties.HitIsStable | Client/FeatureFlag/CacheUtility.cs:130 | After a call caches an object, a second call on either path returns that same result, with any factory. The second factory is not invoked and the store is unchanged. |
| CacheProperties.NullResultIsRetried | Client/FeatureFlag/CacheUtility.cs:154-157 | A factory returning null yields `default(T)` and leaves the store as it was. The next call invokes its factory again. |
| CacheProperties.ExceptionIsRetried | Client/FeatureFlag/CacheUtility.cs:146 | A throwing factory's exception reaches the caller and no entry is left behind. The next call invokes its factory again. |
| CacheProperties.RemoveForcesRecompute | Client/FeatureFlag/CacheUtility.cs:182 | After `Remove`, the next get-or-compute call on either path invokes its factory. |
| CacheProperties.NullUpdateReadsAsAbsent | Client/FeatureFlag/CacheUtility.cs:189 | A null written by `Update` is a present key that reads as null. The next get-or-compute call, with any factory, invokes it; if the factory returns an object, that object replaces the null with the call's options, and a null result or an exception leaves the null in place. |
| CacheProperties.FlagScenario | Client/FeatureFlag/FeatureFlagClientService.cs:62-70 | On an empty cache, the flag client's call caches `true` with never-remove priority. A second call with a `false` factory still returns `true` and does not invoke it. After `Remove`, the next call returns `false`. |
| Singleflight.Attempts | Client/FeatureFlag/CacheUtility.cs:146-157 | When callers hold the lock in turn, the factories that run are those up to and including the first cached (non-null) result, or all of them if none is cached. |
| Singleflight.AttemptsSnoc | Client/FeatureFlag/CacheUtility.cs:136-157 | A caller added at the back of the queue runs its factory only if no earlier caller's result was cached. |
| Singleflight.ServeNext | Client/FeatureFlag/CacheUtility.cs:136-157 | One more caller holding the lock keeps the queue's invariant. Before a result is cached each caller gets its own factory's outcome; after that, each gets the cached object. |
| Singleflight.QueuedCallIsGetOrCompute | Client/FeatureFlag/CacheUtility.cs:130-159 | A caller whose re-read comes after the earlier callers' one cached write gets exactly the result of the modelled suspending call with that write landing while it waited. |
| Singleflight.ServedIsGetOrCompute | Client/FeatureFlag/CacheUtility.cs:130-159 | In a served queue, the result of each caller is the result of `GetOrCompute` on the suspending path, with the earlier callers' cached write, if any, landing before its re-read. |
| Singleflight.Stampede | Client/FeatureFlag/CacheUtility.cs:130-159 | Callers that all miss on an empty key are all handed the same lock. Factories run up to the first cached result, so exactly one runs when the first caller caches. That caller and every later one get the single cached object, and the key ends up holding it with the call's options. Each caller's result is the result of the modelled suspending call, with the earlier callers' write landing while it waited for the lock. |

## Left out

- Capacity eviction and time-based expiry inside `MemoryCache`, which is not part of this model. Priority and absolute expiration are stored as opaque metadata and never make an entry disappear.
- Real thread synchronisation: `lock (string.Intern(...))`, `AsyncLock` and `await`. Concurrency is modelled as other callers' writes interleaved at the two points where they are possible. The suspending callers that serialise on one lock are modelled as an ordered queue.
- The intern table behind the blocking path's lock. Equal key strings are equal values in the model, so the identity of the locked object is not represented.
- Null keys: `string.Intern` and `MemoryCache` reject a null key with an exception; keys in the model are always strings.
- `MemoryCacheEntryOptions` fields other than priority and absolute expiration, which this cache never sets.
- Values.Ty: four representative type arguments. Nullable value types such as `bool?` are not represented: their `default` is null, and their `Func` may return null, which is not cached. Interfaces or base classes that several runtime types pass are not represented either.
- A null `options` argument to `Get<TResult>`, `GetAsync<TResult>` or `Update` (CacheUtility.cs:49, :123, :205) is not represented. `MemoryCache` then keeps its default entry options, so such a call behaves as one passing `DefaultOptions`; every call in the model takes an `Options` value.
- Factory invocations are counted by a plain field of the response rather than observed.
- Singleflight.Stampede: covers suspending callers that all miss before any of them populates the key, with no outside writes in between. Other interleavings are covered per call by `CacheUtility.GetOrCompute`.
- `FeatureFlagClientService` (HTTP fetch, SignalR listener, event raising) is I/O. Its push handler is a call to `CacheUtility.Update`, and its `Get` is a call to `GetAsync` with never-remove priority (`CacheProperties.FlagScenario`).
- The server side (the LaunchDarkly SDK service, the controller, the hub) and both composition roots, which are wiring and not cache logic.
