/** The static `CacheUtility` class: a memoizing cache over one process-wide
    `MemoryCache` and one `KeyLocks` registry. Every operation is a pure
    function from the current state to the caller's result, the next state
    and the number of times the caller's factory was invoked.

    A get-or-compute call runs in phases: the argument check and a lock-free
    first read; then, after taking the per-key lock, a re-read; then, if the
    key is still empty, the factory call and the write of its result. Other
    callers may write to the store between the first read and the re-read
    (`duringWait`) and while the factory runs (`duringFactory`): `Update` and
    `Remove` take no lock, and the blocking and suspending paths do not share
    one. A call with both sequences empty is a call that ran undisturbed. */
module CacheUtility {
  import opened Values
  import opened MemoryStore
  import LockRegistry

  /** What invoking the caller's factory does: return an object or throw. */
  datatype Outcome = Returns(v: Val) | Throws(exception: string)

  /** The `cacheMethod` argument: a null delegate, or a delegate whose
      invocation (awaited, on the suspending path) has the given outcome. */
  datatype Factory = NullFactory | Delegate(outcome: Outcome)

  datatype Error = ArgumentNull(paramName: string) | Raised(exception: string)

  datatype Result = Ok(value: Val) | Err(error: Error)

  /** The process-wide state: the `MemoryCache` and the `KeyLocks` registry. */
  datatype Cache = Cache(store: Store, locks: LockRegistry.Registry)

  /** What a get-or-compute call returns, the state it leaves behind, and how
      many times it invoked the factory. */
  datatype Response = Response(result: Result, cache: Cache, calls: nat)

  /** `Get<TResult>` locks on the interned key string; `GetAsync<TResult>`
      takes an `AsyncLock` from `KeyLocks`. */
  datatype Path = Blocking | Suspending

  /** A write by another caller: `Update` (any overload, or another caller's
      population) or `Remove`. */
  datatype Write = Put(key: string, value: Val, options: Options) | Delete(key: string)

  /** The name the argument check reports. */
  const FactoryParam: string := "cacheMethod"

  const InitialCache: Cache := Cache(EmptyStore, LockRegistry.Empty)

  /** At process start the store holds no null and `KeyLocks` is valid, so the
      `NoNulls` and `Valid` clauses of the get-or-compute contracts apply from
      the first call on. */
  lemma InitialCacheIsSound()
    ensures NoNulls(InitialCache.store)
    ensures LockRegistry.Valid(InitialCache.locks)
  {
    LockRegistry.EmptyIsValid();
  }

  /** A factory the C# type system admits for `TResult`: a delegate returning
      `TResult` never returns anything else. */
  predicate FactoryFits(f: Factory, t: Ty) {
    f.Delegate? && f.outcome.Returns? ==> Fits(f.outcome.v, t)
  }

  /** The store never holds null (what population alone guarantees). */
  predicate NoNulls(s: Store) {
    forall k :: k in s ==> s[k].value != Null
  }

  function ApplyWrite(s: Store, w: Write): (s': Store)
    ensures w.Put? ==> w.key in s' && s'[w.key] == Entry(w.value, w.options)
    ensures w.Delete? ==> w.key !in s'
    ensures SameElsewhere(s, s', w.key)
  {
    match w
    case Put(k, v, o) => Set(s, k, v, o)
    case Delete(k) => Remove(s, k)
  }

  /** The store after other callers' writes, in order. */
  function ApplyWrites(s: Store, ws: seq<Write>): Store
    decreases |ws|
  {
    if ws == [] then s else ApplyWrites(ApplyWrite(s, ws[0]), ws[1..])
  }

  // ---------------------------------------------------------------------
  // The plain operations

  /** `Get(string)`: the stored object, or null when the key is absent. */
  function GetObject(s: Store, key: string): (v: Val)
    ensures key in s ==> v == s[key].value
    ensures key !in s ==> v == Null
  {
    if key in s then s[key].value else Null
  }

  /** Reading a key after a write: a `Put` of that key reads back its value,
      a `Delete` of it reads null, and a write to another key is invisible. */
  lemma GetObjectAfterWrite(s: Store, w: Write, key: string)
    ensures GetObject(ApplyWrite(s, w), key) ==
      if key != w.key then GetObject(s, key)
      else if w.Put? then w.value
      else Null
  {
  }

  /** `Remove(string)`: the key is absent afterwards, nothing else changes,
      and the lock registry is not touched. */
  function RemoveKey(c: Cache, key: string): (c': Cache)
    ensures key !in c'.store && GetObject(c'.store, key) == Null
    ensures SameElsewhere(c.store, c'.store, key)
    ensures c'.locks == c.locks
  {
    Cache(Remove(c.store, key), c.locks)
  }

  /** `Update(string, object, MemoryCacheEntryOptions)`: the key maps to the
      value with the given options whatever was there before, nothing else
      changes, and the lock registry is neither consulted nor changed. */
  function UpdateWith(c: Cache, key: string, value: Val, options: Options): (c': Cache)
    ensures key in c'.store && c'.store[key] == Entry(value, options)
    ensures GetObject(c'.store, key) == value
    ensures SameElsewhere(c.store, c'.store, key)
    ensures c'.locks == c.locks
  {
    Cache(Set(c.store, key, value, options), c.locks)
  }

  /** `Update(string, object)`: stored with fresh default entry options. */
  function Update(c: Cache, key: string, value: Val): (c': Cache)
    ensures key in c'.store && c'.store[key] == Entry(value, DefaultOptions)
    ensures SameElsewhere(c.store, c'.store, key)
    ensures c'.locks == c.locks
  {
    UpdateWith(c, key, value, DefaultOptions)
  }

  /** `Update(string, object, DateTimeOffset)`: stored with that absolute expiration. */
  function UpdateUntil(c: Cache, key: string, value: Val, expiration: int): (c': Cache)
    ensures key in c'.store && c'.store[key] == Entry(value, ExpiresAt(expiration))
    ensures c'.store[key].options.priority == DefaultOptions.priority
    ensures c'.store[key].options.expiration == AbsoluteAt(expiration)
    ensures SameElsewhere(c.store, c'.store, key)
    ensures c'.locks == c.locks
  {
    UpdateWith(c, key, value, ExpiresAt(expiration))
  }

  // ---------------------------------------------------------------------
  // The phases of a get-or-compute call

  /** The outcome of the argument check and the lock-free first read. */
  datatype Probe = Rejected | FastHit(v: Val) | Missed

  /** Reject a null factory before looking at the store; otherwise a stored
      object of the requested type is a hit, and anything else (absent, null,
      or of another type) is a miss. */
  function FirstRead(s: Store, key: string, t: Ty, f: Factory): (p: Probe)
    // The argument check comes first: a null factory is rejected whatever the store holds.
    ensures p.Rejected? <==> f.NullFactory?
    // A hit hands back exactly what a plain lookup sees, and it passes the type test.
    ensures p.FastHit? ==> p.v == GetObject(s, key) && IsType(p.v, t)
    // A miss is a valid factory facing an absent key, a null, or an object of another type.
    ensures p.Missed? ==> f.Delegate? && !IsType(GetObject(s, key), t)
  {
    if f.NullFactory? then Rejected
    else if IsType(GetObject(s, key), t) then FastHit(GetObject(s, key))
    else Missed
  }

  /** What the caller holding the lock does with the store it re-reads. */
  datatype Step = Step(result: Result, store: Store, calls: nat)

  /** The re-read under the lock and, when the key is still empty, the
      factory call and the caching of a non-null result. `duringFactory`
      are the other callers' writes while the factory runs. */
  function UnderLock(s: Store, key: string, t: Ty, outcome: Outcome, options: Options,
                     duringFactory: seq<Write>): (st: Step)
    requires outcome.Returns? ==> Fits(outcome.v, t)
    // The factory runs at most once, and exactly when the re-read sees nothing.
    ensures st.calls <= 1
    ensures st.calls == 1 <==> GetObject(s, key) == Null
    // A populated key is never overwritten; the caller gets its object when
    // the type matches, `default(T)` otherwise.
    ensures st.calls == 0 ==> st.store == s && st.result.Ok?
    ensures st.calls == 0 && IsType(GetObject(s, key), t) ==> st.result.value == GetObject(s, key)
    ensures st.calls == 0 && !IsType(GetObject(s, key), t) ==> st.result.value == Default(t)
    // The caller gets a `TResult`, or the factory's exception.
    ensures st.result.Ok? ==> Fits(st.result.value, t)
    ensures st.result.Err? <==> st.calls == 1 && outcome.Throws?
    ensures st.result.Err? ==> st.result.error == Raised(outcome.exception)
    // A factory that returned hands its own object back, or `default(T)` for null.
    ensures st.calls == 1 && outcome.Returns? ==>
      st.result == Ok(if outcome.v == Null then Default(t) else outcome.v)
    // After a factory call, the only key the caller writes is its own, and it
    // writes it last, with exactly the non-null object it returns.
    ensures st.calls == 1 ==> SameElsewhere(ApplyWrites(s, duringFactory), st.store, key)
    ensures st.calls == 1 && st.result.Ok? && st.result.value != Null ==>
      key in st.store && st.store[key] == Entry(st.result.value, options)
    ensures st.calls == 1 && !(st.result.Ok? && st.result.value != Null) ==>
      st.store == ApplyWrites(s, duringFactory)
  {
    var current := GetObject(s, key);
    if current != Null then
      Step(Ok(if IsType(current, t) then current else Default(t)), s, 0)
    else
      var after := ApplyWrites(s, duringFactory);
      match outcome
      case Throws(e) => Step(Err(Raised(e)), after, 1)
      case Returns(v) =>
        if v != Null then Step(Ok(v), Set(after, key, v, options), 1)
        else Step(Ok(Default(t)), after, 1)
  }

  /** The shared algorithm of `Get<TResult>` and `GetAsync<TResult>`, with
      other callers' writes between its phases. */
  function GetOrCompute(path: Path, c: Cache, key: string, t: Ty, f: Factory, options: Options,
                        duringWait: seq<Write>, duringFactory: seq<Write>): (r: Response)
    requires FactoryFits(f, t)
    // A null factory is rejected before any lookup, lock or write.
    ensures f.NullFactory? ==> r == Response(Err(ArgumentNull(FactoryParam)), c, 0)
    // A hit of the requested type: that object, no factory call, nothing changes.
    ensures f.Delegate? && IsType(GetObject(c.store, key), t) ==> r == Response(Ok(GetObject(c.store, key)), c, 0)
    // The factory runs exactly when the first read missed and the re-read found the key empty.
    ensures r.calls <= 1
    ensures r.calls == 1 <==>
      f.Delegate? && !IsType(GetObject(c.store, key), t) && GetObject(ApplyWrites(c.store, duringWait), key) == Null
    // Populated by the time of the re-read: no write, the stored object or `default`.
    ensures
      var seen := GetObject(ApplyWrites(c.store, duringWait), key);
      f.Delegate? && !IsType(GetObject(c.store, key), t) && seen != Null ==>
        && r.cache.store == ApplyWrites(c.store, duringWait)
        && r.result == Ok(if IsType(seen, t) then seen else Default(t))
    // Still empty: a non-null result is written last, over whatever others wrote meanwhile;
    // a null result or an exception writes nothing.
    ensures
      var others := ApplyWrites(ApplyWrites(c.store, duringWait), duringFactory);
      r.calls == 1 ==>
        match f.outcome
        case Returns(v) =>
          && r.result == Ok(if v == Null then Default(t) else v)
          && r.cache.store == (if v == Null then others else Set(others, key, v, options))
        case Throws(e) =>
          r.result == Err(Raised(e)) && r.cache.store == others
    // The caller gets a `TResult` whenever it gets anything.
    ensures r.result.Ok? ==> Fits(r.result.value, t)
    // Only the suspending path touches the registry, and only after a miss.
    ensures path == Blocking || !(f.Delegate? && !IsType(GetObject(c.store, key), t)) ==> r.cache.locks == c.locks
    ensures path == Suspending && f.Delegate? && !IsType(GetObject(c.store, key), t) ==>
      r.cache.locks == LockRegistry.GetOrAdd(c.locks, key).registry
  {
    match FirstRead(c.store, key, t, f)
    case Rejected => Response(Err(ArgumentNull(FactoryParam)), c, 0)
    case FastHit(v) => Response(Ok(v), c, 0)
    case Missed =>
      var locks := if path == Suspending then LockRegistry.GetOrAdd(c.locks, key).registry else c.locks;
      var st := UnderLock(ApplyWrites(c.store, duringWait), key, t, f.outcome, options, duringFactory);
      Response(st.result, Cache(st.store, locks), st.calls)
  }

  // ---------------------------------------------------------------------
  // The public get-or-compute overloads, each running undisturbed

  /** What an undisturbed get-or-compute call promises about the store and
      its result, in terms of the state before the call. */
  predicate Memoizes(c: Cache, key: string, t: Ty, f: Factory, options: Options, r: Response) {
    var stored := GetObject(c.store, key);
    && (f.NullFactory? ==> r.result == Err(ArgumentNull(FactoryParam)) && r.cache.store == c.store && r.calls == 0)
    && (f.Delegate? && stored != Null ==>
          && r.calls == 0
          && r.cache.store == c.store
          && r.result == Ok(if IsType(stored, t) then stored else Default(t)))
    && (f.Delegate? && stored == Null ==>
          && r.calls == 1
          && match f.outcome
             case Returns(v) =>
               && r.result == Ok(if v == Null then Default(t) else v)
               && r.cache.store == (if v == Null then c.store else Set(c.store, key, v, options))
             case Throws(e) =>
               r.result == Err(Raised(e)) && r.cache.store == c.store)
  }

  /** An undisturbed blocking call: it memoizes, leaves `KeyLocks` alone,
      and keeps a null-free store null-free. */
  predicate BlockingCall(c: Cache, key: string, t: Ty, f: Factory, options: Options, r: Response) {
    && Memoizes(c, key, t, f, options, r)
    && r.cache.locks == c.locks
    && (NoNulls(c.store) ==> NoNulls(r.cache.store))
  }

  /** An undisturbed suspending call: it memoizes; after a fast-path miss the
      key's lock is in `KeyLocks`, which only grows and stays valid; and a
      null-free store stays null-free. */
  predicate SuspendingCall(c: Cache, key: string, t: Ty, f: Factory, options: Options, r: Response) {
    var missed := f.Delegate? && !IsType(GetObject(c.store, key), t);
    && Memoizes(c, key, t, f, options, r)
    && (missed ==> r.cache.locks == LockRegistry.GetOrAdd(c.locks, key).registry)
    && (!missed ==> r.cache.locks == c.locks)
    && LockRegistry.Grows(c.locks, r.cache.locks)
    && (LockRegistry.Valid(c.locks) ==> LockRegistry.Valid(r.cache.locks))
    && (NoNulls(c.store) ==> NoNulls(r.cache.store))
  }

  /** `Get<TResult>(string, Func<TResult>, MemoryCacheEntryOptions)`. */
  function Get(c: Cache, key: string, t: Ty, f: Factory, options: Options): (r: Response)
    requires FactoryFits(f, t)
    ensures BlockingCall(c, key, t, f, options, r)
  {
    GetOrCompute(Blocking, c, key, t, f, options, [], [])
  }

  /** `GetAsync<TResult>(string, Func<Task<TResult>>, MemoryCacheEntryOptions)`. */
  function GetAsync(c: Cache, key: string, t: Ty, f: Factory, options: Options): (r: Response)
    requires FactoryFits(f, t)
    ensures SuspendingCall(c, key, t, f, options, r)
  {
    GetOrCompute(Suspending, c, key, t, f, options, [], [])
  }

  /** The entries a call wrote: present afterwards and new or changed. */
  predicate WrittenWith(c: Cache, r: Response, options: Options) {
    forall k :: k in r.cache.store && (k !in c.store || r.cache.store[k] != c.store[k]) ==>
      r.cache.store[k].options == options
  }

  /** `Get<TResult>(string, Func<TResult>)`: whatever it caches never expires. */
  function GetNeverRemove(c: Cache, key: string, t: Ty, f: Factory): (r: Response)
    requires FactoryFits(f, t)
    ensures BlockingCall(c, key, t, f, NeverRemoveOptions, r)
    ensures WrittenWith(c, r, NeverRemoveOptions)
  {
    Get(c, key, t, f, NeverRemoveOptions)
  }

  /** `Get<TResult>(string, Func<TResult>, DateTimeOffset)`. */
  function GetUntil(c: Cache, key: string, t: Ty, f: Factory, expiration: int): (r: Response)
    requires FactoryFits(f, t)
    ensures BlockingCall(c, key, t, f, ExpiresAt(expiration), r)
    ensures WrittenWith(c, r, ExpiresAt(expiration))
  {
    Get(c, key, t, f, ExpiresAt(expiration))
  }

  /** `GetAsync<TResult>(string, Func<Task<TResult>>)`: whatever it caches never expires. */
  function GetAsyncNeverRemove(c: Cache, key: string, t: Ty, f: Factory): (r: Response)
    requires FactoryFits(f, t)
    ensures SuspendingCall(c, key, t, f, NeverRemoveOptions, r)
    ensures WrittenWith(c, r, NeverRemoveOptions)
  {
    GetAsync(c, key, t, f, NeverRemoveOptions)
  }

  /** `GetAsync<TResult>(string, Func<Task<TResult>>, DateTimeOffset)`. */
  function GetAsyncUntil(c: Cache, key: string, t: Ty, f: Factory, expiration: int): (r: Response)
    requires FactoryFits(f, t)
    ensures SuspendingCall(c, key, t, f, ExpiresAt(expiration), r)
    ensures WrittenWith(c, r, ExpiresAt(expiration))
  {
    GetAsync(c, key, t, f, ExpiresAt(expiration))
  }
}
