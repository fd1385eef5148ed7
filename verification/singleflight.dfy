/** Many callers of `GetAsync<TResult>` for one empty key at once: each one's
    lock-free first read misses, each takes the key's lock from `KeyLocks`,
    and they then hold it one after another, in some order. Only the callers
    up to the first one whose factory result gets cached invoke their
    factories; every later caller finds the key populated at its re-read. */
module Singleflight {
  import opened Values
  import opened MemoryStore
  import opened CacheUtility
  import LockRegistry

  /** A factory whose result is cached when it runs on an empty key. */
  predicate Caches(f: Factory) {
    f.Delegate? && f.outcome.Returns? && f.outcome.v != Null
  }

  predicate AnyCaches(fs: seq<Factory>) {
    exists i :: 0 <= i < |fs| && Caches(fs[i])
  }

  /** How many factories run when the callers hold the lock in the order of
      `fs`: every one up to and including the first whose result is cached. */
  function Attempts(fs: seq<Factory>): (n: nat)
    ensures n <= |fs|
    ensures !AnyCaches(fs) ==> n == |fs|
    ensures AnyCaches(fs) ==> 0 < n && Caches(fs[n - 1])
    ensures forall i :: 0 <= i < n - 1 ==> !Caches(fs[i])
  {
    if fs == [] then 0
    else if Caches(fs[0]) then 1
    else
      assert forall i :: 0 < i < |fs| ==> fs[i] == fs[1..][i - 1];
      1 + Attempts(fs[1..])
  }

  /** What a caller whose factory ran but cached nothing gets back. */
  function Uncached(f: Factory, t: Ty): (r: Result)
    requires f.Delegate?
    ensures f.outcome.Throws? <==> r.Err?
    ensures r.Ok? ==> r.value == Default(t)
  {
    match f.outcome
    case Throws(e) => Err(Raised(e))
    case Returns(_) => Ok(Default(t))
  }

  /** One more caller at the back of the queue runs its factory only if no
      earlier caller's result was cached. */
  lemma {:induction false} AttemptsSnoc(fs: seq<Factory>, f: Factory)
    ensures AnyCaches(fs + [f]) <==> AnyCaches(fs) || Caches(f)
    ensures Attempts(fs + [f]) == if AnyCaches(fs) then Attempts(fs) else |fs| + 1
    decreases |fs|
  {
    var ext := fs + [f];
    assert ext[|fs|] == f;
    assert forall i :: 0 <= i < |fs| ==> ext[i] == fs[i];
    if fs != [] {
      assert ext[1..] == fs[1..] + [f];
      AttemptsSnoc(fs[1..], f);
      assert forall i :: 0 < i < |fs| ==> fs[i] == fs[1..][i - 1];
    }
  }

  /** What the callers `ps` wrote before the next caller's re-read: the one
      cached result, if any of them cached one. */
  function EarlierWrites(ps: seq<Factory>, key: string, options: Options): (ws: seq<Write>)
    ensures |ws| <= 1
    ensures AnyCaches(ps) <==> |ws| == 1
    ensures |ws| == 1 ==> ws[0] == Put(key, ps[Attempts(ps) - 1].outcome.v, options)
  {
    if AnyCaches(ps) then [Put(key, ps[Attempts(ps) - 1].outcome.v, options)] else []
  }

  /** A queued caller is a `GetAsync` call whose fast path missed and whose
      re-read sees what the earlier callers wrote: its result is that of the
      modelled call with those writes landing while it waited for the lock. */
  lemma QueuedCallIsGetOrCompute(c: Cache, key: string, t: Ty, ps: seq<Factory>, f: Factory,
                                 options: Options, store: Store)
    requires f.Delegate? && FactoryFits(f, t)
    requires GetObject(c.store, key) == Null
    requires store == ApplyWrites(c.store, EarlierWrites(ps, key, options))
    ensures UnderLock(store, key, t, f.outcome, options, []).result ==
            GetOrCompute(Suspending, c, key, t, f, options, EarlierWrites(ps, key, options), []).result
  {
  }

  /** The state after the callers `ps` have each held the lock once, in
      order, starting from a cache whose key was empty: `calls` factories
      ran, the earlier callers got their own factory's outcome, and once a
      result was cached every caller from then on got it. */
  ghost predicate Served(c: Cache, key: string, t: Ty, ps: seq<Factory>, options: Options,
                         results: seq<Result>, store: Store, calls: nat)
  {
    && (forall j :: 0 <= j < |ps| ==> ps[j].Delegate?)
    && |results| == |ps|
    && calls == Attempts(ps)
    && (!AnyCaches(ps) ==> store == c.store)
    && (AnyCaches(ps) ==> store == Set(c.store, key, ps[Attempts(ps) - 1].outcome.v, options))
    && (forall j :: 0 <= j < Attempts(ps) && !Caches(ps[j]) ==> results[j] == Uncached(ps[j], t))
    && (AnyCaches(ps) ==> forall j :: Attempts(ps) - 1 <= j < |ps| ==> results[j] == Ok(ps[Attempts(ps) - 1].outcome.v))
  }

  /** Each of the callers `ps` got what the modelled `GetAsync` call gives,
      with the writes of the callers before it landing while it waited. */
  ghost predicate AgreesWithCalls(c: Cache, key: string, t: Ty, ps: seq<Factory>, options: Options,
                                  results: seq<Result>)
  {
    && (forall j :: 0 <= j < |ps| ==> FactoryFits(ps[j], t))
    && |results| == |ps|
    && (forall j :: 0 <= j < |ps| ==>
          results[j] == GetOrCompute(Suspending, c, key, t, ps[j], options, EarlierWrites(ps[..j], key, options), []).result)
  }

  /** One more caller holding the lock: it re-reads the store the earlier
      callers left and either finds the cached object or runs its factory. */
  lemma ServeNext(c: Cache, key: string, t: Ty, ps: seq<Factory>, f: Factory, options: Options,
                  results: seq<Result>, store: Store, calls: nat)
    requires f.Delegate? && FactoryFits(f, t)
    requires forall j :: 0 <= j < |ps| ==> FactoryFits(ps[j], t)
    requires GetObject(c.store, key) == Null
    requires Served(c, key, t, ps, options, results, store, calls)
    ensures
      var step := UnderLock(store, key, t, f.outcome, options, []);
      Served(c, key, t, ps + [f], options, results + [step.result], step.store, calls + step.calls)
  {
    AttemptsSnoc(ps, f);
    var ext := ps + [f];
    assert ext[|ps|] == f;
    assert forall j :: 0 <= j < |ps| ==> ext[j] == ps[j];
    var step := UnderLock(store, key, t, f.outcome, options, []);
    assert ApplyWrites(store, []) == store;

    if AnyCaches(ps) {
      var v := ps[Attempts(ps) - 1].outcome.v;
      assert FactoryFits(ps[Attempts(ps) - 1], t);
      assert IsType(v, t);
      assert GetObject(store, key) == v;
      assert step.result == Ok(v) && step.store == store;
    } else {
      assert GetObject(store, key) == Null;
    }
  }

  /** Every queued caller got what the modelled `GetAsync` call gives: the
      callers before it wrote the cached object if one of them cached it and
      nothing otherwise, so its re-read either finds that object or finds the
      key empty and runs its own factory. */
  lemma ServedIsGetOrCompute(c: Cache, key: string, t: Ty, fs: seq<Factory>, options: Options,
                             results: seq<Result>, store: Store, calls: nat, j: nat)
    requires forall i :: 0 <= i < |fs| ==> FactoryFits(fs[i], t)
    requires GetObject(c.store, key) == Null
    requires Served(c, key, t, fs, options, results, store, calls)
    requires j < |fs|
    ensures results[j] == GetOrCompute(Suspending, c, key, t, fs[j], options, EarlierWrites(fs[..j], key, options), []).result
  {
    var ps := fs[..j];
    assert forall i :: 0 <= i < j ==> ps[i] == fs[i];
    var n := Attempts(fs);
    if AnyCaches(fs) && n <= j {
      assert ps[n - 1] == fs[n - 1];
      assert AnyCaches(ps);
      var m := Attempts(ps);
      assert ps[m - 1] == fs[m - 1];
      assert m == n;
    } else {
      assert !AnyCaches(ps);
    }
    QueuedCallIsGetOrCompute(c, key, t, ps, fs[j], options, ApplyWrites(c.store, EarlierWrites(ps, key, options)));
  }

  /** The queue `fs` after its first `i` callers took their turn: each was
      handed the key's one lock, and the results, store and count are as
      `Served` describes. */
  ghost predicate Queue(c: Cache, key: string, t: Ty, fs: seq<Factory>, options: Options, i: nat,
                        results: seq<Result>, held: seq<LockRegistry.LockId>, store: Store,
                        locks: LockRegistry.Registry, calls: nat)
  {
    && i <= |fs|
    && |held| == i
    && locks == (if i == 0 then c.locks else LockRegistry.GetOrAdd(c.locks, key).registry)
    && (forall j :: 0 <= j < i ==> held[j] == LockRegistry.GetOrAdd(c.locks, key).lock)
    && Served(c, key, t, fs[..i], options, results, store, calls)
  }

  /** The `i`-th caller of the queue takes the key's lock and its turn. */
  lemma QueueStep(c: Cache, key: string, t: Ty, fs: seq<Factory>, options: Options, i: nat,
                  results: seq<Result>, held: seq<LockRegistry.LockId>, store: Store,
                  locks: LockRegistry.Registry, calls: nat)
    requires forall j :: 0 <= j < |fs| ==> fs[j].Delegate? && FactoryFits(fs[j], t)
    requires GetObject(c.store, key) == Null
    requires i < |fs|
    requires Queue(c, key, t, fs, options, i, results, held, store, locks, calls)
    ensures FactoryFits(fs[i], t)
    ensures
      var acquired := LockRegistry.GetOrAdd(locks, key);
      var step := UnderLock(store, key, t, fs[i].outcome, options, []);
      Queue(c, key, t, fs, options, i + 1, results + [step.result], held + [acquired.lock],
            step.store, acquired.registry, calls + step.calls)
  {
    assert fs[..i + 1] == fs[..i] + [fs[i]];
    ServeNext(c, key, t, fs[..i], fs[i], options, results, store, calls);
  }

  /** The `i`-th caller takes the key's lock from the registry and, holding
      it, re-reads the store and runs its factory if the key is still empty. */
  method TakeTurn(c: Cache, key: string, t: Ty, fs: seq<Factory>, options: Options, i: nat,
                  results: seq<Result>, held: seq<LockRegistry.LockId>, store: Store,
                  locks: LockRegistry.Registry, calls: nat)
    returns (results': seq<Result>, held': seq<LockRegistry.LockId>, store': Store,
             locks': LockRegistry.Registry, calls': nat)
    requires forall j :: 0 <= j < |fs| ==> fs[j].Delegate? && FactoryFits(fs[j], t)
    requires GetObject(c.store, key) == Null
    requires i < |fs|
    requires Queue(c, key, t, fs, options, i, results, held, store, locks, calls)
    ensures Queue(c, key, t, fs, options, i + 1, results', held', store', locks', calls')
  {
    QueueStep(c, key, t, fs, options, i, results, held, store, locks, calls);
    var acquired := LockRegistry.GetOrAdd(locks, key);
    var step := UnderLock(store, key, t, fs[i].outcome, options, []);
    results', held' := results + [step.result], held + [acquired.lock];
    store', locks', calls' := step.store, acquired.registry, calls + step.calls;
  }

  /** Once every caller has had its turn, the queue's state is the stampede's outcome. */
  lemma QueueDone(c: Cache, key: string, t: Ty, fs: seq<Factory>, options: Options,
                  results: seq<Result>, held: seq<LockRegistry.LockId>, store: Store,
                  locks: LockRegistry.Registry, calls: nat)
    requires forall i :: 0 <= i < |fs| ==> FactoryFits(fs[i], t)
    requires GetObject(c.store, key) == Null
    requires Queue(c, key, t, fs, options, |fs|, results, held, store, locks, calls)
    ensures |results| == |fs| && |held| == |fs|
    ensures calls == Attempts(fs)
    ensures forall i :: 0 <= i < |fs| ==> held[i] == LockRegistry.GetOrAdd(c.locks, key).lock
    ensures locks == if fs == [] then c.locks else LockRegistry.GetOrAdd(c.locks, key).registry
    ensures forall i :: 0 <= i < Attempts(fs) && !Caches(fs[i]) ==> results[i] == Uncached(fs[i], t)
    ensures !AnyCaches(fs) ==> store == c.store
    ensures AnyCaches(fs) ==>
      var v := fs[Attempts(fs) - 1].outcome.v;
      && store == Set(c.store, key, v, options)
      && forall i :: Attempts(fs) - 1 <= i < |fs| ==> results[i] == Ok(v)
    ensures AgreesWithCalls(c, key, t, fs, options, results)
  {
    assert fs[..|fs|] == fs;
    forall j | 0 <= j < |fs|
      ensures results[j] == GetOrCompute(Suspending, c, key, t, fs[j], options, EarlierWrites(fs[..j], key, options), []).result
    {
      ServedIsGetOrCompute(c, key, t, fs, options, results, store, calls, j);
    }
  }

  /** Callers with factories `fs` all miss on a key that is empty, then hold
      the key's lock in the order of `fs`. Every caller is handed the same
      lock; the factories run up to the first cached result; that caller and
      every later one get the cached object; the earlier ones get their own
      factory's outcome; and the key ends up holding the cached object with
      the options of the call that cached it. Each caller's result is that of
      the modelled `GetAsync` call, with the earlier callers' write landing
      while it waited for the lock. */
  method Stampede(c: Cache, key: string, t: Ty, fs: seq<Factory>, options: Options)
    returns (results: seq<Result>, held: seq<LockRegistry.LockId>, final: Cache, calls: nat)
    requires forall i :: 0 <= i < |fs| ==> fs[i].Delegate? && FactoryFits(fs[i], t)
    requires GetObject(c.store, key) == Null
    ensures |results| == |fs| && |held| == |fs|
    ensures calls == Attempts(fs)
    ensures |fs| > 0 && Caches(fs[0]) ==> calls == 1
    ensures forall i :: 0 <= i < |fs| ==> held[i] == LockRegistry.GetOrAdd(c.locks, key).lock
    ensures final.locks == if fs == [] then c.locks else LockRegistry.GetOrAdd(c.locks, key).registry
    ensures forall i :: 0 <= i < Attempts(fs) && !Caches(fs[i]) ==> results[i] == Uncached(fs[i], t)
    ensures !AnyCaches(fs) ==> final.store == c.store
    ensures AnyCaches(fs) ==>
      var v := fs[Attempts(fs) - 1].outcome.v;
      && final.store == Set(c.store, key, v, options)
      && forall i :: Attempts(fs) - 1 <= i < |fs| ==> results[i] == Ok(v)
    ensures forall i :: 0 <= i < |fs| ==>
      results[i] == GetOrCompute(Suspending, c, key, t, fs[i], options, EarlierWrites(fs[..i], key, options), []).result
  {
    results, held, calls := [], [], 0;
    var store, locks := c.store, c.locks;
    var i := 0;
    while i < |fs|
      invariant Queue(c, key, t, fs, options, i, results, held, store, locks, calls)
    {
      results, held, store, locks, calls := TakeTurn(c, key, t, fs, options, i, results, held, store, locks, calls);
      i := i + 1;
    }
    QueueDone(c, key, t, fs, options, results, held, store, locks, calls);
    final := Cache(store, locks);
  }
}
