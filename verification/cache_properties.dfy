/** Properties that relate several calls on the cache: what a get-or-compute
    call sees after other callers' writes, what a later call sees after an
    earlier one, and the worked example of the flag client. */
module CacheProperties {
  import opened Values
  import opened MemoryStore
  import opened CacheUtility

  /** Writes to other keys leave `key`'s entry (or absence) as it was. */
  lemma {:induction false} UntouchedKeyKeepsEntry(s: Store, ws: seq<Write>, key: string)
    requires forall j :: 0 <= j < |ws| ==> ws[j].key != key
    ensures key in ApplyWrites(s, ws) <==> key in s
    ensures key in s ==> ApplyWrites(s, ws)[key] == s[key]
    ensures GetObject(ApplyWrites(s, ws), key) == GetObject(s, key)
    decreases |ws|
  {
    if ws != [] {
      UntouchedKeyKeepsEntry(ApplyWrite(s, ws[0]), ws[1..], key);
    }
  }

  /** The last write to a key decides its entry: a `Put` followed only by
      writes to other keys leaves exactly what it put. */
  lemma {:induction false} LastPutWins(s: Store, ws: seq<Write>, i: nat)
    requires i < |ws| && ws[i].Put?
    requires forall j :: i < j < |ws| ==> ws[j].key != ws[i].key
    ensures ws[i].key in ApplyWrites(s, ws)
    ensures ApplyWrites(s, ws)[ws[i].key] == Entry(ws[i].value, ws[i].options)
    decreases |ws|
  {
    if i == 0 {
      UntouchedKeyKeepsEntry(ApplyWrite(s, ws[0]), ws[1..], ws[0].key);
    } else {
      LastPutWins(ApplyWrite(s, ws[0]), ws[1..], i - 1);
    }
  }

  /** The double check: when another caller's non-null write (an `Update`
      or a population on the other path) lands between the first read and
      the re-read and is the last write to the key, the factory is not
      invoked, the entry is left as that caller wrote it, and the result is
      its object or `default` when the type does not match. */
  lemma PopulatedWhileWaitingSkipsFactory(path: Path, c: Cache, key: string, t: Ty, f: Factory,
                                          options: Options, duringWait: seq<Write>,
                                          duringFactory: seq<Write>, i: nat)
    requires FactoryFits(f, t) && f.Delegate?
    requires !IsType(GetObject(c.store, key), t)
    requires i < |duringWait| && duringWait[i].Put? && duringWait[i].key == key
    requires duringWait[i].value != Null
    requires forall j :: i < j < |duringWait| ==> duringWait[j].key != key
    ensures
      var r := GetOrCompute(path, c, key, t, f, options, duringWait, duringFactory);
      var v := duringWait[i].value;
      && r.calls == 0
      && r.cache.store == ApplyWrites(c.store, duringWait)
      && r.cache.store[key] == Entry(v, duringWait[i].options)
      && r.result == Ok(if IsType(v, t) then v else Default(t))
  {
    LastPutWins(c.store, duringWait, i);
  }

  /** Last write wins against an `Update` that lands while the factory runs:
      the factory's non-null result, with the call's options, is what the
      key holds afterwards; other keys keep what the other callers wrote. */
  lemma PopulationOverwritesConcurrentUpdate(path: Path, c: Cache, key: string, t: Ty, f: Factory,
                                             options: Options, duringFactory: seq<Write>)
    requires FactoryFits(f, t) && f.Delegate? && f.outcome.Returns? && f.outcome.v != Null
    requires GetObject(c.store, key) == Null
    ensures
      var r := GetOrCompute(path, c, key, t, f, options, [], duringFactory);
      && r.calls == 1
      && r.result == Ok(f.outcome.v)
      && key in r.cache.store && r.cache.store[key] == Entry(f.outcome.v, options)
      && SameElsewhere(ApplyWrites(c.store, duringFactory), r.cache.store, key)
  {
  }

  /** After a call caches an object, a second call for the same key and type,
      on either path and with any factory, returns that object without
      invoking its factory and leaves the store as it is. */
  lemma HitIsStable(p1: Path, p2: Path, c: Cache, key: string, t: Ty, f1: Factory, f2: Factory,
                    options1: Options, options2: Options)
    requires FactoryFits(f1, t) && FactoryFits(f2, t) && f2.Delegate?
    requires f1.Delegate? && f1.outcome.Returns? && f1.outcome.v != Null
    requires !IsType(GetObject(c.store, key), t) ==> GetObject(c.store, key) == Null
    ensures
      var r1 := GetOrCompute(p1, c, key, t, f1, options1, [], []);
      var r2 := GetOrCompute(p2, r1.cache, key, t, f2, options2, [], []);
      && r2.calls == 0
      && r2.result == r1.result
      && r2.cache.store == r1.cache.store
  {
  }

  /** A null result is not cached: the store is as before, and the next call
      invokes its factory again. */
  lemma NullResultIsRetried(p1: Path, p2: Path, c: Cache, key: string, t: Ty, f1: Factory, f2: Factory,
                            options1: Options, options2: Options)
    requires FactoryFits(f1, t) && FactoryFits(f2, t) && f2.Delegate?
    requires f1 == Delegate(Returns(Null))
    requires GetObject(c.store, key) == Null
    ensures
      var r1 := GetOrCompute(p1, c, key, t, f1, options1, [], []);
      var r2 := GetOrCompute(p2, r1.cache, key, t, f2, options2, [], []);
      && r1.calls == 1 && r1.result == Ok(Default(t))
      && r1.cache.store == c.store
      && r2.calls == 1
  {
  }

  /** A factory that throws leaves no entry behind: the next call retries. */
  lemma ExceptionIsRetried(p1: Path, p2: Path, c: Cache, key: string, t: Ty, f1: Factory, f2: Factory,
                           options1: Options, options2: Options)
    requires FactoryFits(f2, t) && f2.Delegate?
    requires f1.Delegate? && f1.outcome.Throws?
    requires GetObject(c.store, key) == Null
    ensures
      var r1 := GetOrCompute(p1, c, key, t, f1, options1, [], []);
      var r2 := GetOrCompute(p2, r1.cache, key, t, f2, options2, [], []);
      && r1.result == Err(Raised(f1.outcome.exception))
      && r1.cache.store == c.store
      && r2.calls == 1
  {
  }

  /** `Remove` forces the next get-or-compute call to invoke its factory. */
  lemma RemoveForcesRecompute(path: Path, c: Cache, key: string, t: Ty, f: Factory, options: Options)
    requires FactoryFits(f, t) && f.Delegate?
    ensures GetOrCompute(path, RemoveKey(c, key), key, t, f, options, [], []).calls == 1
  {
  }

  /** A null stored by `Update` reads as absent, so the next get-or-compute
      call invokes its factory. An object it returns replaces the null; a null
      result or an exception leaves the null in place. */
  lemma NullUpdateReadsAsAbsent(path: Path, c: Cache, key: string, t: Ty, f: Factory, options: Options)
    requires FactoryFits(f, t) && f.Delegate?
    ensures key in Update(c, key, Null).store
    ensures GetObject(Update(c, key, Null).store, key) == Null
    ensures
      var r := GetOrCompute(path, Update(c, key, Null), key, t, f, options, [], []);
      && r.calls == 1
      && (f.outcome.Returns? && f.outcome.v != Null ==> r.cache.store[key] == Entry(f.outcome.v, options))
      && (!(f.outcome.Returns? && f.outcome.v != Null) ==> r.cache.store == Update(c, key, Null).store)
  {
  }

  /** The flag client's usage: a first call caches `true` with never-remove
      priority; a second call with another factory still returns `true`;
      after `Remove`, a call returns what its factory computes. */
  lemma FlagScenario()
    ensures
      var r1 := GetAsyncNeverRemove(InitialCache, "flagA", TBool, Delegate(Returns(BoolVal(true))));
      var r2 := GetAsyncNeverRemove(r1.cache, "flagA", TBool, Delegate(Returns(BoolVal(false))));
      var r3 := GetAsyncNeverRemove(RemoveKey(r2.cache, "flagA"), "flagA", TBool, Delegate(Returns(BoolVal(false))));
      && r1.result == Ok(BoolVal(true)) && r1.calls == 1
      && r1.cache.store == map["flagA" := Entry(BoolVal(true), NeverRemoveOptions)]
      && r2.result == Ok(BoolVal(true)) && r2.calls == 0
      && r3.result == Ok(BoolVal(false)) && r3.calls == 1
  {
  }
}
