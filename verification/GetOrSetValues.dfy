/** Where the values that `getOrSet` stores and returns come from, and what its waiters can see. */
module GetOrSetValues {
  import opened Prelude
  import opened GetOrSet
  import TenantKeys

  /** Some call that stores under `key` ran its factory and got `v`. */
  ghost predicate Produced(s: System, key: string, v: Value) {
    exists m :: m in s.made && m.value == v && m.call < |s.calls| && s.calls[m.call].Storage() == key
  }

  ghost predicate CallFits(s: System, c: nat)
    requires c < |s.calls|
  {
    var call := s.calls[c];
    match call.pc
    case Starting => !call.waited
    case Locking => !call.waited
    case Storing(_, v) => Made(c, v) in s.made
    case Releasing(Returned(v)) => Made(c, v) in s.made
    case Done(Returned(v)) => Made(c, v) in s.made || Produced(s, if call.waited then call.key else call.Storage(), v)
    case _ => Waits(call.pc) ==> call.waited
  }

  lemma OwnIsProduced(s: System, c: nat, v: Value)
    requires c < |s.calls| && Made(c, v) in s.made
    ensures Produced(s, s.calls[c].Storage(), v)
  {
    assert Made(c, v).call == c && Made(c, v).value == v;
  }

  ghost predicate CacheFits(s: System) { forall k :: k in s.cache ==> Produced(s, k, s.cache[k]) }

  ghost predicate Fits(s: System) { (forall c :: 0 <= c < |s.calls| ==> CallFits(s, c)) && CacheFits(s) }

  ghost predicate Extends(s: System, next: System) {
    |s.calls| <= |next.calls| && s.made <= next.made &&
    forall c :: 0 <= c < |s.calls| ==> next.calls[c].key == s.calls[c].key && next.calls[c].tenant == s.calls[c].tenant
  }

  lemma ProducedStays(s: System, next: System, key: string, v: Value)
    requires Extends(s, next) && Produced(s, key, v)
    ensures Produced(next, key, v)
  {
    var m :| m in s.made && m.value == v && m.call < |s.calls| && s.calls[m.call].Storage() == key;
    assert m in next.made && next.calls[m.call].Storage() == key;
  }

  lemma OtherCallFits(s: System, next: System, c: nat)
    requires Extends(s, next) && c < |s.calls| && next.calls[c] == s.calls[c] && CallFits(s, c)
    ensures CallFits(next, c)
  {
    var call := s.calls[c];
    match call.pc
    case Done(Returned(v)) =>
      if Made(c, v) !in s.made { ProducedStays(s, next, if call.waited then call.key else call.Storage(), v); }
    case _ =>
  }

  /** A step of one call, with what it did to the cache. */
  lemma StepOf(s: System, next: System, c: nat)
    requires Fits(s) && Extends(s, next) && |next.calls| <= |s.calls| + 1
    requires forall i :: 0 <= i < |s.calls| && i != c ==> next.calls[i] == s.calls[i]
    requires |next.calls| > |s.calls| ==> c == |s.calls|
    requires c < |next.calls| ==> CallFits(next, c)
    requires forall k :: k in next.cache ==>
               (k in s.cache && next.cache[k] == s.cache[k]) || Produced(next, k, next.cache[k])
    ensures Fits(next)
  {
    forall i | 0 <= i < |next.calls| ensures CallFits(next, i) {
      if i != c { OtherCallFits(s, next, i); }
    }
    forall k | k in next.cache ensures Produced(next, k, next.cache[k]) {
      if k in s.cache && next.cache[k] == s.cache[k] { ProducedStays(s, next, k, s.cache[k]); }
    }
  }

  lemma ReadFits(s: System, e: Event, c: nat, errs: bool)
    requires Fits(s) && Enabled(s, e)
    requires e == FirstGet(c, errs) || e == Rechecks(c, errs) || e == PollReads(c, errs)
    ensures Fits(Step(s, e))
  {
    var next := Step(s, e);
    var k := if e.FirstGet? then s.calls[c].Storage() else s.calls[c].key;
    assert CallFits(s, c);
    if k in s.cache { ProducedStays(s, next, k, s.cache[k]); }
    StepOf(s, next, c);
  }

  lemma StoreFits(s: System, c: nat)
    requires Fits(s) && Enabled(s, Stores(c))
    ensures Fits(Step(s, Stores(c)))
  {
    var next := Step(s, Stores(c));
    assert CallFits(s, c);
    assert Made(c, s.calls[c].pc.value) in next.made && next.calls[c].Storage() == s.calls[c].Storage();
    assert Produced(next, s.calls[c].Storage(), s.calls[c].pc.value);
    StepOf(s, next, c);
  }

  lemma ReleaseFits(s: System, c: nat, errs: bool)
    requires Fits(s) && Enabled(s, Releases(c, errs))
    ensures Fits(Step(s, Releases(c, errs)))
  {
    var next := Step(s, Releases(c, errs));
    assert CallFits(s, c);
    StepOf(s, next, c);
  }

  /** Steps that neither read nor write the cache on behalf of call `c`. */
  lemma LocalFits(s: System, e: Event, c: nat)
    requires Fits(s) && Enabled(s, e)
    requires e == FactoryRejects(c) || e == StoreErrs(c) || e == PollTests(c) || e == Wakes(c)
    ensures Fits(Step(s, e))
  {
    assert CallFits(s, c);
    StepOf(s, Step(s, e), c);
  }

  lemma LockFits(s: System, e: Event, c: nat, errs: bool)
    requires Fits(s) && Enabled(s, e) && (e == TryLock(c, errs) || e == LockReplyLost(c))
    ensures Fits(Step(s, e))
  {
    StepOf(s, Step(s, e), c);
  }

  lemma ResolveFits(s: System, c: nat, v: Value)
    requires Fits(s) && Enabled(s, FactoryResolves(c, v))
    ensures Fits(Step(s, FactoryResolves(c, v)))
  {
    StepOf(s, Step(s, FactoryResolves(c, v)), c);
  }

  lemma OutsideFits(s: System, e: Event)
    requires Fits(s) && (e.Begin? || e.Evict? || e.Tick?)
    ensures Fits(Step(s, e))
  {
    StepOf(s, Step(s, e), |s.calls|);
  }

  lemma StepFits(s: System, e: Event)
    requires Fits(s) && Enabled(s, e)
    ensures Fits(Step(s, e))
  {
    match e
    case FirstGet(c, errs) => ReadFits(s, e, c, errs);
    case TryLock(c, errs) => LockFits(s, e, c, errs);
    case LockReplyLost(c) => LockFits(s, e, c, false);
    case FactoryResolves(c, v) => ResolveFits(s, c, v);
    case FactoryRejects(c) => LocalFits(s, e, c);
    case Stores(c) => StoreFits(s, c);
    case StoreErrs(c) => LocalFits(s, e, c);
    case Releases(c, errs) => ReleaseFits(s, c, errs);
    case Rechecks(c, errs) => ReadFits(s, e, c, errs);
    case PollTests(c) => LocalFits(s, e, c);
    case Wakes(c) => LocalFits(s, e, c);
    case PollReads(c, errs) => ReadFits(s, e, c, errs);
    case _ => OutsideFits(s, e);
  }

  lemma {:induction false} ExecFits(hasLockService: bool, es: seq<Event>)
    ensures Exec(hasLockService, es).Some? ==> Fits(Exec(hasLockService, es).value)
  {
    if es != [] && Exec(hasLockService, es).Some? {
      ExecFits(hasLockService, es[..|es| - 1]);
      StepFits(Exec(hasLockService, es[..|es| - 1]).value, es[|es| - 1]);
    }
  }

  /**
   * Every cached value came from a factory of a call that stores under that key; a returned value came
   * from one that stores where the caller does, or, for a call that waited, under the caller's raw key.
   * With no tenant, or a key that is already scoped, these are the same.
   */
  lemma ValuesComeFromFactories(hasLockService: bool, es: seq<Event>, c: nat, k: string)
    ensures Exec(hasLockService, es).Some? ==>
              var s := Exec(hasLockService, es).value;
              (k in s.cache ==> Produced(s, k, s.cache[k])) &&
              (c < |s.calls| && s.calls[c].pc.Done? && s.calls[c].pc.outcome.Returned? ==>
                 var call, v := s.calls[c], s.calls[c].pc.outcome.value;
                 (Produced(s, call.Storage(), v) || (call.waited && Produced(s, call.key, v))) &&
                 (AlreadyScoped(call) ==> Produced(s, call.Storage(), v)))
  {
    ExecFits(hasLockService, es);
    if Exec(hasLockService, es).Some? && c < |Exec(hasLockService, es).value.calls| {
      var s := Exec(hasLockService, es).value;
      assert CallFits(s, c);
      ScopedExactly(s.calls[c]);
      if s.calls[c].pc.Done? && s.calls[c].pc.outcome.Returned? && Made(c, s.calls[c].pc.outcome.value) in s.made {
        OwnIsProduced(s, c, s.calls[c].pc.outcome.value);
      }
    }
  }

  // ---- What a waiter sees ------------------------------------------------

  /** No tenant, or a key that carries the tenant's prefix already. */
  predicate AlreadyScoped(call: Call) {
    call.tenant.None? || TenantKeys.Namespace(call.tenant.value) <= call.key
  }

  lemma ScopedExactly(call: Call)
    ensures call.Storage() == call.key <==> AlreadyScoped(call)
  {
    if call.tenant.Some? { TenantKeys.ScopedIsInNamespace(call.key, call.tenant.value); }
  }

  /** The raw read of a waiter: the first recheck, or one inside the polling loop. */
  function WaiterRead(s: System, c: nat): Event
    requires At(s, c)
  {
    if s.calls[c].pc.Rechecking? then Rechecks(c, false) else PollReads(c, false)
  }

  /**
   * The holder publishes where it stores, and waiters read the raw key they share. So the next read of a
   * waiter, whatever its own tenant, returns what the holder has just published exactly when the holder's
   * key was already scoped, or the raw key happened to hold that value before.
   */
  lemma WaiterSeesPublishedExactly(s: System, h: nat, w: nat)
    requires At(s, h) && At(s, w) && s.calls[h].pc.Storing? && s.calls[h].key == s.calls[w].key
    requires s.calls[w].pc.Rechecking? || s.calls[w].pc.PollReading?
    ensures var value, after := s.calls[h].pc.value, Step(s, Stores(h));
            At(after, w) && Enabled(after, WaiterRead(after, w)) &&
            (Step(after, WaiterRead(after, w)).calls[w].pc == Done(Returned(value)) <==>
             AlreadyScoped(s.calls[h]) || Read(s, s.calls[w].key) == Some(value))
  {
    ScopedExactly(s.calls[h]);
    var after := Step(s, Stores(h));
    assert after.calls[w] == s.calls[w];
    assert after.cache == s.cache[s.calls[h].Storage() := s.calls[h].pc.value];
  }

  /** No call of the run stores under this key. */
  ghost predicate NobodyStores(s: System, key: string) {
    forall d :: 0 <= d < |s.calls| ==> s.calls[d].Storage() != key
  }

  /**
   * If no call stores under a waiter's raw key, that key never holds a value: the waiter polls in vain,
   * and what it returns in the end comes from its own factory.
   */
  lemma WaitersRecompute(hasLockService: bool, es: seq<Event>, c: nat)
    ensures Exec(hasLockService, es).Some? && c < |Exec(hasLockService, es).value.calls| &&
            NobodyStores(Exec(hasLockService, es).value, Exec(hasLockService, es).value.calls[c].key) ==>
              var s := Exec(hasLockService, es).value;
              s.calls[c].key !in s.cache &&
              (s.calls[c].waited && s.calls[c].pc.Done? && s.calls[c].pc.outcome.Returned? ==>
                 Made(c, s.calls[c].pc.outcome.value) in s.made)
  {
    ExecFits(hasLockService, es);
    if Exec(hasLockService, es).Some? && c < |Exec(hasLockService, es).value.calls| &&
       NobodyStores(Exec(hasLockService, es).value, Exec(hasLockService, es).value.calls[c].key) {
      var s := Exec(hasLockService, es).value;
      assert CallFits(s, c);
      assert !exists m :: m in s.made && m.call < |s.calls| && s.calls[m.call].Storage() == s.calls[c].key;
    }
  }

  /** So it is for every waiter of a tenant that has the fleet to itself and does not scope its keys. */
  lemma UnscopedTenantRecomputes(hasLockService: bool, es: seq<Event>, tenant: string, c: nat)
    ensures Exec(hasLockService, es).Some? && c < |Exec(hasLockService, es).value.calls| &&
            (forall d :: 0 <= d < |Exec(hasLockService, es).value.calls| ==>
               Exec(hasLockService, es).value.calls[d].tenant == Some(tenant)) ==>
              var s := Exec(hasLockService, es).value;
              !AlreadyScoped(s.calls[c]) && s.calls[c].waited && s.calls[c].pc.Done? && s.calls[c].pc.outcome.Returned? ==>
                Made(c, s.calls[c].pc.outcome.value) in s.made
  {
    WaitersRecompute(hasLockService, es, c);
    if Exec(hasLockService, es).Some? && c < |Exec(hasLockService, es).value.calls| {
      var s := Exec(hasLockService, es).value;
      forall d | 0 <= d < |s.calls| && s.calls[d].tenant == Some(tenant)
        ensures TenantKeys.Namespace(tenant) <= s.calls[d].Storage()
      {
        TenantKeys.ScopedIsInNamespace(s.calls[d].key, tenant);
      }
    }
  }
}
