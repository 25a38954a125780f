/** Runs of `getOrSet`: how often the factory runs, whether two runs overlap, and what a waiter reads. */
module GetOrSetRuns {
  import opened Prelude
  import opened GetOrSet
  import opened GetOrSetValues
  import PollLoop
  import TenantKeys

  // ---- A lock holder that finds the value there --------------------------

  /** The last event from number `from` on that touched this cache entry stored a value. */
  predicate StoredSince(hasLockService: bool, es: seq<Event>, from: nat, key: string)
    decreases |es|
  {
    |es| > from &&
    var n := |es| - 1;
    if es[n] == Evict(key) then false
    else if StoresUnder(Exec(hasLockService, es[..n]), es[n], key) then true
    else StoredSince(hasLockService, es[..n], from, key)
  }

  predicate StoresUnder(before: Option<System>, e: Event, key: string) {
    before.Some? && e.Stores? && At(before.value, e.c) && before.value.calls[e.c].Storage() == key
  }

  lemma CacheStep(s: System, e: Event, key: string)
    requires Enabled(s, e)
    ensures key in Step(s, e).cache <==> e != Evict(key) && (StoresUnder(Some(s), e, key) || key in s.cache)
  {}

  lemma {:induction false} CacheTells(hasLockService: bool, es: seq<Event>, from: nat, key: string)
    requires from <= |es| && Exec(hasLockService, es).Some?
    ensures Exec(hasLockService, es[..from]).Some?
    ensures key !in Exec(hasLockService, es[..from]).value.cache ==>
              (key in Exec(hasLockService, es).value.cache <==> StoredSince(hasLockService, es, from, key))
  {
    if |es| == from {
      assert es[..from] == es;
    } else {
      var n := |es| - 1;
      CacheTells(hasLockService, es[..n], from, key);
      assert es[..n][..from] == es[..from];
      CacheStep(Exec(hasLockService, es[..n]).value, es[n], key);
    }
  }

  /** A call past its first read comes to the lock only by staying there. */
  predicate SameCall(before: System, after: System, c: nat) {
    c < |before.calls| && !before.calls[c].pc.Starting? ==>
      c < |after.calls| && !after.calls[c].pc.Starting? && after.calls[c].Storage() == before.calls[c].Storage() &&
      (after.calls[c].pc.Locking? ==> before.calls[c].pc.Locking?)
  }

  lemma SameStep(s: System, e: Event, c: nat)
    requires Enabled(s, e)
    ensures SameCall(s, Step(s, e), c)
  {
    if e.Begin? || e.Evict? || e.Tick? || e.c != c { OthersStay(s, e, c); } else { OwnStep(s, e); }
  }

  lemma OthersStay(s: System, e: Event, c: nat)
    requires Enabled(s, e) && (e.Begin? || e.Evict? || e.Tick? || e.c != c)
    ensures c < |s.calls| ==> c < |Step(s, e).calls| && Step(s, e).calls[c] == s.calls[c]
  {}

  lemma OwnStep(s: System, e: Event)
    requires Enabled(s, e) && !e.Begin? && !e.Evict? && !e.Tick?
    ensures SameCall(s, Step(s, e), e.c)
  {}

  lemma SameJoins(a: System, b: System, d: System, c: nat)
    requires SameCall(a, b, c) && SameCall(b, d, c)
    ensures SameCall(a, d, c)
  {}

  lemma {:induction false} SameSince(hasLockService: bool, es: seq<Event>, m: nat, c: nat)
    requires m <= |es| && Exec(hasLockService, es).Some?
    ensures Exec(hasLockService, es[..m]).Some?
    ensures SameCall(Exec(hasLockService, es[..m]).value, Exec(hasLockService, es).value, c)
  {
    if |es| == m {
      assert es[..m] == es;
    } else {
      var n := |es| - 1;
      SameSince(hasLockService, es[..n], m, c);
      assert es[..n][..m] == es[..m];
      SameStep(Exec(hasLockService, es[..n]).value, es[n], c);
      SameJoins(Exec(hasLockService, es[..m]).value, Exec(hasLockService, es[..n]).value,
                Exec(hasLockService, es).value, c);
    }
  }

  lemma LockStartsFactory(s: System, c: nat)
    requires At(s, c) && s.calls[c].pc.Locking?
    ensures Step(s, TryLock(c, false)).calls[c].pc == Running(true) <==> LockFree(s, s.calls[c].LockKey())
  {}

  lemma FirstMiss(s: System, c: nat)
    requires Enabled(s, FirstGet(c, false)) && Step(s, FirstGet(c, false)).calls[c].pc.Locking?
    ensures s.calls[c].Storage() !in Step(s, FirstGet(c, false)).cache
  {}

  /**
   * A call at the lock starts its factory exactly when the lock is free, and its value is in the cache by
   * then exactly when it was stored since the call's first read: there is no second read under the lock.
   */
  lemma WarmFactoryExactly(hasLockService: bool, es: seq<Event>, i: nat, c: nat)
    requires Exec(hasLockService, es).Some? && i < |es| && es[i] == FirstGet(c, false)
    requires At(Exec(hasLockService, es).value, c) && Exec(hasLockService, es).value.calls[c].pc.Locking?
    ensures var s := Exec(hasLockService, es).value;
            var call := s.calls[c];
            (Step(s, TryLock(c, false)).calls[c].pc == Running(true) <==> LockFree(s, call.LockKey())) &&
            (call.Storage() in s.cache <==> StoredSince(hasLockService, es, i + 1, call.Storage()))
  {
    var s := Exec(hasLockService, es).value;
    LockStartsFactory(s, c);
    SameSince(hasLockService, es, i + 1, c);
    assert es[..i + 1][..i] == es[..i];
    FirstMiss(Exec(hasLockService, es[..i]).value, c);
    CacheTells(hasLockService, es, i + 1, s.calls[c].Storage());
  }

  // ---- Runs --------------------------------------------------------------

  lemma Push(hasLockService: bool, es: seq<Event>, s: System, e: Event) returns (more: seq<Event>, next: System)
    requires Exec(hasLockService, es) == Some(s) && Enabled(s, e)
    ensures Exec(hasLockService, more) == Some(next) && next == Step(s, e) && more == es + [e]
  {
    assert (es + [e])[..|es|] == es;
    more, next := es + [e], Step(s, e);
  }

  /** A call that has missed and stands before the lock. */
  function Missed(key: string, tenant: Option<string>, ttl: nat): Call {
    Call(key, tenant, ttl, Locking, None, 0, false, false, 0)
  }

  /** One more call begins and misses. */
  lemma Arrive(es: seq<Event>, s: System, key: string, tenant: Option<string>, ttl: nat)
    returns (more: seq<Event>, next: System)
    requires Exec(true, es) == Some(s) && s.hasLockService && s.cache == map[]
    ensures Exec(true, more) == Some(next) && next == s.(calls := s.calls + [Missed(key, tenant, ttl)])
  {
    more, next := Push(true, es, s, Begin(key, tenant, ttl));
    more, next := Push(true, more, next, FirstGet(|s.calls|, false));
  }

  /** Call 0 has the lock, call 1 has been refused it; more calls may stand before it. */
  lemma HolderAndWaiter(key: string, holder: Option<string>, waiter: Option<string>, ttl0: nat, ttl1: nat)
    returns (es: seq<Event>, s: System)
    requires ttl0 > 0
    ensures Exec(true, es) == Some(s) && s.hasLockService && s.now == 0 && s.cache == map[] && s.made == {}
    ensures s.calls == [Missed(key, holder, ttl0).(pc := Running(true), token := Some(0), leaseEnds := ttl0),
                        Missed(key, waiter, ttl1).(pc := Rechecking, waited := true)]
    ensures s.locks == map["cache:lock:" + key := Lease(0, ttl0)] && s.nextToken == 1
  {
    es, s := Arrive([], Start(true), key, holder, ttl0);
    es, s := Arrive(es, s, key, waiter, ttl1);
    es, s := Push(true, es, s, TryLock(0, false));
    es, s := Push(true, es, s, TryLock(1, false));
  }

  /** The first call publishes and gives the lock back; the second then takes it and computes again. */
  lemma FactoryRunsTwice(key: string, tenant: Option<string>, ttl: nat, v: Value)
    returns (es: seq<Event>, s: System)
    ensures Exec(true, es) == Some(s) && |s.calls| == 2
    ensures s.calls[0].pc == Done(Returned(v)) && s.calls[1].pc == Running(true)
    ensures s.cache == map[s.calls[1].Storage() := v] && s.calls[1].key == key && s.calls[1].tenant == tenant
  {
    es, s := Arrive([], Start(true), key, tenant, ttl);
    es, s := Arrive(es, s, key, tenant, ttl);
    es, s := Push(true, es, s, TryLock(0, false));
    es, s := Push(true, es, s, FactoryResolves(0, v));
    es, s := Push(true, es, s, Stores(0));
    es, s := Push(true, es, s, Releases(0, false));
    es, s := Push(true, es, s, TryLock(1, false));
  }

  // ---- What the waiter reads ---------------------------------------------

  predicate Reading(s: System, w: nat) { At(s, w) && (s.calls[w].pc.Rechecking? || s.calls[w].pc.PollReading?) }

  lemma ReadReturnsExactly(s: System, w: nat)
    requires Reading(s, w)
    ensures Enabled(s, WaiterRead(s, w))
    ensures forall v :: Step(s, WaiterRead(s, w)).calls[w].pc == Done(Returned(v)) <==> Read(s, s.calls[w].key) == Some(v)
    ensures Step(s, WaiterRead(s, w)).calls[w].pc.Done? <==> s.calls[w].key in s.cache
    ensures !Step(s, WaiterRead(s, w)).calls[w].pc.Done? ==> Step(s, WaiterRead(s, w)).calls[w].pc.Polling?
  {}

  /**
   * In every run a waiter's read returns a value exactly when the raw key was last touched by a call that
   * stores under just that key, rather than by an eviction or not at all.
   */
  lemma WaiterReturnsExactly(hasLockService: bool, es: seq<Event>, w: nat)
    requires Exec(hasLockService, es).Some? && Reading(Exec(hasLockService, es).value, w)
    ensures var s := Exec(hasLockService, es).value;
            Step(s, WaiterRead(s, w)).calls[w].pc.Done? <==> StoredSince(hasLockService, es, 0, s.calls[w].key)
  {
    assert es[..0] == [];
    ReadReturnsExactly(Exec(hasLockService, es).value, w);
    CacheTells(hasLockService, es, 0, Exec(hasLockService, es).value.calls[w].key);
  }

  /** The holder publishes, and the waiter reads. */
  lemma PublishAndRead(key: string, holder: Option<string>, waiter: Option<string>, ttl: nat, v: Value)
    returns (es: seq<Event>, s: System)
    requires ttl > 0
    ensures Exec(true, es) == Some(s) && |s.calls| == 2
    ensures s.calls[0].key == s.calls[1].key == key && s.calls[0].tenant == holder && s.calls[1].tenant == waiter
    ensures s.cache == map[s.calls[0].Storage() := v]
    ensures s.calls[1].pc == if s.calls[0].Storage() == key then Done(Returned(v))
                             else Polling(PollLoop.POLL_INITIAL_BACKOFF_MS)
  {
    es, s := HolderAndWaiter(key, holder, waiter, ttl, ttl);
    es, s := Push(true, es, s, FactoryResolves(0, v));
    es, s := Push(true, es, s, Stores(0));
    es, s := Push(true, es, s, Rechecks(1, false));
  }

  /** The holder's key is not scoped: every waiter misses what it published, of its tenant or of none. */
  lemma WaiterMisses(key: string, tenant: string, waiter: Option<string>, ttl: nat, v: Value)
    returns (es: seq<Event>, s: System)
    requires ttl > 0 && !(TenantKeys.Namespace(tenant) <= key)
    ensures Exec(true, es) == Some(s) && |s.calls| == 2
    ensures s.calls[0].key == s.calls[1].key == key && s.calls[0].tenant == Some(tenant) && s.calls[1].tenant == waiter
    ensures s.cache == map[s.calls[0].Storage() := v] && s.calls[1].pc == Polling(PollLoop.POLL_INITIAL_BACKOFF_MS)
  {
    TenantKeys.ScopedIsInNamespace(key, tenant);
    es, s := PublishAndRead(key, Some(tenant), waiter, ttl, v);
  }

  /** The holder has no tenant: a waiter of any tenant is handed its value, scoped key or not. */
  lemma WaiterTakesUntenanted(key: string, waiter: Option<string>, ttl: nat, v: Value)
    returns (es: seq<Event>, s: System)
    requires ttl > 0
    ensures Exec(true, es) == Some(s) && |s.calls| == 2
    ensures s.calls[0].key == s.calls[1].key == key && s.calls[0].tenant == None && s.calls[1].tenant == waiter
    ensures s.calls[1].pc == Done(Returned(v))
  {
    es, s := PublishAndRead(key, None, waiter, ttl, v);
  }

  // ---- Overlapping factory runs ------------------------------------------

  /** A waiter that sleeps once gives up at its deadline, the holder's lease still running. */
  lemma ShorterWaitOverlaps(key: string, tenant: Option<string>, ttl0: nat, ttl1: nat)
    returns (es: seq<Event>, s: System)
    requires PollLoop.POLL_INITIAL_BACKOFF_MS <= ttl1 < ttl0
    ensures Exec(true, es) == Some(s) && |s.calls| == 2 && s.calls[0].key == s.calls[1].key == key
    ensures s.calls[0].pc == Running(true) && s.now < s.calls[0].leaseEnds
    ensures s.calls[1].pc == Running(false) && s.calls[1].deadline <= s.now
  {
    es, s := HolderAndWaiter(key, tenant, tenant, ttl0, ttl1);
    es, s := Push(true, es, s, Rechecks(1, false));
    es, s := Push(true, es, s, PollTests(1));
    es, s := Push(true, es, s, Tick(ttl1));
    es, s := Push(true, es, s, Wakes(1));
    es, s := Push(true, es, s, PollReads(1, false));
    es, s := Push(true, es, s, PollTests(1));
  }

  /** The waiter sleeps, and the holder fails and gives the lock back. */
  lemma HolderFails(key: string, tenant: Option<string>, ttl: nat) returns (es: seq<Event>, s: System)
    requires ttl > 0
    ensures Exec(true, es) == Some(s) && s.hasLockService && s.now == 0 && s.cache == map[] && s.locks == map[]
    ensures |s.calls| == 2 && forall i :: 0 <= i < 2 ==> s.calls[i].key == key && s.calls[i].lockTtl == ttl
    ensures s.calls[1].pc == Sleeping(PollLoop.POLL_INITIAL_BACKOFF_MS, PollLoop.POLL_INITIAL_BACKOFF_MS)
    ensures s.calls[1].waited && s.calls[1].deadline == ttl
  {
    es, s := HolderAndWaiter(key, tenant, tenant, ttl, ttl);
    es, s := Push(true, es, s, Rechecks(1, false));
    es, s := Push(true, es, s, PollTests(1));
    es, s := Push(true, es, s, FactoryRejects(0));
    es, s := Push(true, es, s, Releases(0, false));
  }

  /** A third call takes the lock just before the waiter's deadline. */
  lemma LateHolder(key: string, tenant: Option<string>, ttl: nat) returns (es: seq<Event>, s: System)
    requires PollLoop.POLL_INITIAL_BACKOFF_MS <= ttl
    ensures Exec(true, es) == Some(s) && s.hasLockService && s.now == ttl - 1 && s.cache == map[]
    ensures |s.calls| == 3 && forall i :: 0 <= i < 3 ==> s.calls[i].key == key && s.calls[i].lockTtl == ttl
    ensures s.calls[1].pc == Sleeping(PollLoop.POLL_INITIAL_BACKOFF_MS, PollLoop.POLL_INITIAL_BACKOFF_MS)
    ensures s.calls[1].waited && s.calls[1].deadline == ttl
    ensures s.calls[2].pc == Running(true) && s.calls[2].leaseEnds == 2 * ttl - 1
  {
    es, s := HolderFails(key, tenant, ttl);
    es, s := Arrive(es, s, key, tenant, ttl);
    es, s := Push(true, es, s, Tick(ttl - 1));
    es, s := Push(true, es, s, TryLock(2, false));
  }

  /** Even with one time to live for all: the waiter gives up while the third call's lease still runs. */
  lemma LateHolderOverlaps(key: string, tenant: Option<string>, ttl: nat) returns (es: seq<Event>, s: System)
    requires PollLoop.POLL_INITIAL_BACKOFF_MS <= ttl
    ensures Exec(true, es) == Some(s) && |s.calls| == 3
    ensures forall i :: 0 <= i < 3 ==> s.calls[i].key == key && s.calls[i].lockTtl == ttl
    ensures s.calls[2].pc == Running(true) && s.now < s.calls[2].leaseEnds
    ensures s.calls[1].pc == Running(false) && s.calls[1].deadline <= s.now
  {
    es, s := LateHolder(key, tenant, ttl);
    es, s := Push(true, es, s, Tick(1));
    es, s := Push(true, es, s, Wakes(1));
    es, s := Push(true, es, s, PollReads(1, false));
    es, s := Push(true, es, s, PollTests(1));
  }

  // ---- What a call is answered -------------------------------------------

  /** Apart from where one call stands, nothing has changed. */
  predicate OnlyAnswers(s: System, next: System, c: nat) {
    c < |s.calls| == |next.calls| && next == s.(calls := s.calls[c := s.calls[c].(pc := next.calls[c].pc)])
  }

  /** The first read returns a cached value at once; on a miss the call goes to the lock, or to its factory. */
  lemma FirstReadExactly(s: System, c: nat)
    requires Enabled(s, FirstGet(c, false))
    ensures var next := Step(s, FirstGet(c, false));
            OnlyAnswers(s, next, c) &&
            (forall v :: next.calls[c].pc == Done(Returned(v)) <==>
                         s.calls[c].Storage() in s.cache && s.cache[s.calls[c].Storage()] == v) &&
            (next.calls[c].pc == Locking <==> s.calls[c].Storage() !in s.cache && s.hasLockService) &&
            (next.calls[c].pc == Running(false) <==> s.calls[c].Storage() !in s.cache && !s.hasLockService)
  {}

  /** In every run: exactly when the storage key was last touched by a call that stores under it. */
  lemma FirstReadReturnsExactly(hasLockService: bool, es: seq<Event>, c: nat)
    requires Exec(hasLockService, es).Some? && Enabled(Exec(hasLockService, es).value, FirstGet(c, false))
    ensures var s := Exec(hasLockService, es).value;
            var pc := Step(s, FirstGet(c, false)).calls[c].pc;
            (pc.Done? && pc.outcome.Returned? <==> StoredSince(hasLockService, es, 0, s.calls[c].Storage())) &&
            (pc.Done? ==> pc.outcome.Returned?)
  {
    assert es[..0] == [];
    var s := Exec(hasLockService, es).value;
    FirstReadExactly(s, c);
    FirstReadAnswers(s, c);
    CacheTells(hasLockService, es, 0, s.calls[c].Storage());
  }

  lemma FirstReadAnswers(s: System, c: nat)
    requires Enabled(s, FirstGet(c, false))
    ensures var pc := Step(s, FirstGet(c, false)).calls[c].pc;
            (pc.Done? <==> s.calls[c].Storage() in s.cache) && (pc.Done? ==> pc.outcome.Returned?)
  {}

  /** A call for the same key holds the lock, or has left it behind, and its time to live has not run out. */
  predicate Blocks(s: System, d: nat, key: string) {
    d < |s.calls| && s.calls[d].key == key && s.calls[d].Leases() && s.now < s.calls[d].leaseEnds
  }

  /**
   * In every run a call that asks for the lock gets it and starts its factory exactly when no lease for its
   * own key still runs; otherwise it goes to wait. Other keys' locks never stand in the way.
   */
  lemma LockTakenExactly(hasLockService: bool, es: seq<Event>, c: nat)
    requires Exec(hasLockService, es).Some? && Enabled(Exec(hasLockService, es).value, TryLock(c, false))
    ensures var s := Exec(hasLockService, es).value;
            var pc := Step(s, TryLock(c, false)).calls[c].pc;
            (pc == Running(true) <==> !exists d: nat :: Blocks(s, d, s.calls[c].key)) &&
            (pc == Rechecking <==> exists d: nat :: Blocks(s, d, s.calls[c].key))
  {
    ExecLockSound(hasLockService, es);
    BlockedExactly(Exec(hasLockService, es).value, c);
    LockOrWait(Exec(hasLockService, es).value, c);
  }

  lemma LockOrWait(s: System, c: nat)
    requires Enabled(s, TryLock(c, false))
    ensures var pc := Step(s, TryLock(c, false)).calls[c].pc;
            pc == if LockFree(s, s.calls[c].LockKey()) then Running(true) else Rechecking
  {}

  lemma BlockedExactly(s: System, c: nat)
    requires LockSound(s) && c < |s.calls|
    ensures LockFree(s, s.calls[c].LockKey()) <==> !exists d: nat :: Blocks(s, d, s.calls[c].key)
  {
    var lockKey := s.calls[c].LockKey();
    forall d: nat | Owns(s, d, lockKey) ensures s.calls[d].key == s.calls[c].key {
      LockKeysApart(s.calls[d], s.calls[c]);
    }
    forall d: nat | Blocks(s, d, s.calls[c].key) ensures !LockFree(s, lockKey) {
      LockKeysApart(s.calls[d], s.calls[c]);
    }
    if !LockFree(s, lockKey) {
      var d: nat :| Owns(s, d, lockKey);
      assert Blocks(s, d, s.calls[c].key);
    }
  }

  lemma LockKeysApart(x: Call, y: Call)
    ensures x.LockKey() == y.LockKey() <==> x.key == y.key
  {
    assert x.LockKey()[|"cache:lock:"|..] == x.key && y.LockKey()[|"cache:lock:"|..] == y.key;
  }

  // ---- When a call throws ------------------------------------------------

  /** A failure that `getOrSet` passes on: not that of a release, nor of a read while polling. */
  predicate Fatal(e: Event, c: nat) {
    e == FirstGet(c, true) || e == TryLock(c, true) || e == LockReplyLost(c) || e == FactoryRejects(c) ||
    e == StoreErrs(c) || e == Rechecks(c, true)
  }

  ghost predicate Broke(es: seq<Event>, c: nat) { exists e :: e in es && Fatal(e, c) }

  function OutcomeOf(pc: Pc): Option<Outcome> {
    match pc
    case Releasing(outcome) => Some(outcome)
    case Done(outcome) => Some(outcome)
    case _ => None
  }

  ghost predicate BreaksFit(es: seq<Event>, s: System, c: nat) {
    Broke(es, c) <==> c < |s.calls| && OutcomeOf(s.calls[c].pc) == Some(Threw)
  }

  lemma BreakStep(s: System, e: Event, c: nat)
    requires Enabled(s, e)
    ensures var next := Step(s, e);
            c < |next.calls| && OutcomeOf(next.calls[c].pc) == Some(Threw) <==>
            Fatal(e, c) || (c < |s.calls| && OutcomeOf(s.calls[c].pc) == Some(Threw))
  {
    if e.Begin? || e.Evict? || e.Tick? || e.c != c { OthersStay(s, e, c); } else { OwnBreakStep(s, e); }
  }

  lemma OwnBreakStep(s: System, e: Event)
    requires Enabled(s, e) && !e.Begin? && !e.Evict? && !e.Tick?
    ensures OutcomeOf(Step(s, e).calls[e.c].pc) == Some(Threw) <==>
            Fatal(e, e.c) || OutcomeOf(s.calls[e.c].pc) == Some(Threw)
  {
    if e.Rechecks? || e.PollTests? || e.Wakes? || e.PollReads? { WaiterBreakStep(s, e); }
  }

  lemma WaiterBreakStep(s: System, e: Event)
    requires Enabled(s, e) && (e.Rechecks? || e.PollTests? || e.Wakes? || e.PollReads?)
    ensures OutcomeOf(Step(s, e).calls[e.c].pc) == Some(Threw) <==> Fatal(e, e.c)
    ensures OutcomeOf(s.calls[e.c].pc) == None
  {}

  lemma {:induction false} ExecBreaks(hasLockService: bool, es: seq<Event>, c: nat)
    ensures Exec(hasLockService, es).Some? ==> BreaksFit(es, Exec(hasLockService, es).value, c)
  {
    if es != [] && Exec(hasLockService, es).Some? {
      var n := |es| - 1;
      ExecBreaks(hasLockService, es[..n], c);
      BreakStep(Exec(hasLockService, es[..n]).value, es[n], c);
      assert es == es[..n] + [es[n]];
    }
  }

  /**
   * In every run a finished call threw exactly when its first read, its acquire, its factory, its write or
   * the recheck failed; a failing release, or a failing read while polling, never costs it its answer.
   */
  lemma ThrowsExactly(hasLockService: bool, es: seq<Event>, c: nat)
    ensures Exec(hasLockService, es).Some? && At(Exec(hasLockService, es).value, c) &&
            Exec(hasLockService, es).value.calls[c].pc.Done? ==>
              (Exec(hasLockService, es).value.calls[c].pc.outcome == Threw <==> Broke(es, c))
  {
    ExecBreaks(hasLockService, es, c);
  }

  // ---- How a waiter waits ------------------------------------------------

  /** Reads the call has made in its polling loop. */
  function PollReadsOf(es: seq<Event>, c: nat): nat {
    if es == [] then 0
    else PollReadsOf(es[..|es| - 1], c) + (if es[|es| - 1].PollReads? && es[|es| - 1].c == c then 1 else 0)
  }

  predicate InLoop(pc: Pc) { pc.Polling? || pc.Sleeping? || pc.PollReading? }

  predicate BackoffFits(es: seq<Event>, s: System, c: nat) {
    c < |s.calls| && InLoop(s.calls[c].pc) ==> s.calls[c].pc.backoff == PollLoop.Wait(PollReadsOf(es, c))
  }

  predicate NotYetPolling(es: seq<Event>, s: System, c: nat) {
    c >= |s.calls| || s.calls[c].pc.Starting? || s.calls[c].pc.Locking? || s.calls[c].pc.Rechecking? ==>
      PollReadsOf(es, c) == 0
  }

  lemma BackoffStep(es: seq<Event>, s: System, e: Event, c: nat)
    requires Enabled(s, e) && BackoffFits(es, s, c) && NotYetPolling(es, s, c)
    requires PollReadsOf(es + [e], c) == PollReadsOf(es, c) + (if e.PollReads? && e.c == c then 1 else 0)
    ensures BackoffFits(es + [e], Step(s, e), c) && NotYetPolling(es + [e], Step(s, e), c)
  {
    PollLoop.WaitDoubles(PollReadsOf(es, c));
    if e.Begin? || e.Evict? || e.Tick? || e.c != c { OthersStay(s, e, c); } else { OwnBackoffStep(es, s, e); }
  }

  lemma OwnBackoffStep(es: seq<Event>, s: System, e: Event)
    requires Enabled(s, e) && !e.Begin? && !e.Evict? && !e.Tick?
    requires BackoffFits(es, s, e.c) && NotYetPolling(es, s, e.c)
    requires PollReadsOf(es + [e], e.c) == PollReadsOf(es, e.c) + (if e.PollReads? then 1 else 0)
    ensures BackoffFits(es + [e], Step(s, e), e.c) && NotYetPolling(es + [e], Step(s, e), e.c)
  {
    PollLoop.WaitDoubles(PollReadsOf(es, e.c));
    if e.PollTests? || e.Wakes? || e.PollReads? { LoopStep(es, s, e); }
  }

  lemma LoopStep(es: seq<Event>, s: System, e: Event)
    requires Enabled(s, e) && (e.PollTests? || e.Wakes? || e.PollReads?) && BackoffFits(es, s, e.c)
    requires PollReadsOf(es + [e], e.c) == PollReadsOf(es, e.c) + (if e.PollReads? then 1 else 0)
    ensures BackoffFits(es + [e], Step(s, e), e.c) && NotYetPolling(es + [e], Step(s, e), e.c)
  {
    PollLoop.WaitDoubles(PollReadsOf(es, e.c));
  }

  lemma {:induction false} ExecBackoff(hasLockService: bool, es: seq<Event>, c: nat)
    ensures Exec(hasLockService, es).Some? ==>
              BackoffFits(es, Exec(hasLockService, es).value, c) && NotYetPolling(es, Exec(hasLockService, es).value, c)
  {
    if es != [] && Exec(hasLockService, es).Some? {
      var n := |es| - 1;
      ExecBackoff(hasLockService, es[..n], c);
      assert es[..n] + [es[n]] == es;
      BackoffStep(es[..n], Exec(hasLockService, es[..n]).value, es[n], c);
    }
  }

  /**
   * In every run a waiter that tests its deadline sleeps exactly if it has not passed, for the time that
   * belongs to the number of reads it has made, and is not woken before.
   */
  lemma SleepsExactly(hasLockService: bool, es: seq<Event>, c: nat)
    requires Exec(hasLockService, es).Some? && Enabled(Exec(hasLockService, es).value, PollTests(c))
    ensures var s := Exec(hasLockService, es).value;
            var pc := Step(s, PollTests(c)).calls[c].pc;
            (pc.Sleeping? <==> s.now < s.calls[c].deadline) && (pc.Running? <==> s.now >= s.calls[c].deadline) &&
            (pc.Sleeping? ==> pc.until == s.now + PollLoop.Wait(PollReadsOf(es, c)))
  {
    ExecBackoff(hasLockService, es, c);
  }
}
