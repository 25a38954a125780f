/**
 * `CachingService.getOrSet` across a fleet of processes that share one cache and one lock service
 * (src/caching/caching.service.ts). Every `await` is a step boundary; the lock is the one of
 * src/orchestration/locks/distributed-lock.service.ts: a token with a time to live, taken only when
 * free and released only by its own token.
 */
module GetOrSet {
  import opened Prelude
  import PollLoop
  import TenantKeys

  datatype Value = Value(id: int)

  datatype Outcome = Returned(value: Value) | Threw

  datatype Pc =
    | Starting                                               // awaiting `this.get(key)`
    | Locking                                                // awaiting `acquireLock`
    | Running(locked: bool)                                  // awaiting `factory()`
    | Storing(locked: bool, value: Value)                    // awaiting `this.set(key, value)`
    | Releasing(outcome: Outcome)                            // awaiting `safeRelease`
    | Rechecking                                             // awaiting the first raw read
    | Polling(backoff: int)                                  // at the loop's test
    | Sleeping(backoff: int, until: int)
    | PollReading(backoff: int)                              // awaiting a raw read in the loop
    | Done(outcome: Outcome)

  datatype Call = Call(key: string, tenant: Option<string>, lockTtl: nat, pc: Pc,
                       token: Option<nat>, leaseEnds: int, leaked: bool, waited: bool, deadline: int)
  {
    /** Where `get` and `set` go; the waiters' reads go to `key` itself. */
    function Storage(): string { TenantKeys.BuildTenantScopedKey(key, tenant) }

    function LockKey(): string { "cache:lock:" + key }

    predicate Holds() { pc == Running(true) || (pc.Storing? && pc.locked) || pc.Releasing? }

    /** It holds the lock, or has left it behind. */
    predicate Leases() { Holds() || leaked }
  }

  datatype Lease = Lease(token: nat, expires: int)

  /** One factory result: which call's factory, and what it resolved to. */
  datatype Made = Made(call: nat, value: Value)

  datatype System = System(hasLockService: bool, now: int, cache: map<string, Value>, locks: map<string, Lease>,
                           nextToken: nat, calls: seq<Call>, made: set<Made>)

  datatype Event =
    | Begin(key: string, tenant: Option<string>, lockTtl: nat)
    | FirstGet(c: nat, errs: bool)
    | TryLock(c: nat, errs: bool)
    | LockReplyLost(c: nat)                                  // the SET takes effect, its answer fails
    | FactoryResolves(c: nat, value: Value)
    | FactoryRejects(c: nat)
    | Stores(c: nat)
    | StoreErrs(c: nat)
    | Releases(c: nat, errs: bool)
    | Rechecks(c: nat, errs: bool)
    | PollTests(c: nat)
    | Wakes(c: nat)
    | PollReads(c: nat, errs: bool)
    | Evict(key: string)
    | Tick(ms: nat)

  predicate At(s: System, c: nat) { c < |s.calls| }

  predicate Enabled(s: System, e: Event) {
    match e
    case Begin(_, _, _) => true
    case FirstGet(c, _) => At(s, c) && s.calls[c].pc.Starting?
    case TryLock(c, _) => At(s, c) && s.calls[c].pc.Locking?
    case LockReplyLost(c) => At(s, c) && s.calls[c].pc.Locking?
    case FactoryResolves(c, _) => At(s, c) && s.calls[c].pc.Running?
    case FactoryRejects(c) => At(s, c) && s.calls[c].pc.Running?
    case Stores(c) => At(s, c) && s.calls[c].pc.Storing?
    case StoreErrs(c) => At(s, c) && s.calls[c].pc.Storing?
    case Releases(c, _) => At(s, c) && s.calls[c].pc.Releasing? && s.calls[c].token.Some?
    case Rechecks(c, _) => At(s, c) && s.calls[c].pc.Rechecking?
    case PollTests(c) => At(s, c) && s.calls[c].pc.Polling?
    case Wakes(c) => At(s, c) && s.calls[c].pc.Sleeping? && s.now >= s.calls[c].pc.until
    case PollReads(c, _) => At(s, c) && s.calls[c].pc.PollReading?
    case Evict(_) => true
    case Tick(_) => true
  }

  function Set(s: System, c: nat, call: Call): System
    requires At(s, c)
  {
    s.(calls := s.calls[c := call])
  }

  function Goto(s: System, c: nat, pc: Pc): System
    requires At(s, c)
  {
    Set(s, c, s.calls[c].(pc := pc))
  }

  predicate LockFree(s: System, key: string) { key !in s.locks || s.locks[key].expires <= s.now }

  /** `SET key token PX ttl NX`; when the answer is lost the call throws and nobody gives the lease back. */
  function Acquire(s: System, c: nat, lost: bool): System
    requires At(s, c)
  {
    var call := s.calls[c];
    if LockFree(s, call.LockKey()) then
      var ends := s.now + call.lockTtl;
      Set(s, c, call.(pc := if lost then Done(Threw) else Running(true), token := Some(s.nextToken),
                      leaseEnds := ends, leaked := lost))
        .(locks := s.locks[call.LockKey() := Lease(s.nextToken, ends)], nextToken := s.nextToken + 1)
    else if lost then Goto(s, c, Done(Threw))
    else Set(s, c, call.(pc := Rechecking, waited := true))
  }

  /** Compare the token, then delete; an error is logged and swallowed. */
  function Release(s: System, c: nat, errs: bool): System
    requires At(s, c) && s.calls[c].pc.Releasing? && s.calls[c].token.Some?
  {
    var call := s.calls[c];
    var key := call.LockKey();
    var mine := key in s.locks && s.locks[key].token == call.token.value;
    Set(s, c, call.(pc := Done(call.pc.outcome), leaked := errs))
      .(locks := if !errs && mine then s.locks - {key} else s.locks)
  }

  /** After the factory or the write: release if this call holds the lock, then answer. */
  function Finish(s: System, c: nat, locked: bool, outcome: Outcome): System
    requires At(s, c)
  {
    Goto(s, c, if locked then Releasing(outcome) else Done(outcome))
  }

  function Read(s: System, key: string): Option<Value> { if key in s.cache then Some(s.cache[key]) else None }

  function Step(s: System, e: Event): System
    requires Enabled(s, e)
  {
    match e
    case Begin(key, tenant, ttl) => s.(calls := s.calls + [Call(key, tenant, ttl, Starting, None, 0, false, false, 0)])
    case FirstGet(c, errs) =>
      var seen := Read(s, s.calls[c].Storage());
      Goto(s, c, if errs then Done(Threw) else if seen.Some? then Done(Returned(seen.value))
                 else if s.hasLockService then Locking else Running(false))
    case TryLock(c, errs) => if errs then Goto(s, c, Done(Threw)) else Acquire(s, c, false)
    case LockReplyLost(c) => Acquire(s, c, true)
    case FactoryResolves(c, v) =>
      Goto(s, c, Storing(s.calls[c].pc.locked, v)).(made := s.made + {Made(c, v)})
    case FactoryRejects(c) => Finish(s, c, s.calls[c].pc.locked, Threw)
    case Stores(c) =>
      var pc := s.calls[c].pc;
      Finish(s, c, pc.locked, Returned(pc.value)).(cache := s.cache[s.calls[c].Storage() := pc.value])
    case StoreErrs(c) => Finish(s, c, s.calls[c].pc.locked, Threw)
    case Releases(c, errs) => Release(s, c, errs)
    case Rechecks(c, errs) =>
      var seen := Read(s, s.calls[c].key);
      Set(s, c, s.calls[c].(pc := if errs then Done(Threw) else if seen.Some? then Done(Returned(seen.value))
                                  else Polling(PollLoop.POLL_INITIAL_BACKOFF_MS),
                            deadline := s.now + s.calls[c].lockTtl))
    case PollTests(c) =>
      var Polling(backoff) := s.calls[c].pc;
      Goto(s, c, if s.now < s.calls[c].deadline then Sleeping(backoff, s.now + backoff) else Running(false))
    case Wakes(c) => Goto(s, c, PollReading(s.calls[c].pc.backoff))
    case PollReads(c, errs) =>
      var seen := Read(s, s.calls[c].key);
      var PollReading(backoff) := s.calls[c].pc;
      Goto(s, c, if !errs && seen.Some? then Done(Returned(seen.value))
                 else Polling(Min(backoff * 2, PollLoop.POLL_MAX_BACKOFF_MS)))
    case Evict(key) => s.(cache := s.cache - {key})
    case Tick(ms) => s.(now := s.now + ms)
  }

  function Start(hasLockService: bool): System { System(hasLockService, 0, map[], map[], 0, [], {}) }

  function Exec(hasLockService: bool, es: seq<Event>): Option<System> {
    if es == [] then Some(Start(hasLockService))
    else
      match Exec(hasLockService, es[..|es| - 1])
      case None => None
      case Some(s) => if Enabled(s, es[|es| - 1]) then Some(Step(s, es[|es| - 1])) else None
  }

  // ---- The lock ----------------------------------------------------------

  predicate CallFresh(s: System, call: Call) {
    (call.Leases() ==> call.token.Some?) &&
    (call.token.Some? ==> call.token.value < s.nextToken) &&
    (call.pc.Locking? || call.pc.Starting? ==> call.token.None? && !call.leaked)
  }

  predicate SameToken(s: System, c: nat, d: nat) {
    c < |s.calls| && d < |s.calls| && s.calls[c].token.Some? && s.calls[c].token == s.calls[d].token
  }

  /** A token belongs to one call. */
  ghost predicate TokensFresh(s: System) {
    (forall c :: 0 <= c < |s.calls| ==> CallFresh(s, s.calls[c])) &&
    (forall c: nat, d: nat | SameToken(s, c, d) :: c == d) &&
    (forall k :: k in s.locks ==> s.locks[k].token < s.nextToken)
  }

  /** While it runs, a lease held or left behind is the one in the table. */
  ghost predicate LeasesKept(s: System) {
    forall c :: 0 <= c < |s.calls| && s.calls[c].Leases() && s.now < s.calls[c].leaseEnds ==>
      s.calls[c].LockKey() in s.locks && s.calls[c].token.Some? &&
      s.locks[s.calls[c].LockKey()] == Lease(s.calls[c].token.value, s.calls[c].leaseEnds)
  }

  /** The call whose lease this is: inside its critical section, or with a release or an answer that failed. */
  predicate Owns(s: System, c: nat, key: string) {
    c < |s.calls| && key in s.locks && s.calls[c].LockKey() == key &&
    s.calls[c].token == Some(s.locks[key].token) && s.calls[c].leaseEnds == s.locks[key].expires &&
    s.calls[c].Leases()
  }

  ghost predicate LeasesOwned(s: System) { forall k :: k in s.locks ==> exists c: nat :: Owns(s, c, k) }

  ghost predicate LockSound(s: System) { TokensFresh(s) && LeasesKept(s) && LeasesOwned(s) }

  /** A step that neither takes nor gives up a lock. */
  predicate OnlyMoves(s: System, next: System, c: nat) {
    next.locks == s.locks && next.nextToken == s.nextToken && s.now <= next.now &&
    |s.calls| == |next.calls| &&
    (forall i :: 0 <= i < |s.calls| && i != c ==> next.calls[i] == s.calls[i]) &&
    (c < |s.calls| ==>
       next.calls[c] == s.calls[c].(pc := next.calls[c].pc, deadline := next.calls[c].deadline) &&
        next.calls[c].Holds() == s.calls[c].Holds() &&
       (next.calls[c].pc.Locking? || next.calls[c].pc.Starting? ==> s.calls[c].pc.Locking? || s.calls[c].pc.Starting?))
  }

  lemma MovesKeepOwners(s: System, next: System, c: nat)
    requires OnlyMoves(s, next, c) && LeasesOwned(s)
    ensures LeasesOwned(next)
  {
    forall k | k in next.locks ensures exists i: nat :: Owns(next, i, k) {
      var i: nat :| Owns(s, i, k);
      assert Owns(next, i, k);
    }
  }

  lemma MovesKeepTokens(s: System, next: System, c: nat)
    requires OnlyMoves(s, next, c) && TokensFresh(s)
    ensures TokensFresh(next)
  {
    forall i | 0 <= i < |next.calls| ensures CallFresh(next, next.calls[i]) { assert CallFresh(s, s.calls[i]); }
    forall i: nat, d: nat | SameToken(next, i, d) ensures i == d { assert SameToken(s, i, d); }
  }

  lemma MovesSound(s: System, next: System, c: nat)
    requires OnlyMoves(s, next, c) && LockSound(s)
    ensures LockSound(next)
  {
    MovesKeepOwners(s, next, c);
    MovesKeepTokens(s, next, c);
  }

  lemma BeginSound(s: System, e: Event)
    requires LockSound(s) && e.Begin?
    ensures LockSound(Step(s, e))
  {
    var next := Step(s, e);
    forall i | 0 <= i < |next.calls| ensures CallFresh(next, next.calls[i]) {
      if i < |s.calls| { assert CallFresh(s, s.calls[i]); }
    }
    forall i: nat, d: nat | SameToken(next, i, d) ensures i == d { assert SameToken(s, i, d); }
    forall k | k in next.locks ensures exists i: nat :: Owns(next, i, k) {
      var i: nat :| Owns(s, i, k);
      assert Owns(next, i, k);
    }
  }

  lemma AcquireTokens(s: System, c: nat, lost: bool)
    requires TokensFresh(s) && At(s, c) && s.calls[c].pc.Locking?
    ensures TokensFresh(Acquire(s, c, lost))
  {
    var next := Acquire(s, c, lost);
    assert CallFresh(s, s.calls[c]);
    forall i | 0 <= i < |next.calls| ensures CallFresh(next, next.calls[i]) { assert CallFresh(s, s.calls[i]); }
    forall i: nat, d: nat | SameToken(next, i, d) ensures i == d {
      assert CallFresh(s, s.calls[i]) && CallFresh(s, s.calls[d]);
      if i != c && d != c { assert SameToken(s, i, d); }
    }
  }

  lemma AcquireKeeps(s: System, c: nat, lost: bool)
    requires LockSound(s) && At(s, c) && s.calls[c].pc.Locking?
    ensures LeasesKept(Acquire(s, c, lost))
  {
    assert CallFresh(s, s.calls[c]);
  }

  lemma AcquireSound(s: System, c: nat, lost: bool)
    requires LockSound(s) && At(s, c) && s.calls[c].pc.Locking?
    ensures LockSound(Acquire(s, c, lost))
  {
    AcquireTokens(s, c, lost);
    AcquireKeeps(s, c, lost);
    AcquireOwned(s, c, lost);
  }

  lemma AcquireOwned(s: System, c: nat, lost: bool)
    requires LockSound(s) && At(s, c) && s.calls[c].pc.Locking?
    ensures LeasesOwned(Acquire(s, c, lost))
  {
    var next := Acquire(s, c, lost);
    assert CallFresh(s, s.calls[c]);
    forall k | k in next.locks ensures exists i: nat :: Owns(next, i, k) {
      if LockFree(s, s.calls[c].LockKey()) && k == s.calls[c].LockKey() {
        assert Owns(next, c, k);
      } else {
        var i: nat :| Owns(s, i, k);
        assert Owns(next, i, k);
      }
    }
  }

  lemma ReleaseTokens(s: System, c: nat, errs: bool)
    requires TokensFresh(s) && Enabled(s, Releases(c, errs))
    ensures TokensFresh(Release(s, c, errs))
  {
    var next := Release(s, c, errs);
    forall i | 0 <= i < |next.calls| ensures CallFresh(next, next.calls[i]) { assert CallFresh(s, s.calls[i]); }
    forall i: nat, d: nat | SameToken(next, i, d) ensures i == d { assert SameToken(s, i, d); }
  }

  lemma ReleaseLeases(s: System, c: nat, errs: bool)
    requires LockSound(s) && Enabled(s, Releases(c, errs))
    ensures LeasesKept(Release(s, c, errs)) && LeasesOwned(Release(s, c, errs))
  {
    var next := Release(s, c, errs);
    forall i | 0 <= i < |next.calls| && next.calls[i].Leases() && next.now < next.calls[i].leaseEnds
      ensures next.calls[i].LockKey() in next.locks && next.calls[i].token.Some?
      ensures next.locks[next.calls[i].LockKey()] == Lease(next.calls[i].token.value, next.calls[i].leaseEnds)
    {
      assert s.calls[i].Leases() && (i != c ==> next.calls[i] == s.calls[i]);
      if i != c && next.calls[i].token == s.calls[c].token { assert SameToken(s, i, c); }
    }
    forall k | k in next.locks ensures exists i: nat :: Owns(next, i, k) {
      var i: nat :| Owns(s, i, k);
      assert Owns(next, i, k);
    }
  }

  /** Steps of the first half of a call that leave the lock alone. */
  lemma WorkSound(s: System, e: Event, c: nat)
    requires LockSound(s) && Enabled(s, e)
    requires (e.FirstGet? || e.FactoryResolves? || e.FactoryRejects? || e.Stores? || e.StoreErrs?) && e.c == c
    ensures LockSound(Step(s, e))
  {
    MovesSound(s, Step(s, e), c);
  }

  /** Steps of a waiter. */
  lemma WaitSound(s: System, e: Event, c: nat)
    requires LockSound(s) && Enabled(s, e)
    requires (e.Rechecks? || e.PollTests? || e.Wakes? || e.PollReads?) && e.c == c
    ensures LockSound(Step(s, e))
  {
    MovesSound(s, Step(s, e), c);
  }

  lemma TryLockSound(s: System, c: nat, errs: bool)
    requires LockSound(s) && Enabled(s, TryLock(c, errs))
    ensures LockSound(Step(s, TryLock(c, errs)))
  {
    if errs {
      MovesSound(s, Step(s, TryLock(c, errs)), c);
    } else {
      AcquireSound(s, c, false);
    }
  }

  lemma OutsideSound(s: System, e: Event)
    requires LockSound(s) && (e.Evict? || e.Tick?)
    ensures LockSound(Step(s, e))
  {
    MovesSound(s, Step(s, e), |s.calls|);
  }

  lemma StepLockSound(s: System, e: Event)
    requires LockSound(s) && Enabled(s, e)
    ensures LockSound(Step(s, e))
  {
    match e
    case Begin(_, _, _) => BeginSound(s, e);
    case TryLock(c, errs) => TryLockSound(s, c, errs);
    case LockReplyLost(c) => AcquireSound(s, c, true);
    case Releases(c, errs) =>
      ReleaseTokens(s, c, errs);
      ReleaseLeases(s, c, errs);
    case Evict(_) => OutsideSound(s, e);
    case Tick(_) => OutsideSound(s, e);
    case Rechecks(c, _) => WaitSound(s, e, c);
    case PollTests(c) => WaitSound(s, e, c);
    case Wakes(c) => WaitSound(s, e, c);
    case PollReads(c, _) => WaitSound(s, e, c);
    case FirstGet(c, _) => WorkSound(s, e, c);
    case FactoryResolves(c, _) => WorkSound(s, e, c);
    case FactoryRejects(c) => WorkSound(s, e, c);
    case Stores(c) => WorkSound(s, e, c);
    case StoreErrs(c) => WorkSound(s, e, c);
  }

  lemma {:induction false} ExecLockSound(hasLockService: bool, es: seq<Event>)
    ensures Exec(hasLockService, es).Some? ==> LockSound(Exec(hasLockService, es).value)
  {
    if es != [] && Exec(hasLockService, es).Some? {
      ExecLockSound(hasLockService, es[..|es| - 1]);
      StepLockSound(Exec(hasLockService, es[..|es| - 1]).value, es[|es| - 1]);
    }
  }

  /** Two calls for one key hold the lock together only when one of them has outlived its lease. */
  lemma OverlapNeedsExpiry(hasLockService: bool, es: seq<Event>, c: nat, d: nat)
    ensures Exec(hasLockService, es).Some? ==>
              var s := Exec(hasLockService, es).value;
              c < |s.calls| && d < |s.calls| && c != d && s.calls[c].key == s.calls[d].key &&
              s.calls[c].Holds() && s.calls[d].Holds() ==>
                s.calls[c].leaseEnds <= s.now || s.calls[d].leaseEnds <= s.now
  {
    ExecLockSound(hasLockService, es);
    if Exec(hasLockService, es).Some? && c < |Exec(hasLockService, es).value.calls| &&
       d < |Exec(hasLockService, es).value.calls| && c != d {
      assert !SameToken(Exec(hasLockService, es).value, c, d);
    }
  }

  // ---- All factory runs, with and without the lock -----------------------

  predicate Waits(pc: Pc) { pc.Rechecking? || pc.Polling? || pc.Sleeping? || pc.PollReading? }

  /** With a lock service, only a waiter past its deadline runs the factory without the lock. */
  predicate GaveUpFits(s: System, call: Call) {
    (Waits(call.pc) ==> call.waited) && (call.pc == Running(false) ==> call.waited && call.deadline <= s.now)
  }

  ghost predicate OnlyWaitersUnlocked(s: System) {
    s.hasLockService && forall c :: 0 <= c < |s.calls| ==> GaveUpFits(s, s.calls[c])
  }

  /** One call moved, the others and the clock's direction stayed. */
  lemma OneMovedFits(s: System, next: System, c: nat)
    requires OnlyWaitersUnlocked(s) && next.hasLockService && s.now <= next.now
    requires |s.calls| <= |next.calls| <= |s.calls| + 1 && (|next.calls| > |s.calls| ==> c == |s.calls|)
    requires forall i :: 0 <= i < |s.calls| && i != c ==> next.calls[i] == s.calls[i]
    requires c < |next.calls| ==> GaveUpFits(next, next.calls[c])
    ensures OnlyWaitersUnlocked(next)
  {
    forall i | 0 <= i < |next.calls| ensures GaveUpFits(next, next.calls[i]) {
      if i != c { assert GaveUpFits(s, s.calls[i]); }
    }
  }

  lemma WaiterStepUnlocked(s: System, e: Event, c: nat)
    requires OnlyWaitersUnlocked(s) && Enabled(s, e)
    requires (e.Rechecks? || e.PollTests? || e.Wakes? || e.PollReads?) && e.c == c
    ensures OnlyWaitersUnlocked(Step(s, e))
  {
    assert GaveUpFits(s, s.calls[c]);
    OneMovedFits(s, Step(s, e), c);
  }

  lemma CallerStepUnlocked(s: System, e: Event, c: nat)
    requires OnlyWaitersUnlocked(s) && Enabled(s, e)
    requires (e.FirstGet? || e.TryLock? || e.LockReplyLost? || e.FactoryResolves? || e.FactoryRejects? ||
              e.Stores? || e.StoreErrs? || e.Releases?) && e.c == c
    ensures OnlyWaitersUnlocked(Step(s, e))
  {
    OneMovedFits(s, Step(s, e), c);
  }

  lemma StepUnlocked(s: System, e: Event)
    requires OnlyWaitersUnlocked(s) && Enabled(s, e)
    ensures OnlyWaitersUnlocked(Step(s, e))
  {
    if e.Begin? || e.Evict? || e.Tick? {
      OneMovedFits(s, Step(s, e), |s.calls|);
    } else if e.Rechecks? || e.PollTests? || e.Wakes? || e.PollReads? {
      WaiterStepUnlocked(s, e, e.c);
    } else {
      CallerStepUnlocked(s, e, e.c);
    }
  }

  lemma {:induction false} ExecUnlocked(es: seq<Event>)
    ensures Exec(true, es).Some? ==> OnlyWaitersUnlocked(Exec(true, es).value)
  {
    if es != [] && Exec(true, es).Some? {
      ExecUnlocked(es[..|es| - 1]);
      StepUnlocked(Exec(true, es[..|es| - 1]).value, es[|es| - 1]);
    }
  }

  predicate OutlivedLease(s: System, call: Call) { call.pc == Running(true) && call.leaseEnds <= s.now }

  predicate GaveUpWaiting(s: System, call: Call) {
    call.pc == Running(false) && call.waited && call.deadline <= s.now
  }

  /**
   * With a lock service, two factory runs for one key overlap only when one of the two has outlived its
   * lease or has waited in vain past its own deadline.
   */
  lemma FactoriesOverlapOnly(es: seq<Event>, c: nat, d: nat)
    ensures Exec(true, es).Some? ==>
              var s := Exec(true, es).value;
              c < |s.calls| && d < |s.calls| && c != d && s.calls[c].key == s.calls[d].key &&
              s.calls[c].pc.Running? && s.calls[d].pc.Running? ==>
                OutlivedLease(s, s.calls[c]) || OutlivedLease(s, s.calls[d]) ||
                GaveUpWaiting(s, s.calls[c]) || GaveUpWaiting(s, s.calls[d])
  {
    OverlapNeedsExpiry(true, es, c, d);
    ExecUnlocked(es);
    if Exec(true, es).Some? && c < |Exec(true, es).value.calls| && d < |Exec(true, es).value.calls| {
      var s := Exec(true, es).value;
      assert GaveUpFits(s, s.calls[c]) && GaveUpFits(s, s.calls[d]);
    }
  }

  // ---- What is left in the lock table ------------------------------------

  /**
   * Success or failure, the lock is given back: every lease left in the table belongs to a call that
   * is still in its critical section, or whose release or acquire failed at the lock service itself.
   */
  lemma LeftoverLeasesExplained(hasLockService: bool, es: seq<Event>, key: string)
    ensures Exec(hasLockService, es).Some? && key in Exec(hasLockService, es).value.locks ==>
              exists c: nat :: Owns(Exec(hasLockService, es).value, c, key)
  {
    ExecLockSound(hasLockService, es);
  }
}
