/**
 * `ComputationCacheService.compute` under any interleaving of calls
 * (src/caching/computation-cache.service.ts). Every `await` is a step boundary.
 */
module SingleFlight {
  import opened Prelude

  /** A computed result. */
  datatype Value = Value(id: int)

  datatype Outcome = Resolved(value: Value) | Rejected

  // ---- The service's own fields ------------------------------------------

  datatype Fields = Fields(inFlight: map<string, nat>, hits: nat, misses: nat)

  datatype Decision = ReturnCached(value: Value) | Join(run: nat) | Lead(run: nat) | LeadThrew

  /**
   * The code between the cache lookup and the next await: hit, join the pending run, or lead a new
   * one. A factory that throws before it returns a promise leaves the map as it was.
   */
  function Decide(f: Fields, key: string, cached: Option<Value>, newRun: nat, factoryThrows: bool)
    : (Fields, Decision)
  {
    if cached.Some? then (f.(hits := f.hits + 1), ReturnCached(cached.value))
    else if key in f.inFlight then (f, Join(f.inFlight[key]))
    else if factoryThrows then (f.(misses := f.misses + 1), LeadThrew)
    else (f.(misses := f.misses + 1, inFlight := f.inFlight[key := newRun]), Lead(newRun))
  }

  class ComputationCacheService {
    var inFlight: map<string, nat>
    var hits: nat
    var misses: nat

    constructor ()
      ensures State() == Fields(map[], 0, 0)
    {
      inFlight, hits, misses := map[], 0, 0;
    }

    function State(): Fields
      reads this
    {
      Fields(inFlight, hits, misses)
    }

    method RecordHit()
      modifies this`hits
      ensures hits == old(hits) + 1
    {
      hits := hits + 1;
    }

    method RecordMiss()
      modifies this`misses
      ensures misses == old(misses) + 1
    {
      misses := misses + 1;
    }

    /** `compute` from the lookup's answer to its next await. */
    method AfterLookup(key: string, cached: Option<Value>, promise: nat, factoryThrows: bool)
      returns (d: Decision)
      modifies this
      ensures (State(), d) == Decide(old(State()), key, cached, promise, factoryThrows)
    {
      if cached.Some? {
        RecordHit();
        return ReturnCached(cached.value);
      }
      if key in inFlight {
        return Join(inFlight[key]);
      }
      RecordMiss();
      if factoryThrows {
        return LeadThrew;
      }
      inFlight := inFlight[key := promise];
      d := Lead(promise);
    }

    /** The `finally` callback of a run. */
    method OnSettled(key: string)
      modifies this`inFlight
      ensures State() == Landed(old(State()), key)
    {
      inFlight := inFlight - {key};
    }
  }

  function Landed(f: Fields, key: string): Fields { f.(inFlight := f.inFlight - {key}) }

  // ---- The interleaved system --------------------------------------------

  datatype RunPhase = Computing | Writing | Written | Settled(outcome: Outcome)

  /** One factory launch. `produced` is what the factory resolved to. */
  datatype Run = Run(key: string, leader: nat, produced: Option<Value>, phase: RunPhase)

  datatype Source = FromCache | FromRun(run: nat, joined: bool)

  datatype CallPhase =
    | Looking
    | Looked(seen: Option<Value>)
    | LookupFailed
    | Awaiting(run: nat, joined: bool)
    | Finished(outcome: Outcome, source: Source)

  datatype Call = Call(key: string, phase: CallPhase)

  datatype System = System(fields: Fields, cache: map<string, Value>, calls: seq<Call>, runs: seq<Run>)

  const START := System(Fields(map[], 0, 0), map[], [], [])

  datatype Event =
    | Begin(key: string)
    | LookupReads(call: nat)
    | LookupErrors(call: nat)
    | Continue(call: nat, factoryThrows: bool)
    | FactoryResolves(run: nat, value: Value)
    | FactoryRejects(run: nat)
    | CacheWrites(run: nat)
    | CacheWriteErrors(run: nat)
    | RunFinishes(run: nat)
    | Delivers(call: nat)
    | Evict(key: string)                          // expiry, or `invalidate`

  predicate RunIs(s: System, r: nat, phase: RunPhase) { r < |s.runs| && s.runs[r].phase == phase }

  predicate Enabled(s: System, e: Event) {
    match e
    case Begin(_) => true
    case LookupReads(c) => c < |s.calls| && s.calls[c].phase.Looking?
    case LookupErrors(c) => c < |s.calls| && s.calls[c].phase.Looking?
    case Continue(c, _) => c < |s.calls| && s.calls[c].phase.Looked?
    case FactoryResolves(r, _) => RunIs(s, r, Computing)
    case FactoryRejects(r) => RunIs(s, r, Computing)
    case CacheWrites(r) => RunIs(s, r, Writing)
    case CacheWriteErrors(r) => RunIs(s, r, Writing) || RunIs(s, r, Written)
    case RunFinishes(r) => RunIs(s, r, Written) && s.runs[r].produced.Some?
    case Delivers(c) =>
      c < |s.calls| && s.calls[c].phase.Awaiting? && s.calls[c].phase.run < |s.runs| &&
      s.runs[s.calls[c].phase.run].phase.Settled?
    case Evict(_) => true
  }

  function InPhase(s: System, c: nat, phase: CallPhase): System
    requires c < |s.calls|
  {
    s.(calls := s.calls[c := s.calls[c].(phase := phase)])
  }

  function RunInPhase(s: System, r: nat, phase: RunPhase): System
    requires r < |s.runs|
  {
    s.(runs := s.runs[r := s.runs[r].(phase := phase)])
  }

  function Settle(s: System, r: nat, outcome: Outcome): System
    requires r < |s.runs|
  {
    RunInPhase(s, r, Settled(outcome)).(fields := Landed(s.fields, s.runs[r].key))
  }

  function Proceed(s: System, c: nat, factoryThrows: bool): System
    requires c < |s.calls| && s.calls[c].phase.Looked?
  {
    var key, id := s.calls[c].key, |s.runs|;
    var (fields, d) := Decide(s.fields, key, s.calls[c].phase.seen, id, factoryThrows);
    match d
    case ReturnCached(v) => InPhase(s, c, Finished(Resolved(v), FromCache)).(fields := fields)
    case Join(r) => InPhase(s, c, Awaiting(r, true)).(fields := fields)
    case Lead(r) =>
      InPhase(s, c, Awaiting(r, false)).(fields := fields, runs := s.runs + [Run(key, c, None, Computing)])
    case LeadThrew =>
      InPhase(s, c, Finished(Rejected, FromRun(id, false)))
        .(fields := fields, runs := s.runs + [Run(key, c, None, Settled(Rejected))])
  }

  function Step(s: System, e: Event): System
    requires Enabled(s, e)
  {
    match e
    case Begin(key) => s.(calls := s.calls + [Call(key, Looking)])
    case LookupReads(c) =>
      var key := s.calls[c].key;
      InPhase(s, c, Looked(if key in s.cache then Some(s.cache[key]) else None))
    case LookupErrors(c) => InPhase(s, c, LookupFailed)
    case Continue(c, factoryThrows) => Proceed(s, c, factoryThrows)
    case FactoryResolves(r, v) => s.(runs := s.runs[r := s.runs[r].(produced := Some(v), phase := Writing)])
    case FactoryRejects(r) => Settle(s, r, Rejected)
    case CacheWrites(r) =>
      var run := s.runs[r];
      RunInPhase(s, r, Written)
        .(cache := if run.produced.Some? then s.cache[run.key := run.produced.value] else s.cache)
    case CacheWriteErrors(r) => Settle(s, r, Rejected)
    case RunFinishes(r) => Settle(s, r, Resolved(s.runs[r].produced.value))
    case Delivers(c) =>
      var Awaiting(r, joined) := s.calls[c].phase;
      InPhase(s, c, Finished(s.runs[r].phase.outcome, FromRun(r, joined)))
    case Evict(key) => s.(cache := s.cache - {key})
  }

  /** The state after an interleaving, when each event in it can happen at its turn. */
  function Exec(es: seq<Event>): Option<System> {
    if es == [] then Some(START)
    else
      match Exec(es[..|es| - 1])
      case None => None
      case Some(s) => if Enabled(s, es[|es| - 1]) then Some(Step(s, es[|es| - 1])) else None
  }

  // ---- One pending run per key -------------------------------------------

  predicate Unsettled(run: Run) { !run.phase.Settled? }

  /** The map lists exactly the unsettled runs, each under its key. */
  ghost predicate FlightsListed(s: System) {
    (forall k :: k in s.fields.inFlight ==>
       s.fields.inFlight[k] < |s.runs| && s.runs[s.fields.inFlight[k]].key == k &&
       Unsettled(s.runs[s.fields.inFlight[k]])) &&
    (forall r :: 0 <= r < |s.runs| && Unsettled(s.runs[r]) ==>
       s.runs[r].key in s.fields.inFlight && s.fields.inFlight[s.runs[r].key] == r)
  }

  lemma SettleListed(s: System, r: nat, outcome: Outcome)
    requires FlightsListed(s) && r < |s.runs| && Unsettled(s.runs[r])
    ensures FlightsListed(Settle(s, r, outcome))
  {}

  lemma ProceedListed(s: System, c: nat, factoryThrows: bool)
    requires FlightsListed(s) && c < |s.calls| && s.calls[c].phase.Looked?
    ensures FlightsListed(Proceed(s, c, factoryThrows))
  {}

  lemma StepListed(s: System, e: Event)
    requires FlightsListed(s) && Enabled(s, e)
    ensures FlightsListed(Step(s, e))
  {
    match e
    case Continue(c, factoryThrows) => ProceedListed(s, c, factoryThrows);
    case FactoryRejects(r) => SettleListed(s, r, Rejected);
    case CacheWriteErrors(r) => SettleListed(s, r, Rejected);
    case RunFinishes(r) => SettleListed(s, r, Resolved(s.runs[r].produced.value));
    case _ =>
  }

  // ---- Who gets what -----------------------------------------------------

  /** Some factory run for the key resolved to the value. */
  ghost predicate Produced(runs: seq<Run>, key: string, v: Value) {
    exists r :: 0 <= r < |runs| && runs[r].key == key && runs[r].produced == Some(v)
  }

  ghost predicate CallFits(s: System, c: nat)
    requires c < |s.calls|
  {
    var Call(key, phase) := s.calls[c];
    match phase
    case Looked(Some(v)) => Produced(s.runs, key, v)
    case Awaiting(r, joined) => r < |s.runs| && s.runs[r].key == key && (joined <==> s.runs[r].leader != c)
    case Finished(o, FromCache) => o.Resolved? && Produced(s.runs, key, o.value)
    case Finished(o, FromRun(r, joined)) =>
      r < |s.runs| && s.runs[r].key == key && s.runs[r].phase == Settled(o) &&
      (joined <==> s.runs[r].leader != c)
    case _ => true
  }

  predicate Leads(phase: CallPhase, r: nat) {
    phase == Awaiting(r, false) || (phase.Finished? && phase.source == FromRun(r, false))
  }

  ghost predicate RunFits(s: System, r: nat)
    requires r < |s.runs|
  {
    var run := s.runs[r];
    run.leader < |s.calls| && Leads(s.calls[run.leader].phase, r) &&
    (run.phase.Computing? ==> run.produced.None?) &&
    (run.phase.Writing? || run.phase.Written? ==> run.produced.Some?) &&
    (run.phase.Settled? && run.phase.outcome.Resolved? ==> run.produced == Some(run.phase.outcome.value))
  }

  ghost predicate CacheFits(s: System) {
    forall k :: k in s.cache ==> Produced(s.runs, k, s.cache[k])
  }

  ghost predicate Fits(s: System) {
    (forall c :: 0 <= c < |s.calls| ==> CallFits(s, c)) &&
    (forall r :: 0 <= r < |s.runs| ==> RunFits(s, r)) &&
    CacheFits(s)
  }

  predicate Grows(a: Run, b: Run) {
    b.key == a.key && b.leader == a.leader && (a.produced.Some? ==> b.produced == a.produced) &&
    (a.phase.Settled? ==> b.phase == a.phase)
  }

  ghost predicate RunsGrow(rs: seq<Run>, next: seq<Run>) {
    |rs| <= |next| && forall r :: 0 <= r < |rs| ==> Grows(rs[r], next[r])
  }

  lemma ProducedStays(rs: seq<Run>, next: seq<Run>, key: string, v: Value)
    requires RunsGrow(rs, next) && Produced(rs, key, v)
    ensures Produced(next, key, v)
  {
    var r :| 0 <= r < |rs| && rs[r].key == key && rs[r].produced == Some(v);
    assert Grows(rs[r], next[r]);
  }

  lemma CallKept(s: System, next: System, c: nat)
    requires c < |s.calls| && c < |next.calls| && next.calls[c] == s.calls[c]
    requires CallFits(s, c) && RunsGrow(s.runs, next.runs)
    ensures CallFits(next, c)
  {
    var Call(key, phase) := s.calls[c];
    match phase
    case Looked(Some(v)) => ProducedStays(s.runs, next.runs, key, v);
    case Awaiting(r, _) => assert Grows(s.runs[r], next.runs[r]);
    case Finished(o, FromCache) => ProducedStays(s.runs, next.runs, key, o.value);
    case Finished(_, FromRun(r, _)) => assert Grows(s.runs[r], next.runs[r]);
    case _ =>
  }

  lemma RunKept(s: System, next: System, r: nat)
    requires r < |s.runs| && r < |next.runs| && next.runs[r] == s.runs[r] && RunFits(s, r)
    requires |s.calls| <= |next.calls|
    requires Leads(s.calls[s.runs[r].leader].phase, r) ==> Leads(next.calls[s.runs[r].leader].phase, r)
    ensures RunFits(next, r)
  {}

  lemma CacheKept(s: System, next: System)
    requires CacheFits(s) && RunsGrow(s.runs, next.runs)
    requires forall k :: k in next.cache ==> k in s.cache && next.cache[k] == s.cache[k]
    ensures CacheFits(next)
  {
    forall k | k in next.cache ensures Produced(next.runs, k, next.cache[k]) {
      ProducedStays(s.runs, next.runs, k, s.cache[k]);
    }
  }

  /** A step that touches at most one call and no run. */
  lemma CallStepFits(s: System, next: System, c: nat)
    requires Fits(s) && next.runs == s.runs && |s.calls| <= |next.calls| <= |s.calls| + 1
    requires forall i :: 0 <= i < |s.calls| && i != c ==> next.calls[i] == s.calls[i]
    requires |next.calls| > |s.calls| ==> c == |s.calls|
    requires c < |next.calls| ==> CallFits(next, c)
    requires c < |s.calls| ==> forall r :: Leads(s.calls[c].phase, r) ==> Leads(next.calls[c].phase, r)
    requires forall k :: k in next.cache ==> k in s.cache && next.cache[k] == s.cache[k]
    ensures Fits(next)
  {
    forall i | 0 <= i < |next.calls| ensures CallFits(next, i) {
      if i != c { CallKept(s, next, i); }
    }
    forall r | 0 <= r < |next.runs| ensures RunFits(next, r) {
      RunKept(s, next, r);
    }
    CacheKept(s, next);
  }

  /** A step that touches one run and no call. */
  lemma RunStepFits(s: System, next: System, r: nat)
    requires Fits(s) && next.calls == s.calls && r < |s.runs| == |next.runs|
    requires forall i :: 0 <= i < |s.runs| && i != r ==> next.runs[i] == s.runs[i]
    requires Grows(s.runs[r], next.runs[r]) && RunFits(next, r)
    requires forall k :: k in next.cache ==>
               (k in s.cache && next.cache[k] == s.cache[k]) || Produced(next.runs, k, next.cache[k])
    ensures Fits(next)
  {
    assert RunsGrow(s.runs, next.runs);
    forall i | 0 <= i < |next.calls| ensures CallFits(next, i) {
      CallKept(s, next, i);
    }
    forall i | 0 <= i < |next.runs| ensures RunFits(next, i) {
      if i != r { RunKept(s, next, i); }
    }
    forall k | k in next.cache ensures Produced(next.runs, k, next.cache[k]) {
      if k in s.cache && next.cache[k] == s.cache[k] { ProducedStays(s.runs, next.runs, k, s.cache[k]); }
    }
  }

  /** A call becomes the leader of a run launched in the same step. */
  lemma LaunchFits(s: System, next: System, c: nat)
    requires Fits(s) && c < |s.calls| && s.calls[c].phase.Looked?
    requires |next.runs| == |s.runs| + 1 && next.runs[..|s.runs|] == s.runs
    requires |next.calls| == |s.calls| && next.cache == s.cache
    requires forall i :: 0 <= i < |s.calls| && i != c ==> next.calls[i] == s.calls[i]
    requires CallFits(next, c) && RunFits(next, |s.runs|)
    ensures Fits(next)
  {
    assert forall r :: 0 <= r < |s.runs| ==> next.runs[r] == next.runs[..|s.runs|][r];
    assert RunsGrow(s.runs, next.runs);
    forall i | 0 <= i < |next.calls| ensures CallFits(next, i) {
      if i != c { CallKept(s, next, i); }
    }
    forall r | 0 <= r < |next.runs| ensures RunFits(next, r) {
      if r < |s.runs| { RunKept(s, next, r); }
    }
    CacheKept(s, next);
  }

  lemma ProceedFits(s: System, c: nat, factoryThrows: bool)
    requires Fits(s) && FlightsListed(s) && c < |s.calls| && s.calls[c].phase.Looked?
    ensures Fits(Proceed(s, c, factoryThrows))
  {
    var next := Proceed(s, c, factoryThrows);
    var Call(key, phase) := s.calls[c];
    assert CallFits(s, c);
    if phase.seen.Some? {
      CallStepFits(s, next, c);
    } else if key in s.fields.inFlight {
      var r := s.fields.inFlight[key];
      assert RunFits(s, r);
      assert s.runs[r].leader != c;
      CallStepFits(s, next, c);
    } else {
      LaunchFits(s, next, c);
    }
  }

  lemma DeliverFits(s: System, c: nat)
    requires Fits(s) && Enabled(s, Delivers(c))
    ensures Fits(Step(s, Delivers(c)))
  {
    assert CallFits(s, c);
    CallStepFits(s, Step(s, Delivers(c)), c);
  }

  lemma LookupFits(s: System, c: nat)
    requires Fits(s) && Enabled(s, LookupReads(c))
    ensures Fits(Step(s, LookupReads(c)))
  {
    CallStepFits(s, Step(s, LookupReads(c)), c);
  }

  lemma SettleFits(s: System, r: nat, outcome: Outcome)
    requires Fits(s) && r < |s.runs| && Unsettled(s.runs[r])
    requires outcome.Resolved? ==> s.runs[r].produced == Some(outcome.value)
    ensures Fits(Settle(s, r, outcome))
  {
    assert RunFits(s, r);
    RunStepFits(s, Settle(s, r, outcome), r);
  }

  lemma ResolveFits(s: System, r: nat, v: Value)
    requires Fits(s) && Enabled(s, FactoryResolves(r, v))
    ensures Fits(Step(s, FactoryResolves(r, v)))
  {
    assert RunFits(s, r);
    RunStepFits(s, Step(s, FactoryResolves(r, v)), r);
  }

  lemma WriteFits(s: System, r: nat)
    requires Fits(s) && Enabled(s, CacheWrites(r))
    ensures Fits(Step(s, CacheWrites(r)))
  {
    var next := Step(s, CacheWrites(r));
    assert RunFits(s, r);
    assert Produced(next.runs, s.runs[r].key, s.runs[r].produced.value) by {
      assert next.runs[r].produced == s.runs[r].produced;
    }
    RunStepFits(s, next, r);
  }

  lemma StepFits(s: System, e: Event)
    requires Fits(s) && FlightsListed(s) && Enabled(s, e)
    ensures Fits(Step(s, e))
  {
    match e
    case Begin(_) => CallStepFits(s, Step(s, e), |s.calls|);
    case LookupReads(c) => LookupFits(s, c);
    case LookupErrors(c) => CallStepFits(s, Step(s, e), c);
    case Continue(c, factoryThrows) => ProceedFits(s, c, factoryThrows);
    case FactoryResolves(r, v) => ResolveFits(s, r, v);
    case FactoryRejects(r) => SettleFits(s, r, Rejected);
    case CacheWrites(r) => WriteFits(s, r);
    case CacheWriteErrors(r) => SettleFits(s, r, Rejected);
    case RunFinishes(r) => SettleFits(s, r, Resolved(s.runs[r].produced.value));
    case Delivers(c) => DeliverFits(s, c);
    case Evict(_) => CallStepFits(s, Step(s, e), |s.calls|);
  }

  // ---- Counters ----------------------------------------------------------

  datatype Kind = NotPast | Hit | Miss | Joined

  function KindOf(call: Call): Kind {
    match call.phase
    case Awaiting(_, joined) => if joined then Joined else Miss
    case Finished(_, FromCache) => Hit
    case Finished(_, FromRun(_, joined)) => if joined then Joined else Miss
    case _ => NotPast
  }

  function Tally(calls: seq<Call>, k: Kind): nat {
    if calls == [] then 0
    else Tally(calls[..|calls| - 1], k) + (if KindOf(calls[|calls| - 1]) == k then 1 else 0)
  }

  lemma {:induction false} TallyUpdate(calls: seq<Call>, c: nat, call: Call, k: Kind)
    requires c < |calls|
    ensures Tally(calls[c := call], k) ==
            Tally(calls, k) - (if KindOf(calls[c]) == k then 1 else 0) + (if KindOf(call) == k then 1 else 0)
  {
    var n := |calls| - 1;
    if c == n {
      assert calls[c := call][..n] == calls[..n];
    } else {
      TallyUpdate(calls[..n], c, call, k);
      assert calls[c := call][..n] == calls[..n][c := call];
    }
  }

  lemma TallyAppend(calls: seq<Call>, call: Call, k: Kind)
    ensures Tally(calls + [call], k) == Tally(calls, k) + (if KindOf(call) == k then 1 else 0)
  {
    assert (calls + [call])[..|calls|] == calls;
  }

  lemma {:induction false} TallyPartition(calls: seq<Call>)
    ensures Tally(calls, NotPast) + Tally(calls, Hit) + Tally(calls, Miss) + Tally(calls, Joined) == |calls|
  {
    if calls != [] { TallyPartition(calls[..|calls| - 1]); }
  }

  ghost predicate Counted(s: System) {
    s.fields.hits == Tally(s.calls, Hit) && s.fields.misses == Tally(s.calls, Miss) == |s.runs|
  }

  lemma StepCounted(s: System, e: Event)
    requires Counted(s) && Enabled(s, e)
    ensures Counted(Step(s, e))
  {
    match e
    case Begin(key) =>
      TallyAppend(s.calls, Call(key, Looking), Hit);
      TallyAppend(s.calls, Call(key, Looking), Miss);
    case LookupReads(c) => MovedCall(s, Step(s, e), c);
    case LookupErrors(c) => MovedCall(s, Step(s, e), c);
    case Continue(c, _) => MovedCall(s, Step(s, e), c);
    case Delivers(c) => MovedCall(s, Step(s, e), c);
    case _ =>
  }

  lemma MovedCall(s: System, next: System, c: nat)
    requires c < |s.calls| == |next.calls| && next.calls == s.calls[c := next.calls[c]]
    ensures Tally(next.calls, Hit) == Tally(s.calls, Hit) - (if KindOf(s.calls[c]) == Hit then 1 else 0)
                                      + (if KindOf(next.calls[c]) == Hit then 1 else 0)
    ensures Tally(next.calls, Miss) == Tally(s.calls, Miss) - (if KindOf(s.calls[c]) == Miss then 1 else 0)
                                       + (if KindOf(next.calls[c]) == Miss then 1 else 0)
  {
    TallyUpdate(s.calls, c, next.calls[c], Hit);
    TallyUpdate(s.calls, c, next.calls[c], Miss);
  }

  // ---- Every interleaving ------------------------------------------------

  lemma {:induction false} Invariants(es: seq<Event>)
    ensures Exec(es).Some? ==>
              FlightsListed(Exec(es).value) && Fits(Exec(es).value) && Counted(Exec(es).value)
  {
    if es != [] && Exec(es).Some? {
      var prior := es[..|es| - 1];
      Invariants(prior);
      StepListed(Exec(prior).value, es[|es| - 1]);
      StepFits(Exec(prior).value, es[|es| - 1]);
      StepCounted(Exec(prior).value, es[|es| - 1]);
    }
  }

  predicate Pending(s: System, r: int) { 0 <= r < |s.runs| && Unsettled(s.runs[r]) }

  /**
   * At most one unsettled run per key, and a key is in the map exactly while its run is unsettled,
   * whichever factories or cache writes fail.
   */
  lemma OneFlightPerKey(es: seq<Event>)
    ensures Exec(es).Some? ==>
              var s := Exec(es).value;
              (forall q, r | Pending(s, q) && Pending(s, r) && s.runs[q].key == s.runs[r].key :: q == r) &&
              (forall k :: k in s.fields.inFlight <==> exists r :: Pending(s, r) && s.runs[r].key == k)
  {
    Invariants(es);
    if Exec(es).Some? {
      var s := Exec(es).value;
      forall k | k in s.fields.inFlight ensures exists r :: Pending(s, r) && s.runs[r].key == k {
        assert Pending(s, s.fields.inFlight[k]);
      }
    }
  }

  /** Call `c` has been answered by run `r`. */
  predicate AnsweredBy(s: System, c: nat, r: nat) {
    c < |s.calls| && s.calls[c].phase.Finished? && s.calls[c].phase.source.FromRun? && s.calls[c].phase.source.run == r
  }

  predicate Launched(s: System, c: nat, r: nat) {
    c < |s.calls| && KindOf(s.calls[c]) == Miss && RunOf(s.calls[c].phase) == Some(r)
  }

  /** Everyone answered by one run gets the one outcome, and exactly one call launched it. */
  lemma JoinersShareTheLeader(es: seq<Event>, c: nat, d: nat, r: nat)
    ensures Exec(es).Some? && AnsweredBy(Exec(es).value, c, r) && AnsweredBy(Exec(es).value, d, r) ==>
              Exec(es).value.calls[c].phase.outcome == Exec(es).value.calls[d].phase.outcome
    ensures Exec(es).Some? && AnsweredBy(Exec(es).value, c, r) ==>
              (exists l: nat :: Launched(Exec(es).value, l, r)) &&
              forall l: nat, m: nat :: Launched(Exec(es).value, l, r) && Launched(Exec(es).value, m, r) ==> l == m
  {
    Invariants(es);
    if Exec(es).Some? && AnsweredBy(Exec(es).value, c, r) {
      var s := Exec(es).value;
      assert CallFits(s, c) && RunFits(s, r);
      assert Launched(s, s.runs[r].leader, r);
      if d < |s.calls| { assert CallFits(s, d); }
      forall l: nat, m: nat | Launched(s, l, r) && Launched(s, m, r) ensures l == m {
        assert CallFits(s, l) && CallFits(s, m);
      }
    }
  }

  function RunOf(phase: CallPhase): Option<nat> {
    match phase
    case Awaiting(r, _) => Some(r)
    case Finished(_, FromRun(r, _)) => Some(r)
    case _ => None
  }

  /** Call `l` launched the run that call `c` waits on, or was answered by. */
  predicate LaunchedFor(s: System, l: nat, c: nat) {
    l < |s.calls| && c < |s.calls| && l != c && s.calls[l].key == s.calls[c].key &&
    KindOf(s.calls[l]) == Miss && RunOf(s.calls[l].phase) == RunOf(s.calls[c].phase)
  }

  lemma JoinerHasLeader(es: seq<Event>, c: nat)
    ensures Exec(es).Some? && c < |Exec(es).value.calls| && KindOf(Exec(es).value.calls[c]) == Joined ==>
              exists l: nat :: LaunchedFor(Exec(es).value, l, c)
  {
    Invariants(es);
    if Exec(es).Some? && c < |Exec(es).value.calls| && KindOf(Exec(es).value.calls[c]) == Joined {
      var s := Exec(es).value;
      assert CallFits(s, c);
      var r := RunOf(s.calls[c].phase).value;
      assert RunFits(s, r);
      assert CallFits(s, s.runs[r].leader);
      assert LaunchedFor(s, s.runs[r].leader, c);
    }
  }

  /** Every value handed to a caller was produced by a factory run for the caller's own key. */
  lemma ValuesAreProduced(es: seq<Event>, c: nat)
    ensures Exec(es).Some? && c < |Exec(es).value.calls| ==>
              var s := Exec(es).value;
              s.calls[c].phase.Finished? && s.calls[c].phase.outcome.Resolved? ==>
                Produced(s.runs, s.calls[c].key, s.calls[c].phase.outcome.value)
  {
    Invariants(es);
    if Exec(es).Some? && c < |Exec(es).value.calls| {
      var s := Exec(es).value;
      assert CallFits(s, c);
      if s.calls[c].phase.Finished? && s.calls[c].phase.source.FromRun? {
        assert RunFits(s, s.calls[c].phase.source.run);
      }
    }
  }

  /** Calls past the lookup are the hits, the misses and the joins; a miss is a factory launch. */
  lemma CountersAddUp(es: seq<Event>)
    ensures Exec(es).Some? ==>
              var s := Exec(es).value;
              |s.calls| - Tally(s.calls, NotPast) ==
              s.fields.hits + s.fields.misses + Tally(s.calls, Joined) &&
              s.fields.misses == |s.runs|
  {
    Invariants(es);
    if Exec(es).Some? { TallyPartition(Exec(es).value.calls); }
  }

  // ---- A launch on a warm cache ------------------------------------------

  /** The last event from number `from` on that touched the key's cache entry was a write. */
  predicate WrittenSince(es: seq<Event>, from: nat, key: string)
    decreases |es|
  {
    |es| > from &&
    var n := |es| - 1;
    if es[n] == Evict(key) then false
    else if Writes(Exec(es[..n]), es[n], key) then true
    else WrittenSince(es[..n], from, key)
  }

  predicate Writes(before: Option<System>, e: Event, key: string) {
    before.Some? && e.CacheWrites? && e.run < |before.value.runs| &&
    before.value.runs[e.run].key == key && before.value.runs[e.run].produced.Some?
  }

  lemma {:induction false} CacheTells(es: seq<Event>, from: nat, key: string)
    requires from <= |es| && Exec(es).Some?
    ensures Exec(es[..from]).Some?
    ensures key !in Exec(es[..from]).value.cache ==>
              (key in Exec(es).value.cache <==> WrittenSince(es, from, key))
  {
    if |es| == from {
      assert es[..from] == es;
    } else {
      var n := |es| - 1;
      CacheTells(es[..n], from, key);
      assert es[..n][..from] == es[..from];
      CacheStep(Exec(es[..n]).value, es[n], key);
    }
  }

  lemma CacheStep(s: System, e: Event, key: string)
    requires Enabled(s, e)
    ensures key in Step(s, e).cache <==> e != Evict(key) && (Writes(Some(s), e, key) || key in s.cache)
  {}

  /** The call's lookup was answered in the first state; it has the same answer later, or has gone on. */
  predicate SameSeen(before: System, after: System, c: nat) {
    c < |before.calls| && !before.calls[c].phase.Looking? ==>
      c < |after.calls| && !after.calls[c].phase.Looking? && after.calls[c].key == before.calls[c].key &&
      (after.calls[c].phase.Looked? ==> after.calls[c] == before.calls[c])
  }

  lemma {:induction false} SeenStays(es: seq<Event>, m: nat, c: nat)
    requires m <= |es| && Exec(es).Some?
    ensures Exec(es[..m]).Some? && SameSeen(Exec(es[..m]).value, Exec(es).value, c)
  {
    if |es| == m {
      assert es[..m] == es;
    } else {
      var n := |es| - 1;
      SeenStays(es[..n], m, c);
      assert es[..n][..m] == es[..m];
      SeenStep(Exec(es[..n]).value, es[n], c);
      SeenJoins(Exec(es[..m]).value, Exec(es[..n]).value, Exec(es).value, c);
    }
  }

  lemma SeenStep(s: System, e: Event, c: nat)
    requires Enabled(s, e)
    ensures SameSeen(s, Step(s, e), c)
  {
    match e
    case Continue(d, factoryThrows) => assert Step(s, e) == Proceed(s, d, factoryThrows);
    case _ =>
  }

  lemma SeenJoins(a: System, b: System, d: System, c: nat)
    requires SameSeen(a, b, c) && SameSeen(b, d, c)
    ensures SameSeen(a, d, c)
  {}

  lemma LaunchesExactly(s: System, c: nat)
    requires c < |s.calls| && s.calls[c].phase == Looked(None)
    ensures |Step(s, Continue(c, false)).runs| > |s.runs| <==> s.calls[c].key !in s.fields.inFlight
  {}

  /**
   * A call whose lookup missed launches the factory exactly when no run for its key is in flight, and
   * the value is in the cache by then exactly when it was written since that lookup: the lookup is not
   * repeated.
   */
  lemma WarmLaunchExactly(es: seq<Event>, i: nat, c: nat)
    requires Exec(es).Some? && i < |es| && es[i] == LookupReads(c)
    requires c < |Exec(es).value.calls| && Exec(es).value.calls[c].phase == Looked(None)
    ensures var s := Exec(es).value;
            var key := s.calls[c].key;
            (|Step(s, Continue(c, false)).runs| > |s.runs| <==> key !in s.fields.inFlight) &&
            (key in s.cache <==> WrittenSince(es, i + 1, key))
  {
    var key := Exec(es).value.calls[c].key;
    LaunchesExactly(Exec(es).value, c);
    SeenStays(es, i + 1, c);
    assert es[..i + 1][..i] == es[..i];
    CacheTells(es, i + 1, key);
  }

  lemma ExecPush(es: seq<Event>, e: Event, s: System)
    requires Exec(es) == Some(s) && Enabled(s, e)
    ensures Exec(es + [e]) == Some(Step(s, e))
  {
    assert (es + [e])[..|es|] == es;
  }

  /** Two calls that missed; the second goes on after the first one's run has been written and landed. */
  lemma SecondLaunch(key: string, v: Value) returns (es: seq<Event>)
    ensures Exec(es).Some?
    ensures var s := Exec(es).value;
            |s.runs| == 2 && s.runs[0] == Run(key, 0, Some(v), Settled(Resolved(v))) &&
            s.runs[1] == Run(key, 1, None, Computing) && s.cache == map[key := v]
  {
    var s;
    es, s := FirstRunDone(key, v);
    ExecPush(es, Continue(1, false), s);
    es := es + [Continue(1, false)];
  }

  lemma FirstRunDone(key: string, v: Value) returns (es: seq<Event>, s: System)
    ensures Exec(es) == Some(s) && s.runs == [Run(key, 0, Some(v), Settled(Resolved(v)))]
    ensures s.calls == [Call(key, Awaiting(0, false)), Call(key, Looked(None))]
    ensures s.cache == map[key := v] && s.fields.inFlight == map[]
  {
    es, s := BothMissed(key);
    ExecPush(es, Continue(0, false), s);
    es, s := es + [Continue(0, false)], Step(s, Continue(0, false));
    ExecPush(es, FactoryResolves(0, v), s);
    es, s := es + [FactoryResolves(0, v)], Step(s, FactoryResolves(0, v));
    ExecPush(es, CacheWrites(0), s);
    es, s := es + [CacheWrites(0)], Step(s, CacheWrites(0));
    ExecPush(es, RunFinishes(0), s);
    es, s := es + [RunFinishes(0)], Step(s, RunFinishes(0));
  }

  lemma BothMissed(key: string) returns (es: seq<Event>, s: System)
    ensures Exec(es) == Some(s) && s == START.(calls := [Call(key, Looked(None)), Call(key, Looked(None))])
  {
    es, s := [], START;
    ExecPush(es, Begin(key), s);
    es, s := es + [Begin(key)], Step(s, Begin(key));
    ExecPush(es, Begin(key), s);
    es, s := es + [Begin(key)], Step(s, Begin(key));
    ExecPush(es, LookupReads(0), s);
    es, s := es + [LookupReads(0)], Step(s, LookupReads(0));
    ExecPush(es, LookupReads(1), s);
    es, s := es + [LookupReads(1)], Step(s, LookupReads(1));
  }

  // ---- What a call is answered -------------------------------------------

  /** A lookup that found a value is answered with it and counts a hit; no run starts and none is joined. */
  lemma HitIsReturned(s: System, c: nat, factoryThrows: bool)
    requires c < |s.calls| && s.calls[c].phase.Looked? && s.calls[c].phase.seen.Some?
    ensures var next := Step(s, Continue(c, factoryThrows));
            next == s.(calls := s.calls[c := next.calls[c]], fields := s.fields.(hits := s.fields.hits + 1)) &&
            next.calls[c].phase == Finished(Resolved(s.calls[c].phase.seen.value), FromCache)
  {}

  /** A miss joins the run pending for its key, without counting, or launches one; a throw is a miss as well. */
  lemma MissIsComputed(s: System, c: nat, factoryThrows: bool)
    requires FlightsListed(s) && c < |s.calls| && s.calls[c].phase == Looked(None)
    ensures var next, key := Step(s, Continue(c, factoryThrows)), s.calls[c].key;
            next.cache == s.cache && next.fields.hits == s.fields.hits &&
            (forall r :: Pending(s, r) && s.runs[r].key == key ==>
               next == s.(calls := next.calls) && next.calls[c].phase == Awaiting(r, true)) &&
            ((forall r :: Pending(s, r) ==> s.runs[r].key != key) ==>
               next.fields.misses == s.fields.misses + 1 && |next.runs| == |s.runs| + 1 &&
               next.calls[c].phase == if factoryThrows then Finished(Rejected, FromRun(|s.runs|, false))
                                      else Awaiting(|s.runs|, false))
  {
    if s.calls[c].key in s.fields.inFlight { assert Pending(s, s.fields.inFlight[s.calls[c].key]); }
  }

  /** In every run: a call that goes on launches the factory exactly when it missed and no run is pending. */
  lemma LaunchedExactly(es: seq<Event>, c: nat, factoryThrows: bool)
    requires Exec(es).Some? && Enabled(Exec(es).value, Continue(c, factoryThrows))
    ensures var s := Exec(es).value;
            |Step(s, Continue(c, factoryThrows)).runs| > |s.runs| <==>
            s.calls[c].phase.seen.None? && forall r :: Pending(s, r) ==> s.runs[r].key != s.calls[c].key
  {
    Invariants(es);
    var s := Exec(es).value;
    if s.calls[c].phase.seen.None? { MissIsComputed(s, c, factoryThrows); } else { HitIsReturned(s, c, factoryThrows); }
  }

  lemma LookupTells(s: System, c: nat)
    requires Enabled(s, LookupReads(c))
    ensures var next := Step(s, LookupReads(c));
            next == s.(calls := next.calls) && next.calls[c].phase.Looked? &&
            forall v :: next.calls[c].phase.seen == Some(v) <==> s.calls[c].key in s.cache && s.cache[s.calls[c].key] == v
  {}

  /** A call returns a cached value exactly when its key held it as the lookup was answered. */
  lemma HitExactly(es: seq<Event>, i: nat, c: nat, v: Value, factoryThrows: bool)
    requires Exec(es).Some? && i < |es| && es[i] == LookupReads(c)
    requires Enabled(Exec(es).value, Continue(c, factoryThrows))
    ensures Exec(es[..i]).Some? && c < |Exec(es[..i]).value.calls|
    ensures var before, key := Exec(es[..i]).value, Exec(es).value.calls[c].key;
            Step(Exec(es).value, Continue(c, factoryThrows)).calls[c].phase == Finished(Resolved(v), FromCache) <==>
            key in before.cache && before.cache[key] == v
  {
    SeenStays(es, i + 1, c);
    assert es[..i + 1][..i] == es[..i];
    LookupTells(Exec(es[..i]).value, c);
    ContinuesFrom(Exec(es).value, c, v, factoryThrows);
  }

  lemma ContinuesFrom(s: System, c: nat, v: Value, factoryThrows: bool)
    requires Enabled(s, Continue(c, factoryThrows))
    ensures Step(s, Continue(c, factoryThrows)).calls[c].phase == Finished(Resolved(v), FromCache) <==>
            s.calls[c].phase.seen == Some(v)
  {
    if s.calls[c].phase.seen.Some? { HitIsReturned(s, c, factoryThrows); }
  }

  // ---- How a run ends ----------------------------------------------------

  predicate Ends(run: Run, outcome: Outcome) { run.phase == Settled(outcome) }

  /** The run's factory rejected, or threw as it was called, or the cache refused its result. */
  ghost predicate Failed(es: seq<Event>, r: nat, leader: nat) {
    FactoryRejects(r) in es || CacheWriteErrors(r) in es || Continue(leader, true) in es
  }

  ghost predicate EndFits(es: seq<Event>, run: Run, r: nat) {
    (run.phase.Settled? ==>
       if run.phase.outcome.Resolved? then RunFinishes(r) in es else Failed(es, r, run.leader)) &&
    (RunFinishes(r) in es ==> run.phase.Settled? && run.phase.outcome.Resolved?) &&
    (CacheWriteErrors(r) in es || FactoryRejects(r) in es ==> Ends(run, Rejected)) &&
    (run.phase.Written? || RunFinishes(r) in es ==> CacheWrites(r) in es)
  }

  ghost predicate EndsFit(es: seq<Event>, s: System) {
    (forall r :: 0 <= r < |s.runs| ==> EndFits(es, s.runs[r], r)) &&
    forall e :: e in es && (e.RunFinishes? || e.CacheWriteErrors? || e.FactoryRejects? || e.CacheWrites?) ==> e.run < |s.runs|
  }

  lemma EndKept(es: seq<Event>, e: Event, run: Run, r: nat)
    requires EndFits(es, run, r)
    requires e != RunFinishes(r) && e != CacheWriteErrors(r) && e != FactoryRejects(r) && e != CacheWrites(r)
    ensures EndFits(es + [e], run, r)
  {}

  lemma EndMoves(es: seq<Event>, s: System, e: Event, r: nat)
    requires EndsFit(es, s) && Enabled(s, e) && r < |s.runs|
    ensures r < |Step(s, e).runs| && EndFits(es + [e], Step(s, e).runs[r], r)
  {
    assert EndFits(es, s.runs[r], r);
    if (e.RunFinishes? || e.CacheWriteErrors? || e.FactoryRejects? || e.CacheWrites?) && e.run == r {
      assert e in es + [e];
    } else {
      EndKept(es, e, s.runs[r], r);
      assert Step(s, e).runs[r] == s.runs[r] || e.FactoryResolves?;
    }
  }

  lemma NewRunFits(es: seq<Event>, s: System, e: Event)
    requires EndsFit(es, s) && Enabled(s, e) && |Step(s, e).runs| > |s.runs|
    ensures |Step(s, e).runs| == |s.runs| + 1 && EndFits(es + [e], Step(s, e).runs[|s.runs|], |s.runs|)
  {
    assert e.Continue? && e in es + [e];
    assert forall x :: x in es + [e] <==> x in es || x == e;
  }

  lemma {:induction false} ExecEnds(es: seq<Event>)
    ensures Exec(es).Some? ==> EndsFit(es, Exec(es).value)
  {
    if es != [] && Exec(es).Some? {
      var n := |es| - 1;
      ExecEnds(es[..n]);
      var s := Exec(es[..n]).value;
      assert es[..n] + [es[n]] == es;
      forall r | 0 <= r < |Step(s, es[n]).runs| ensures EndFits(es, Step(s, es[n]).runs[r], r) {
        if r < |s.runs| { EndMoves(es[..n], s, es[n], r); } else { NewRunFits(es[..n], s, es[n]); }
      }
    }
  }

  /**
   * A run resolves exactly when its result was written to the cache and it finished; it has rejected
   * whenever its factory or its write failed, and a settled run that did not resolve failed in one of these.
   */
  lemma RunEndsExactly(es: seq<Event>, r: nat)
    ensures Exec(es).Some? && r < |Exec(es).value.runs| ==>
              var run := Exec(es).value.runs[r];
              (run.phase.Settled? && run.phase.outcome.Resolved? <==> RunFinishes(r) in es) &&
              (RunFinishes(r) in es ==> CacheWrites(r) in es) &&
              (FactoryRejects(r) in es || CacheWriteErrors(r) in es ==> Ends(run, Rejected)) &&
              (Ends(run, Rejected) ==> Failed(es, r, run.leader))
  {
    ExecEnds(es);
    if Exec(es).Some? && r < |Exec(es).value.runs| { assert EndFits(es, Exec(es).value.runs[r], r); }
  }
}
