/**
 * The per-session operation log: the revision counter (ot-crdt.service.ts), the stored history
 * (change-history.service.ts) and the gateway that drives both (collaboration.gateway.ts).
 */
module ChangeLog {
  import opened Prelude
  import opened OtCrdt
  import opened OtBatch

  datatype HistoryEntry = HistoryEntry(revision: int, operation: Operation)

  /** The state the two services hold between requests. */
  datatype LogState = LogState(revisions: map<string, nat>, history: map<string, seq<HistoryEntry>>) {
    function Current(sid: string): nat { if sid in revisions then revisions[sid] else 0 }

    function Log(sid: string): seq<HistoryEntry> { if sid in history then history[sid] else [] }

    /** Revisions already dropped by `clear`. */
    function Dropped(sid: string): int { Current(sid) - |Log(sid)| }
  }

  const START := LogState(map[], map[])

  // ---- Reads -------------------------------------------------------------

  /** `entries.filter((e) => e.revision > from)` */
  function After(entries: seq<HistoryEntry>, from: int): seq<HistoryEntry> {
    if entries == [] then []
    else (if entries[0].revision > from then [entries[0]] else []) + After(entries[1..], from)
  }

  /** The gateway's filter for other users' entries that carry the new revision. */
  function Concurrent(entries: seq<HistoryEntry>, revision: int, userId: JsString): seq<Operation> {
    if entries == [] then []
    else
      (if entries[0].revision == revision && entries[0].operation.userId != userId
       then [entries[0].operation] else []) + Concurrent(entries[1..], revision, userId)
  }

  /** `entries.slice(-limit)`: a limit of zero gives everything, a negative one drops from the front. */
  function Latest(entries: seq<HistoryEntry>, limit: int): seq<HistoryEntry> {
    if limit > 0 then entries[Max(0, |entries| - limit)..] else entries[Min(-limit, |entries|)..]
  }

  // ---- The services ------------------------------------------------------

  function Stamp(op: Operation, sid: string, userId: JsString, revision: int): Operation {
    op.(sessionId := sid, userId := userId, revision := revision)
  }

  /** What a session's log should become: the operation as sent, stamped with the next revision. */
  function Accepted(st: LogState, sid: string, userId: JsString, op: Operation): LogState {
    var revision := st.Current(sid) + 1;
    var entry := HistoryEntry(revision, Stamp(op, sid, userId, revision));
    LogState(st.revisions[sid := revision], st.history[sid := st.Log(sid) + [entry]])
  }

  function Cleared(st: LogState, sid: string): LogState { st.(history := st.history - {sid}) }

  class OtCrdtService {
    var revisions: map<string, nat>

    constructor ()
      ensures revisions == map[]
    {
      revisions := map[];
    }

    function CurrentRevision(sid: string): nat
      reads this
    {
      if sid in revisions then revisions[sid] else 0
    }

    method NextRevision(sid: string) returns (rev: nat)
      modifies this
      ensures rev == old(CurrentRevision(sid)) + 1 == CurrentRevision(sid)
      ensures forall other :: other != sid ==> CurrentRevision(other) == old(CurrentRevision(other))
      ensures revisions == old(revisions)[sid := rev]
    {
      rev := (if sid in revisions then revisions[sid] else 0) + 1;
      revisions := revisions[sid := rev];
    }
  }

  class ChangeHistoryService {
    var history: map<string, seq<HistoryEntry>>

    constructor ()
      ensures history == map[]
    {
      history := map[];
    }

    function Entries(sid: string): seq<HistoryEntry>
      reads this
    {
      if sid in history then history[sid] else []
    }

    function GetHistory(sid: string, fromRevision: int): seq<HistoryEntry>
      reads this
    {
      After(Entries(sid), fromRevision)
    }

    function GetLatest(sid: string, limit: int): seq<HistoryEntry>
      reads this
    {
      Latest(Entries(sid), limit)
    }

    method Record(operation: Operation)
      modifies this
      ensures history == old(history)[operation.sessionId :=
                           old(Entries(operation.sessionId)) + [HistoryEntry(operation.revision, operation)]]
    {
      if operation.sessionId !in history {
        history := history[operation.sessionId := []];
      }
      history := history[operation.sessionId :=
        history[operation.sessionId] + [HistoryEntry(operation.revision, operation)]];
    }

    method Clear(sid: string)
      modifies this
      ensures history == old(history) - {sid}
    {
      history := history - {sid};
    }
  }

  class CollaborationGateway {
    const otCrdt: OtCrdtService
    const history: ChangeHistoryService

    constructor (otCrdt: OtCrdtService, history: ChangeHistoryService)
      ensures this.otCrdt == otCrdt && this.history == history
    {
      this.otCrdt, this.history := otCrdt, history;
    }

    function State(): LogState
      reads otCrdt, history
    {
      LogState(otCrdt.revisions, history.history)
    }

    method HandleOperation(sid: string, userId: JsString, incoming: Operation)
      returns (finalOp: Operation, revision: nat)
      requires Gapless(State())
      modifies otCrdt, history
      ensures State() == Accepted(old(State()), sid, userId, incoming)
      ensures revision == old(State()).Current(sid) + 1
      ensures finalOp == Stamp(incoming, sid, userId, revision)
      ensures finalOp.kind == incoming.kind && finalOp.position == incoming.position
      ensures finalOp.content == incoming.content && finalOp.length == incoming.length
      ensures finalOp.sessionId == sid && finalOp.userId == userId && finalOp.revision == revision
      ensures Gapless(State())
    {
      ghost var before := State();
      revision := otCrdt.NextRevision(sid);
      var op := incoming.(sessionId := sid, userId := userId, revision := revision);
      var concurrent := Concurrent(history.GetHistory(sid, revision - 1), revision, userId);
      finalOp := op;
      for i := 0 to |concurrent|
        modifies {}
        invariant finalOp == RebasedOver(op, concurrent[..i])
      {
        RebasedOverOneMore(op, concurrent[..i], concurrent[i]);
        assert concurrent[..i + 1] == concurrent[..i] + [concurrent[i]];
        finalOp := Transform(finalOp, concurrent[i]).operation;
      }
      assert concurrent[..|concurrent|] == concurrent;
      NothingConcurrent(before, sid, userId);
      assert finalOp == Stamp(incoming, sid, userId, before.Current(sid) + 1);
      history.Record(finalOp);
      AcceptedGapless(before, sid, userId, incoming);
    }

    method HandleSync(sid: string) returns (revision: nat, latest: seq<HistoryEntry>)
      ensures revision == State().Current(sid)
      ensures latest == Latest(State().Log(sid), SYNC_LIMIT)
    {
      revision := otCrdt.CurrentRevision(sid);
      latest := history.GetLatest(sid, SYNC_LIMIT);
    }
  }

  const SYNC_LIMIT := 50

  // ---- The invariant -----------------------------------------------------

  /** A session's log holds consecutive revisions that end at its counter. */
  ghost predicate GaplessAt(st: LogState, sid: string) {
    |st.Log(sid)| <= st.Current(sid) &&
    forall i :: 0 <= i < |st.Log(sid)| ==>
      var e := st.Log(sid)[i];
      e.revision == st.Dropped(sid) + 1 + i == e.operation.revision && e.operation.sessionId == sid
  }

  ghost predicate Gapless(st: LogState) { forall sid :: GaplessAt(st, sid) }

  /** What the filter lets through: other users' operations under just that revision. */
  lemma {:induction false} ConcurrentExactly(entries: seq<HistoryEntry>, revision: int, userId: JsString, op: Operation)
    ensures op in Concurrent(entries, revision, userId) <==>
            op.userId != userId && HistoryEntry(revision, op) in entries
  {
    if entries != [] {
      ConcurrentExactly(entries[1..], revision, userId, op);
      assert entries == [entries[0]] + entries[1..];
    }
  }

  lemma {:induction false} RebasedOverOneMore(op: Operation, others: seq<Operation>, next: Operation)
    ensures RebasedOver(op, others + [next]) == Rebased(RebasedOver(op, others), next)
    decreases |others|
  {
    if others != [] {
      RebasedOverOneMore(Rebased(op, others[0]), others[1..], next);
      assert (others + [next])[1..] == others[1..] + [next];
    }
  }

  lemma {:induction false} AfterAll(entries: seq<HistoryEntry>, from: int)
    requires forall i :: 0 <= i < |entries| ==> entries[i].revision <= from
    ensures After(entries, from) == []
  {
    if entries != [] { AfterAll(entries[1..], from); }
  }

  /** The transform loop never has anything to transform against. */
  lemma NothingConcurrent(st: LogState, sid: string, userId: JsString)
    requires Gapless(st)
    ensures Concurrent(After(st.Log(sid), st.Current(sid)), st.Current(sid) + 1, userId) == []
  {
    assert GaplessAt(st, sid);
    AfterAll(st.Log(sid), st.Current(sid));
  }

  lemma AcceptedGapless(st: LogState, sid: string, userId: JsString, op: Operation)
    requires Gapless(st)
    ensures Gapless(Accepted(st, sid, userId, op))
  {
    var next := Accepted(st, sid, userId, op);
    forall other ensures GaplessAt(next, other) {
      assert GaplessAt(st, other);
    }
  }

  lemma ClearedGapless(st: LogState, sid: string)
    requires Gapless(st)
    ensures Gapless(Cleared(st, sid))
  {
    forall other ensures GaplessAt(Cleared(st, sid), other) {
      assert GaplessAt(st, other);
    }
  }

  // ---- Whole runs --------------------------------------------------------

  datatype Request = Operate(sid: string, userId: JsString, op: Operation) | Clear(sid: string)

  function Step(st: LogState, r: Request): LogState {
    match r
    case Operate(sid, userId, op) => Accepted(st, sid, userId, op)
    case Clear(sid) => Cleared(st, sid)
  }

  function Run(st: LogState, rs: seq<Request>): LogState {
    if rs == [] then st else Step(Run(st, rs[..|rs| - 1]), rs[|rs| - 1])
  }

  /** The requests of one session, in order. */
  function Of(rs: seq<Request>, sid: string): seq<Request> {
    if rs == [] then []
    else Of(rs[..|rs| - 1], sid) + (if rs[|rs| - 1].sid == sid then [rs[|rs| - 1]] else [])
  }

  function Operations(rs: seq<Request>): nat {
    if rs == [] then 0 else Operations(rs[..|rs| - 1]) + (if rs[|rs| - 1].Operate? then 1 else 0)
  }

  lemma {:induction false} RunGapless(st: LogState, rs: seq<Request>)
    requires Gapless(st)
    ensures Gapless(Run(st, rs))
  {
    if rs != [] {
      RunGapless(st, rs[..|rs| - 1]);
      var prior := Run(st, rs[..|rs| - 1]);
      match rs[|rs| - 1]
      case Operate(sid, userId, op) => AcceptedGapless(prior, sid, userId, op);
      case Clear(sid) => ClearedGapless(prior, sid);
    }
  }

  /** Interleaving sessions changes nothing inside one: its counter and log depend on its own requests. */
  lemma {:induction false} SessionsIndependent(st: LogState, rs: seq<Request>, sid: string)
    ensures Run(st, rs).Current(sid) == Run(st, Of(rs, sid)).Current(sid)
    ensures Run(st, rs).Log(sid) == Run(st, Of(rs, sid)).Log(sid)
  {
    if rs != [] {
      var last := rs[|rs| - 1];
      SessionsIndependent(st, rs[..|rs| - 1], sid);
      if last.sid == sid {
        var own := Of(rs[..|rs| - 1], sid);
        assert (own + [last])[..|own|] == own;
      } else {
        assert Of(rs, sid) == Of(rs[..|rs| - 1], sid);
      }
    }
  }

  /** The counter is the number of the session's operations, whatever was cleared. */
  lemma {:induction false} CounterCounts(rs: seq<Request>, sid: string)
    ensures Run(START, rs).Current(sid) == Operations(Of(rs, sid))
  {
    if rs != [] {
      var last := rs[|rs| - 1];
      CounterCounts(rs[..|rs| - 1], sid);
      var own := Of(rs[..|rs| - 1], sid);
      if last.sid == sid {
        assert (own + [last])[..|own|] == own;
      } else {
        assert Of(rs, sid) == own;
      }
    }
  }

  // ---- What the log holds ------------------------------------------------

  /** The session's operation requests since its last `clear`, oldest first. */
  function Sent(rs: seq<Request>, sid: string): seq<Request> {
    if rs == [] then []
    else
      var before, last := Sent(rs[..|rs| - 1], sid), rs[|rs| - 1];
      if last.sid != sid then before else if last.Clear? then [] else before + [last]
  }

  /** The edit as its author sent it, under its author's and session's names. */
  predicate LoggedAs(entry: HistoryEntry, r: Request) {
    r.Operate? &&
    var op := entry.operation;
    op.kind == r.op.kind && op.position == r.op.position && op.content == r.op.content && op.length == r.op.length &&
    op.userId == r.userId && op.sessionId == r.sid && op.revision == entry.revision
  }

  /** In every run a session's log holds exactly the edits sent to it since its last `clear`, in order. */
  lemma {:induction false} LogHoldsSent(rs: seq<Request>, sid: string)
    ensures var log, sent := Run(START, rs).Log(sid), Sent(rs, sid);
            |log| == |sent| && forall i :: 0 <= i < |log| ==> LoggedAs(log[i], sent[i])
  {
    if rs != [] { LogHoldsSent(rs[..|rs| - 1], sid); }
  }

  /** `getLatest`: a positive limit gives the newest so many; zero gives the whole log. */
  lemma LatestExactly(entries: seq<HistoryEntry>, limit: int)
    ensures limit > 0 ==>
              |Latest(entries, limit)| == Min(limit, |entries|) &&
              Latest(entries, limit) == entries[|entries| - |Latest(entries, limit)|..]
    ensures Latest(entries, 0) == entries
  {}

  // ---- Catching up -------------------------------------------------------

  /** In a run of consecutive revisions the filter is a cut. */
  lemma {:induction false} AfterIsSuffix(entries: seq<HistoryEntry>, first: int, from: int)
    requires forall i :: 0 <= i < |entries| ==> entries[i].revision == first + i
    ensures After(entries, from) == entries[Max(0, Min(|entries|, from - first + 1))..]
  {
    if entries != [] {
      AfterIsSuffix(entries[1..], first + 1, from);
      if first > from { assert entries == [entries[0]] + entries[1..]; }
    }
  }

  /** `getHistory(s, k)` is the log without its first entries, the ones up to revision k. */
  lemma HistoryIsSuffix(st: LogState, sid: string, k: int)
    requires Gapless(st)
    ensures After(st.Log(sid), k) == st.Log(sid)[Max(0, Min(|st.Log(sid)|, k - st.Dropped(sid)))..]
  {
    assert GaplessAt(st, sid);
    AfterIsSuffix(st.Log(sid), st.Dropped(sid) + 1, k);
  }

  function Replay(entries: seq<HistoryEntry>, doc: JsString): JsString {
    if entries == [] then doc else Replay(entries[1..], Apply(entries[0].operation, doc))
  }

  lemma ReplayFirstOf(xs: seq<HistoryEntry>, ys: seq<HistoryEntry>, doc: JsString)
    requires xs != []
    ensures Replay(xs + ys, doc) == Replay(xs[1..] + ys, Apply(xs[0].operation, doc))
  {
    assert (xs + ys)[0] == xs[0] && (xs + ys)[1..] == xs[1..] + ys;
  }

  lemma {:induction false} ReplayJoins(xs: seq<HistoryEntry>, ys: seq<HistoryEntry>, doc: JsString)
    ensures Replay(xs + ys, doc) == Replay(ys, Replay(xs, doc))
    decreases |xs|
  {
    if xs == [] {
      assert xs + ys == ys;
    } else {
      var next := Apply(xs[0].operation, doc);
      assert Replay(xs, doc) == Replay(xs[1..], next);
      assert Replay(xs + ys, doc) == Replay(xs[1..] + ys, next) by { ReplayFirstOf(xs, ys, doc); }
      ReplayJoins(xs[1..], ys, next);
    }
  }

  /** A client that holds the document as of revision k catches up with `getHistory(s, k)`. */
  lemma CatchUp(rs: seq<Request>, sid: string, k: nat, doc: JsString)
    ensures var st := Run(START, rs);
            st.Dropped(sid) <= k <= st.Current(sid) ==> CatchesUp(st, sid, k, doc)
  {
    RunGapless(START, rs);
    var st := Run(START, rs);
    if st.Dropped(sid) <= k <= st.Current(sid) { CatchUpIn(st, sid, k, doc); }
  }

  /** Replaying what the filter answers on the document as of revision k gives what the whole log gives. */
  predicate CatchesUp(st: LogState, sid: string, k: nat, doc: JsString) {
    var log, cut := st.Log(sid), k - st.Dropped(sid);
    0 <= cut <= |log| && Replay(After(log, k), Replay(log[..cut], doc)) == Replay(log, doc)
  }

  lemma ReplayCut(log: seq<HistoryEntry>, cut: nat, doc: JsString)
    requires cut <= |log|
    ensures Replay(log[cut..], Replay(log[..cut], doc)) == Replay(log, doc)
  {
    ReplayJoins(log[..cut], log[cut..], doc);
    assert log == log[..cut] + log[cut..];
  }

  lemma CatchUpIn(st: LogState, sid: string, k: nat, doc: JsString)
    requires Gapless(st) && st.Dropped(sid) <= k <= st.Current(sid)
    ensures CatchesUp(st, sid, k, doc)
  {
    assert GaplessAt(st, sid);
    HistoryIsSuffix(st, sid, k);
    ReplayCut(st.Log(sid), k - st.Dropped(sid), doc);
  }

  predicate HasRevision(entries: seq<HistoryEntry>, revision: int) {
    exists i :: 0 <= i < |entries| && entries[i].revision == revision
  }

  /** The reply brings a client from revision `k` to the counter. */
  ghost predicate Covers(reply: seq<HistoryEntry>, k: int, current: int) {
    forall revision :: k < revision <= current ==> HasRevision(reply, revision)
  }

  lemma RunHasRevisions(entries: seq<HistoryEntry>, first: int, revision: int)
    requires forall i :: 0 <= i < |entries| ==> entries[i].revision == first + i
    ensures HasRevision(entries, revision) <==> first <= revision < first + |entries|
  {
    if first <= revision < first + |entries| { assert entries[revision - first].revision == revision; }
  }

  lemma RunCovers(entries: seq<HistoryEntry>, first: int, k: int)
    requires forall i :: 0 <= i < |entries| ==> entries[i].revision == first + i
    ensures Covers(entries, k, first + |entries| - 1) <==> first + |entries| - 1 - k <= |entries|
  {
    forall revision ensures HasRevision(entries, revision) <==> first <= revision < first + |entries| {
      RunHasRevisions(entries, first, revision);
    }
    if k < first - 1 { assert !HasRevision(entries, first - 1) && k < first - 1 <= first + |entries| - 1; }
  }

  /**
   * The full-sync reply holds every revision a client at `k` misses exactly when it is no further behind
   * than the fifty entries the reply can hold, or the ones the log still has after the last `clear`.
   */
  lemma FullSyncReaches(st: LogState, sid: string, k: int)
    requires Gapless(st)
    ensures Covers(Latest(st.Log(sid), SYNC_LIMIT), k, st.Current(sid))
       <==> st.Current(sid) - k <= Min(SYNC_LIMIT, |st.Log(sid)|)
  {
    assert GaplessAt(st, sid);
    var log := st.Log(sid);
    var start := Max(0, |log| - SYNC_LIMIT);
    RunCovers(log[start..], st.Dropped(sid) + 1 + start, k);
  }

  /** It holds whatever `getHistory` would, for any revision, exactly when that is at most fifty entries. */
  lemma FullSyncAgrees(st: LogState, sid: string, k: int)
    requires Gapless(st)
    ensures After(Latest(st.Log(sid), SYNC_LIMIT), k) == After(st.Log(sid), k)
       <==> Min(|st.Log(sid)|, st.Current(sid) - k) <= SYNC_LIMIT
  {
    assert GaplessAt(st, sid);
    TailAgrees(st.Log(sid), st.Dropped(sid) + 1, k);
  }

  lemma TailAgrees(log: seq<HistoryEntry>, first: int, k: int)
    requires forall i :: 0 <= i < |log| ==> log[i].revision == first + i
    ensures After(Latest(log, SYNC_LIMIT), k) == After(log, k)
       <==> Min(|log|, first + |log| - 1 - k) <= SYNC_LIMIT
  {
    var start := Max(0, |log| - SYNC_LIMIT);
    var cut := Max(0, Min(|log|, k - first + 1));
    assert After(log, k) == log[cut..] by { AfterIsSuffix(log, first, k); }
    assert After(log[start..], k) == log[start..][Max(0, cut - start)..] by {
      AfterIsSuffix(log[start..], first + start, k);
    }
    TailsEqualExactly(log, start, cut);
  }

  /** Cutting the tail of a list again. */
  lemma TailsEqualExactly<T>(xs: seq<T>, start: nat, cut: nat)
    requires start <= |xs| && cut <= |xs|
    ensures xs[start..][Max(0, cut - start)..] == xs[cut..] <==> start <= cut
  {
    assert |xs[start..][Max(0, cut - start)..]| == |xs| - Max(start, cut);
  }
}
