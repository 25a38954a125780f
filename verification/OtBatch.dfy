/** Rebasing one operation over a run of concurrent ones, as the gateway's loop does. */
module OtBatch {
  import opened Prelude
  import opened OtCrdt

  /** `op` carried across `others`, one transform after another. */
  function RebasedOver(op: Operation, others: seq<Operation>): Operation
    decreases others
  {
    if others == [] then op else RebasedOver(Rebased(op, others[0]), others[1..])
  }

  /** The other side of the same square: `others` carried across `op`. */
  function OthersRebased(others: seq<Operation>, op: Operation): seq<Operation> {
    if others == [] then []
    else [Rebased(others[0], op)] + OthersRebased(others[1..], Rebased(op, others[0]))
  }

  function ApplyAll(ops: seq<Operation>, doc: JsString): JsString {
    if ops == [] then doc else ApplyAll(ops[1..], Apply(ops[0], doc))
  }

  /** Every step of the walk meets a pair of one session that is in bounds and compatible. */
  predicate CompatibleAlong(op: Operation, others: seq<Operation>, doc: JsString)
    decreases others
  {
    others == [] ||
    (op.sessionId == others[0].sessionId && InBounds(op, doc) && InBounds(others[0], doc) &&
     Compatible(op, others[0]) &&
     CompatibleAlong(Rebased(op, others[0]), others[1..], Apply(others[0], doc)))
  }

  /** A whole run commutes with the operation: both sides of the ladder end in one document. */
  lemma {:induction false} BatchConverges(op: Operation, others: seq<Operation>, doc: JsString)
    requires CompatibleAlong(op, others, doc)
    ensures ApplyAll(OthersRebased(others, op), Apply(op, doc)) ==
            Apply(RebasedOver(op, others), ApplyAll(others, doc))
    decreases |others|
  {
    if others != [] {
      var b, rest := others[0], others[1..];
      CompatibleConverges(op, b, doc);
      BatchConverges(Rebased(op, b), rest, Apply(b, doc));
      var moved := OthersRebased(others, op);
      assert moved[1..] == OthersRebased(rest, Rebased(op, b));
      assert ApplyAll(moved, Apply(op, doc)) == ApplyAll(moved[1..], Apply(Rebased(b, op), Apply(op, doc)));
    }
  }

  // ---- A condition on the operations as sent -----------------------------

  predicate Fits(b: Operation, n: int) {
    WellFormed(b) && (b.kind == Insert ==> b.position <= n) && (b.kind == Delete ==> b.position + b.Len() <= n)
  }

  /** How much longer the document gets. */
  function Growth(b: Operation): int {
    match b.kind
    case Insert => |b.Text()|
    case Delete => -b.Len()
    case Retain => 0
  }

  /** `b` edits text that lies before `op`'s. */
  predicate OnLeft(op: Operation, b: Operation) {
    match b.kind
    case Insert => b.position < op.position || (b.position == op.position && op.kind == Delete)
    case Delete => b.position < op.position && b.position + b.Len() <= op.position
    case Retain => false
  }

  /** `b` edits text that lies after `op`'s. */
  predicate OnRight(op: Operation, b: Operation) {
    (op.kind == Delete ==> op.position + op.Len() <= b.position) &&
    (op.position < b.position || (op.position == b.position && op.kind == Insert && b.kind == Delete))
  }

  predicate ApartFrom(op: Operation, b: Operation) {
    op.kind == Retain || b.kind == Retain || OnLeft(op, b) || OnRight(op, b)
  }

  /** Where `op`'s text stands once `b` has been applied. */
  function Moved(op: Operation, b: Operation): Operation {
    if op.kind != Retain && OnLeft(op, b) then op.(position := op.position + Growth(b)) else op
  }

  /**
   * Each of the others, as sent, fits the document it was made on, whose length so far is `n`, and edits
   * text before or after `op`'s.
   */
  predicate ApartAlong(op: Operation, others: seq<Operation>, n: int)
    decreases others
  {
    others == [] ||
    (op.sessionId == others[0].sessionId && Fits(others[0], n) && ApartFrom(op, others[0]) &&
     ApartAlong(Moved(op, others[0]), others[1..], n + Growth(others[0])))
  }

  lemma ApartStep(op: Operation, b: Operation)
    requires op.sessionId == b.sessionId && WellFormed(op) && WellFormed(b) && ApartFrom(op, b)
    ensures Compatible(op, b) && Rebased(op, b) == Moved(op, b)
  {}

  lemma MovedFits(op: Operation, b: Operation, doc: JsString)
    requires InBounds(op, doc) && InBounds(b, doc) && ApartFrom(op, b)
    ensures |Apply(b, doc)| == |doc| + Growth(b) && InBounds(Moved(op, b), Apply(b, doc))
  {
    ApplyLength(b, doc);
  }

  lemma {:induction false} ApartIsCompatible(op: Operation, others: seq<Operation>, doc: JsString)
    requires InBounds(op, doc) && ApartAlong(op, others, |doc|)
    ensures CompatibleAlong(op, others, doc)
    decreases |others|
  {
    if others != [] {
      ApartStep(op, others[0]);
      MovedFits(op, others[0], doc);
      ApartIsCompatible(Moved(op, others[0]), others[1..], Apply(others[0], doc));
    }
  }

  /** So an operation commutes with any run of edits to the text before and after its own. */
  lemma ApartBatchConverges(op: Operation, others: seq<Operation>, doc: JsString)
    requires InBounds(op, doc) && ApartAlong(op, others, |doc|)
    ensures ApplyAll(OthersRebased(others, op), Apply(op, doc)) ==
            Apply(RebasedOver(op, others), ApplyAll(others, doc))
  {
    ApartIsCompatible(op, others, doc);
    BatchConverges(op, others, doc);
  }
}
