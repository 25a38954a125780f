/** Operational transform and conflict resolution (src/collaboration/ot-crdt.service.ts). */
module OtCrdt {
  import opened Prelude

  datatype OperationType = Insert | Delete | Retain

  datatype Operation = Operation(
    kind: OperationType,
    position: int,
    content: Option<JsString>,
    length: Option<int>,
    userId: JsString,
    sessionId: string,
    revision: int
  ) {
    /** `content ?? ''` */
    function Text(): JsString { content.GetOr([]) }

    /** `length ?? 0` */
    function Len(): int { length.GetOr(0) }
  }

  datatype TransformResult = TransformResult(operation: Operation, transformed: bool)

  function Transform(op: Operation, against: Operation): TransformResult {
    if op.sessionId != against.sessionId then
      TransformResult(op, false)
    else
      var transformed :=
        match (op.kind, against.kind)
        case (Insert, Insert) =>
          if against.position <= op.position
          then op.(position := op.position + |against.Text()|) else op
        case (Insert, Delete) =>
          if against.position < op.position
          then op.(position := Max(against.position, op.position - against.Len())) else op
        case (Delete, Insert) =>
          if against.position <= op.position
          then op.(position := op.position + |against.Text()|) else op
        case (Delete, Delete) =>
          if against.position < op.position
          then op.(position := Max(against.position, op.position - against.Len()))
          else if against.position == op.position then op.(length := Some(0))
          else op
        case _ => op;
      TransformResult(transformed, true)
  }

  /** `op` rebased over `against`. */
  function Rebased(op: Operation, against: Operation): Operation { Transform(op, against).operation }

  /**
   * Only position and length ever change. Another session's operation leaves everything alone, and the
   * flag says exactly whether the sessions agree.
   */
  lemma TransformKeeps(op: Operation, against: Operation)
    ensures var r := Transform(op, against);
            r.operation == op.(position := r.operation.position, length := r.operation.length) &&
            (r.transformed <==> op.sessionId == against.sessionId) && (!r.transformed ==> r.operation == op) &&
            (op.kind != Delete ==> r.operation.length == op.length)
  {}

  // ---- What an operation does to a document ------------------------------

  /** `doc.slice(0, n)` and `doc.slice(n)`, which stop at the document's ends. */
  function Before<T>(doc: seq<T>, n: int): seq<T> { doc[..Max(0, Min(n, |doc|))] }

  function From<T>(doc: seq<T>, n: int): seq<T> { doc[Max(0, Min(n, |doc|))..] }

  function InsertAt<T>(doc: seq<T>, p: int, s: seq<T>): seq<T> { Before(doc, p) + s + From(doc, p) }

  function DeleteAt<T>(doc: seq<T>, p: int, n: int): seq<T> { Before(doc, p) + From(doc, p + n) }

  function Apply(op: Operation, doc: JsString): JsString {
    match op.kind
    case Insert => InsertAt(doc, op.position, op.Text())
    case Delete => DeleteAt(doc, op.position, op.Len())
    case Retain => doc
  }

  lemma Assoc<T>(a: seq<T>, b: seq<T>, c: seq<T>)
    ensures a + b + c == a + (b + c)
  {}

  /** Inserting and deleting where a document was cut. */
  lemma InsertPieces<T>(doc: seq<T>, u: seq<T>, s: seq<T>, w: seq<T>)
    requires doc == u + w
    ensures InsertAt(doc, |u|, s) == u + s + w
  {}

  lemma DeletePieces<T>(doc: seq<T>, u: seq<T>, v: seq<T>, w: seq<T>)
    requires doc == u + v + w
    ensures DeleteAt(doc, |u|, |v|) == u + w
  {}

  predicate WellFormed(op: Operation) {
    0 <= op.position && (op.kind == Delete ==> 0 <= op.Len())
  }

  predicate InBounds(op: Operation, doc: JsString) {
    WellFormed(op) &&
    match op.kind
    case Insert => op.position <= |doc|
    case Delete => op.position + op.Len() <= |doc|
    case Retain => true
  }

  // ---- Convergence -------------------------------------------------------

  /** Both orders of two concurrent operations, each second one rebased, end in one document. */
  predicate Converges(a: Operation, b: Operation, doc: JsString) {
    Apply(Rebased(b, a), Apply(a, doc)) == Apply(Rebased(a, b), Apply(b, doc))
  }

  ghost predicate ConvergesEverywhere(a: Operation, b: Operation) {
    forall doc: JsString :: InBounds(a, doc) && InBounds(b, doc) ==> Converges(a, b, doc)
  }

  /** The insert's gap lies strictly between two characters the delete removes. */
  predicate StrictlyInside(ins: Operation, del: Operation) {
    del.position < ins.position < del.position + del.Len()
  }

  /** Decided by the two operations alone: their documents always meet exactly when this holds. */
  predicate Compatible(a: Operation, b: Operation) {
    match (a.kind, b.kind)
    case (Insert, Insert) => a.position != b.position || a.Text() + b.Text() == b.Text() + a.Text()
    case (Insert, Delete) => a.Text() == [] || !StrictlyInside(a, b)
    case (Delete, Insert) => b.Text() == [] || !StrictlyInside(b, a)
    case (Delete, Delete) => a.position != b.position || a.Len() == b.Len()
    case _ => true
  }

  // The outcomes of each kind of pair, on a document cut at the positions the two operations name.

  lemma TwoInserts<T>(u: seq<T>, m: seq<T>, w: seq<T>, s: seq<T>, t: seq<T>)
    ensures InsertAt(InsertAt(u + m + w, |u|, s), |u + s + m|, t) == u + s + m + t + w
    ensures InsertAt(InsertAt(u + m + w, |u + m|, t), |u|, s) == u + s + m + t + w
  {
    Assoc(u, m, w);
    InsertPieces(u + m + w, u, s, m + w);
    Assoc(u + s, m, w);
    InsertPieces(u + s + m + w, u + s + m, t, w);
    InsertPieces(u + m + w, u + m, t, w);
    Assoc(u + m, t, w); Assoc(u, m, t + w);
    InsertPieces(u + m + t + w, u, s, m + (t + w));
    Assoc(u + s, m, t + w); Assoc(u + s + m, t, w);
  }

  lemma InsertThenDeleteAfter<T>(u: seq<T>, m: seq<T>, v: seq<T>, w: seq<T>, s: seq<T>)
    ensures DeleteAt(InsertAt(u + m + v + w, |u|, s), |u + s + m|, |v|) == u + s + m + w
    ensures InsertAt(DeleteAt(u + m + v + w, |u + m|, |v|), |u|, s) == u + s + m + w
  {
    Assoc(u + m, v, w); Assoc(u, m, v + w);
    InsertPieces(u + m + v + w, u, s, m + (v + w));
    Assoc(u + s, m, v + w); Assoc(u + s + m, v, w);
    DeletePieces(u + s + m + v + w, u + s + m, v, w);
    DeletePieces(u + m + v + w, u + m, v, w);
    Assoc(u, m, w);
    InsertPieces(u + m + w, u, s, m + w);
    Assoc(u + s, m, w);
  }

  lemma DeleteThenInsertAfter<T>(u: seq<T>, v: seq<T>, m: seq<T>, w: seq<T>, s: seq<T>)
    ensures DeleteAt(InsertAt(u + v + m + w, |u + v + m|, s), |u|, |v|) == u + m + s + w
    ensures InsertAt(DeleteAt(u + v + m + w, |u|, |v|), |u + m|, s) == u + m + s + w
  {
    InsertPieces(u + v + m + w, u + v + m, s, w);
    Assoc(u + v + m, s, w); Assoc(u + v, m, s + w);
    DeletePieces(u + v + m + s + w, u, v, m + (s + w));
    Assoc(u, m, s + w); Assoc(u + m, s, w);
    Assoc(u + v, m, w);
    DeletePieces(u + v + m + w, u, v, m + w);
    Assoc(u, m, w);
    InsertPieces(u + m + w, u + m, s, w);
  }

  lemma TwoDeletesApart<T>(u: seq<T>, v: seq<T>, m: seq<T>, x: seq<T>, w: seq<T>)
    ensures DeleteAt(DeleteAt(u + v + m + x + w, |u|, |v|), |u + m|, |x|) == u + m + w
    ensures DeleteAt(DeleteAt(u + v + m + x + w, |u + v + m|, |x|), |u|, |v|) == u + m + w
  {
    Assoc(u + v + m, x, w); Assoc(u + v, m, x + w);
    DeletePieces(u + v + m + x + w, u, v, m + (x + w));
    Assoc(u, m, x + w); Assoc(u + m, x, w);
    DeletePieces(u + m + x + w, u + m, x, w);
    DeletePieces(u + v + m + x + w, u + v + m, x, w);
    Assoc(u + v, m, w);
    DeletePieces(u + v + m + w, u, v, m + w);
    Assoc(u, m, w);
  }

  /** Overlapping deletes with different starts: both orders remove the sum of the lengths from the first start. */
  lemma TwoDeletesOverlapping(doc: JsString, p: nat, l: nat, q: nat, k: nat)
    requires p < q < p + l <= |doc| && q + k <= |doc|
    ensures DeleteAt(DeleteAt(doc, p, l), p, k) == doc[..p] + From(doc, p + l + k)
    ensures DeleteAt(DeleteAt(doc, q, k), p, l) == doc[..p] + From(doc, p + l + k)
  {
    assert DeleteAt(doc, p, l) == doc[..p] + doc[p + l..];
    assert From(doc[..p] + doc[p + l..], p + k) == From(doc, p + l + k);
    assert DeleteAt(doc, q, k) == doc[..q] + doc[q + k..];
    assert From(doc[..q] + doc[q + k..], p + l) == From(doc, p + l + k);
  }

  lemma InsertsCommute<T>(doc: seq<T>, p: nat, q: nat, s: seq<T>, t: seq<T>)
    requires p <= q <= |doc|
    ensures InsertAt(InsertAt(doc, p, s), q + |s|, t) == doc[..p] + s + doc[p..q] + t + doc[q..]
    ensures InsertAt(InsertAt(doc, q, t), p, s) == doc[..p] + s + doc[p..q] + t + doc[q..]
  {
    assert doc == doc[..p] + doc[p..q] + doc[q..];
    TwoInserts(doc[..p], doc[p..q], doc[q..], s, t);
  }

  lemma InsertsAtOneGap<T>(doc: seq<T>, p: nat, s: seq<T>, t: seq<T>)
    requires p <= |doc|
    ensures InsertAt(InsertAt(doc, p, s), p + |s|, t) == InsertAt(doc, p, s + t)
  {
    assert doc == doc[..p] + doc[p..];
    InsertPieces(doc, doc[..p], s, doc[p..]);
    InsertPieces(doc[..p] + s + doc[p..], doc[..p] + s, t, doc[p..]);
    InsertPieces(doc, doc[..p], s + t, doc[p..]);
    Assoc(doc[..p], s, t);
  }

  lemma InsertBeforeDelete<T>(doc: seq<T>, p: nat, q: nat, k: nat, s: seq<T>)
    requires p <= q && q + k <= |doc|
    ensures DeleteAt(InsertAt(doc, p, s), q + |s|, k) == doc[..p] + s + doc[p..q] + doc[q + k..]
    ensures InsertAt(DeleteAt(doc, q, k), p, s) == doc[..p] + s + doc[p..q] + doc[q + k..]
  {
    assert doc == doc[..p] + doc[p..q] + doc[q..q + k] + doc[q + k..];
    InsertThenDeleteAfter(doc[..p], doc[p..q], doc[q..q + k], doc[q + k..], s);
  }

  lemma InsertAfterDelete<T>(doc: seq<T>, q: nat, k: nat, p: nat, s: seq<T>)
    requires q + k <= p <= |doc|
    ensures DeleteAt(InsertAt(doc, p, s), q, k) == doc[..q] + doc[q + k..p] + s + doc[p..]
    ensures InsertAt(DeleteAt(doc, q, k), p - k, s) == doc[..q] + doc[q + k..p] + s + doc[p..]
  {
    assert doc == doc[..q] + doc[q..q + k] + doc[q + k..p] + doc[p..];
    DeleteThenInsertAfter(doc[..q], doc[q..q + k], doc[q + k..p], doc[p..], s);
  }

  lemma InsertNothing<T>(doc: seq<T>, p: int)
    ensures InsertAt(doc, p, []) == doc
  {}

  lemma InsertsConverge(a: Operation, b: Operation, doc: JsString)
    requires a.sessionId == b.sessionId && a.kind == Insert && b.kind == Insert
    requires InBounds(a, doc) && InBounds(b, doc) && Compatible(a, b)
    requires a.position <= b.position
    ensures Converges(a, b, doc)
  {
    if a.position == b.position {
      InsertsAtOneGap(doc, a.position, a.Text(), b.Text());
      InsertsAtOneGap(doc, a.position, b.Text(), a.Text());
    } else {
      InsertsCommute(doc, a.position, b.position, a.Text(), b.Text());
    }
  }

  lemma InsertLeftOfDeleteConverges(a: Operation, b: Operation, doc: JsString)
    requires a.sessionId == b.sessionId && a.kind == Insert && b.kind == Delete
    requires InBounds(a, doc) && InBounds(b, doc) && a.position <= b.position
    ensures Converges(a, b, doc)
  {
    assert Rebased(b, a) == b.(position := b.position + |a.Text()|) && Rebased(a, b) == a;
    InsertBeforeDelete(doc, a.position, b.position, b.Len(), a.Text());
  }

  lemma InsertRightOfDeleteConverges(a: Operation, b: Operation, doc: JsString)
    requires a.sessionId == b.sessionId && a.kind == Insert && b.kind == Delete
    requires InBounds(a, doc) && InBounds(b, doc) && b.position + b.Len() <= a.position
    ensures Converges(a, b, doc)
  {
    if b.position < a.position {
      assert Rebased(b, a) == b && Rebased(a, b) == a.(position := a.position - b.Len());
      InsertAfterDelete(doc, b.position, b.Len(), a.position, a.Text());
    } else {
      InsertLeftOfDeleteConverges(a, b, doc);
    }
  }

  lemma EmptyInsertInDeleteConverges(a: Operation, b: Operation, doc: JsString)
    requires a.sessionId == b.sessionId && a.kind == Insert && b.kind == Delete
    requires InBounds(a, doc) && InBounds(b, doc) && a.Text() == [] && StrictlyInside(a, b)
    ensures Converges(a, b, doc)
  {
    assert Rebased(b, a) == b && Rebased(a, b) == a.(position := b.position);
    InsertNothing(doc, a.position);
    InsertNothing(Apply(b, doc), b.position);
  }

  lemma InsertDeleteConverge(a: Operation, b: Operation, doc: JsString)
    requires a.sessionId == b.sessionId && a.kind == Insert && b.kind == Delete
    requires InBounds(a, doc) && InBounds(b, doc) && Compatible(a, b)
    ensures Converges(a, b, doc)
  {
    if a.position <= b.position {
      InsertLeftOfDeleteConverges(a, b, doc);
    } else if b.position + b.Len() <= a.position {
      InsertRightOfDeleteConverges(a, b, doc);
    } else {
      EmptyInsertInDeleteConverges(a, b, doc);
    }
  }

  lemma DeletesCommute<T>(doc: seq<T>, p: nat, l: nat, q: nat, k: nat)
    requires p + l <= q && q + k <= |doc|
    ensures DeleteAt(DeleteAt(doc, p, l), Max(p, q - l), k) == doc[..p] + doc[p + l..q] + doc[q + k..]
    ensures DeleteAt(DeleteAt(doc, q, k), p, l) == doc[..p] + doc[p + l..q] + doc[q + k..]
  {
    assert doc == doc[..p] + doc[p..p + l] + doc[p + l..q] + doc[q..q + k] + doc[q + k..];
    TwoDeletesApart(doc[..p], doc[p..p + l], doc[p + l..q], doc[q..q + k], doc[q + k..]);
  }

  lemma SecondDeleteRebased(a: Operation, b: Operation, doc: JsString)
    requires a.sessionId == b.sessionId && a.kind == Delete && b.kind == Delete
    requires a.position < b.position
    ensures Apply(Rebased(b, a), Apply(a, doc))
            == DeleteAt(DeleteAt(doc, a.position, a.Len()), Max(a.position, b.position - a.Len()), b.Len())
  {}

  lemma FirstDeleteRebased(a: Operation, b: Operation, doc: JsString)
    requires a.sessionId == b.sessionId && a.kind == Delete && b.kind == Delete
    requires a.position < b.position
    ensures Apply(Rebased(a, b), Apply(b, doc)) == DeleteAt(DeleteAt(doc, b.position, b.Len()), a.position, a.Len())
  {}

  lemma DeletesApartConverge(a: Operation, b: Operation, doc: JsString)
    requires a.sessionId == b.sessionId && a.kind == Delete && b.kind == Delete
    requires InBounds(a, doc) && InBounds(b, doc) && a.position < b.position
    ensures Converges(a, b, doc)
  {
    var p, q, l, k := a.position, b.position, a.Len(), b.Len();
    SecondDeleteRebased(a, b, doc);
    FirstDeleteRebased(a, b, doc);
    if p + l <= q { DeletesCommute(doc, p, l, q, k); } else { TwoDeletesOverlapping(doc, p, l, q, k); }
  }

  lemma DeletesConverge(a: Operation, b: Operation, doc: JsString)
    requires a.sessionId == b.sessionId && a.kind == Delete && b.kind == Delete
    requires InBounds(a, doc) && InBounds(b, doc) && Compatible(a, b)
    requires a.position <= b.position
    ensures Converges(a, b, doc)
  {
    if a.position < b.position { DeletesApartConverge(a, b, doc); }
  }

  lemma CompatibleConverges(a: Operation, b: Operation, doc: JsString)
    requires a.sessionId == b.sessionId
    requires InBounds(a, doc) && InBounds(b, doc) && Compatible(a, b)
    ensures Converges(a, b, doc)
  {
    match (a.kind, b.kind)
    case (Insert, Insert) =>
      if a.position <= b.position { InsertsConverge(a, b, doc); } else { InsertsConverge(b, a, doc); }
    case (Insert, Delete) => InsertDeleteConverge(a, b, doc);
    case (Delete, Insert) => InsertDeleteConverge(b, a, doc);
    case (Delete, Delete) =>
      if a.position <= b.position { DeletesConverge(a, b, doc); } else { DeletesConverge(b, a, doc); }
    case _ =>
  }

  // ---- The exclusions are necessary --------------------------------------

  /** A document of `n` equal code units. */
  function Fill(c: int, n: nat): (doc: JsString)
    ensures |doc| == n && forall i :: 0 <= i < n ==> doc[i] == c
  {
    seq(n, _ => c)
  }

  lemma SamePositionInsertsDiverge(a: Operation, b: Operation) returns (doc: JsString)
    requires a.sessionId == b.sessionId && a.kind == Insert && b.kind == Insert
    requires WellFormed(a) && WellFormed(b) && !Compatible(a, b)
    ensures InBounds(a, doc) && InBounds(b, doc) && !Converges(a, b, doc)
  {
    doc := Fill(0, a.position);
    var s, t := a.Text(), b.Text();
    InsertsAtOneGap(doc, |doc|, s, t);
    InsertsAtOneGap(doc, |doc|, t, s);
    assert InsertAt(doc, |doc|, s + t)[|doc|..] == s + t;
    assert InsertAt(doc, |doc|, t + s)[|doc|..] == t + s;
  }

  lemma SameStartDeletesDiverge(a: Operation, b: Operation) returns (doc: JsString)
    requires a.sessionId == b.sessionId && a.kind == Delete && b.kind == Delete
    requires WellFormed(a) && WellFormed(b) && !Compatible(a, b)
    ensures InBounds(a, doc) && InBounds(b, doc) && !Converges(a, b, doc)
  {
    doc := Fill(0, a.position + Max(a.Len(), b.Len()));
    assert |DeleteAt(DeleteAt(doc, a.position, a.Len()), a.position, 0)| == |doc| - a.Len();
    assert |DeleteAt(DeleteAt(doc, a.position, b.Len()), a.position, 0)| == |doc| - b.Len();
  }

  /** An insert inside a delete: one order keeps the inserted text, the other the deleted range's end. */
  lemma InsertInside<T>(doc: seq<T>, p: nat, q: nat, e: nat, s: seq<T>)
    requires q < p < e && e + |s| <= |doc| && s != [] && s[|s| - 1] != doc[e - 1]
    ensures InsertAt(DeleteAt(doc, q, e - q), q, s) != DeleteAt(InsertAt(doc, p, s), q, e - q)
  {
    assert InsertAt(DeleteAt(doc, q, e - q), q, s)[q + |s| - 1] == s[|s| - 1];
    var mixed := doc[..p] + s + doc[p..];
    assert InsertAt(doc, p, s) == mixed;
    assert DeleteAt(mixed, q, e - q)[q + |s| - 1] == mixed[e + |s| - 1] == doc[e - 1];
  }

  lemma InsideDeleteDiverges(a: Operation, b: Operation) returns (doc: JsString)
    requires a.sessionId == b.sessionId && a.kind == Insert && b.kind == Delete
    requires WellFormed(a) && WellFormed(b) && a.Text() != [] && StrictlyInside(a, b)
    ensures InBounds(a, doc) && InBounds(b, doc) && !Converges(a, b, doc)
  {
    var s, p, q, e := a.Text(), a.position, b.position, b.position + b.Len();
    doc := Fill(if s[|s| - 1] == 0 then 1 else 0, e + |s|);
    assert InsertAt(DeleteAt(doc, q, e - q), q, s) != DeleteAt(InsertAt(doc, p, s), q, e - q) by {
      InsertInside(doc, p, q, e, s);
    }
    assert Apply(Rebased(b, a), Apply(a, doc)) == DeleteAt(InsertAt(doc, p, s), q, e - q);
    assert Apply(Rebased(a, b), Apply(b, doc)) == InsertAt(DeleteAt(doc, q, e - q), q, s);
  }

  lemma IncompatibleDiverges(a: Operation, b: Operation) returns (doc: JsString)
    requires a.sessionId == b.sessionId && WellFormed(a) && WellFormed(b) && !Compatible(a, b)
    ensures InBounds(a, doc) && InBounds(b, doc) && !Converges(a, b, doc)
  {
    match (a.kind, b.kind)
    case (Insert, Insert) => doc := SamePositionInsertsDiverge(a, b);
    case (Insert, Delete) => doc := InsideDeleteDiverges(a, b);
    case (Delete, Insert) => doc := InsideDeleteDiverges(b, a);
    case (Delete, Delete) => doc := SameStartDeletesDiverge(a, b);
  }

  /** The documented promise, with its exact scope. */
  lemma ConvergenceExactly(a: Operation, b: Operation)
    requires a.sessionId == b.sessionId && WellFormed(a) && WellFormed(b)
    ensures ConvergesEverywhere(a, b) <==> Compatible(a, b)
  {
    if Compatible(a, b) {
      forall doc: JsString | InBounds(a, doc) && InBounds(b, doc) ensures Converges(a, b, doc) {
        CompatibleConverges(a, b, doc);
      }
    } else {
      var doc := IncompatibleDiverges(a, b);
    }
  }

  // ---- Bounds ------------------------------------------------------------

  /** Two deletes with different starts that share a character. */
  predicate OverlapApart(a: Operation, b: Operation) {
    a.kind == Delete && b.kind == Delete &&
    ((a.position < b.position < a.position + a.Len() && 0 < b.Len()) ||
     (b.position < a.position < b.position + b.Len() && 0 < a.Len()))
  }

  predicate StaysInBounds(a: Operation, b: Operation, doc: JsString) {
    InBounds(Rebased(b, a), Apply(a, doc)) && InBounds(Rebased(a, b), Apply(b, doc))
  }

  lemma ApplyLength(op: Operation, doc: JsString)
    requires InBounds(op, doc)
    ensures |Apply(op, doc)| ==
            match op.kind
            case Insert => |doc| + |op.Text()|
            case Delete => |doc| - op.Len()
            case Retain => |doc|
  {}

  /** Rebasing keeps operations inside the changed document exactly when the pair is not an overlap. */
  lemma BoundsExactly(a: Operation, b: Operation)
    requires a.sessionId == b.sessionId && WellFormed(a) && WellFormed(b)
    ensures (forall doc: JsString :: InBounds(a, doc) && InBounds(b, doc) ==> StaysInBounds(a, b, doc))
       <==> !OverlapApart(a, b)
  {
    if OverlapApart(a, b) {
      var doc := OverlapLeavesBounds(a, b);
    } else {
      forall doc: JsString | InBounds(a, doc) && InBounds(b, doc) ensures StaysInBounds(a, b, doc) {
        OthersStayInBounds(a, b, doc);
      }
    }
  }

  lemma OverlapLeavesBounds(a: Operation, b: Operation) returns (doc: JsString)
    requires a.sessionId == b.sessionId && WellFormed(a) && WellFormed(b) && OverlapApart(a, b)
    ensures InBounds(a, doc) && InBounds(b, doc) && !StaysInBounds(a, b, doc)
  {
    doc := Fill(0, Max(a.position + a.Len(), b.position + b.Len()));
    ApplyLength(a, doc);
    ApplyLength(b, doc);
  }

  lemma OthersStayInBounds(a: Operation, b: Operation, doc: JsString)
    requires a.sessionId == b.sessionId && InBounds(a, doc) && InBounds(b, doc) && !OverlapApart(a, b)
    ensures StaysInBounds(a, b, doc)
  {
    ApplyLength(a, doc);
    ApplyLength(b, doc);
  }
}
