/** Which pairs of concurrent edits the transform merges as both users meant them. */
module OtIntent {
  import opened Prelude
  import opened OtCrdt

  predicate Keeps(op: Operation, i: int) {
    !(op.kind == Delete && op.position <= i < op.position + op.Len())
  }

  function InGap(op: Operation, i: int): JsString {
    if op.kind == Insert && op.position == i then op.Text() else []
  }

  /**
   * What the two users meant together, read off the original document from index `i` on: every
   * character neither of them deleted, in order, and each inserted text in the gap it was aimed at.
   */
  function Merge(a: Operation, b: Operation, doc: JsString, i: nat): JsString
    requires i <= |doc|
    decreases |doc| - i, 1
  {
    InGap(a, i) + InGap(b, i) + MergeOn(a, b, doc, i)
  }

  /** The part of `Merge` after the gap at `i`. */
  function MergeOn(a: Operation, b: Operation, doc: JsString, i: nat): JsString
    requires i <= |doc|
    decreases |doc| - i, 0
  {
    if i == |doc| then []
    else (if Keeps(a, i) && Keeps(b, i) then [doc[i]] else []) + Merge(a, b, doc, i + 1)
  }

  predicate PreservesIntent(a: Operation, b: Operation, doc: JsString) {
    Apply(Rebased(b, a), Apply(a, doc)) == Merge(a, b, doc, 0) == Apply(Rebased(a, b), Apply(b, doc))
  }

  predicate NoGap(a: Operation, b: Operation, i: int) { InGap(a, i) == [] && InGap(b, i) == [] }

  lemma MergePast(a: Operation, b: Operation, doc: JsString, i: nat)
    requires i <= |doc| && NoGap(a, b, i)
    ensures Merge(a, b, doc, i) == MergeOn(a, b, doc, i)
  {}

  lemma MergeKeep(a: Operation, b: Operation, doc: JsString, i: nat)
    requires i < |doc| && Keeps(a, i) && Keeps(b, i)
    ensures MergeOn(a, b, doc, i) == [doc[i]] + Merge(a, b, doc, i + 1)
  {}

  lemma TakeFirst<T>(doc: seq<T>, i: nat, j: nat, rest: seq<T>)
    requires i < j <= |doc|
    ensures doc[i..j] + rest == [doc[i]] + (doc[i + 1..j] + rest)
  {
    assert doc[i..j] == [doc[i]] + doc[i + 1..j];
  }

  lemma {:induction false} MergeQuiet(a: Operation, b: Operation, doc: JsString, i: nat, j: nat)
    requires i < j <= |doc|
    requires forall x :: i <= x < j ==> Keeps(a, x) && Keeps(b, x)
    requires forall x :: i < x < j ==> NoGap(a, b, x)
    ensures MergeOn(a, b, doc, i) == doc[i..j] + Merge(a, b, doc, j)
    decreases j - i
  {
    MergeKeep(a, b, doc, i);
    if i + 1 < j {
      MergeQuiet(a, b, doc, i + 1, j);
      MergePast(a, b, doc, i + 1);
      TakeFirst(doc, i, j, Merge(a, b, doc, j));
    }
  }

  lemma {:induction false} MergeGone(a: Operation, b: Operation, doc: JsString, i: nat, j: nat)
    requires i < j <= |doc|
    requires forall x :: i <= x < j ==> !(Keeps(a, x) && Keeps(b, x))
    requires forall x :: i < x < j ==> NoGap(a, b, x)
    ensures MergeOn(a, b, doc, i) == Merge(a, b, doc, j)
    decreases j - i
  {
    if i + 1 < j {
      MergeGone(a, b, doc, i + 1, j);
      assert NoGap(a, b, i + 1);
    }
  }

  /** Characters `i..j` are kept and there is no gap strictly after `i`, up to and including `j`. */
  lemma MergeCopies(a: Operation, b: Operation, doc: JsString, i: nat, j: nat)
    requires i <= j <= |doc|
    requires forall x :: i <= x < j ==> Keeps(a, x) && Keeps(b, x)
    requires forall x :: i < x <= j ==> NoGap(a, b, x)
    ensures MergeOn(a, b, doc, i) == doc[i..j] + MergeOn(a, b, doc, j)
  {
    if i < j {
      MergeQuiet(a, b, doc, i, j);
      assert NoGap(a, b, j);
    }
  }

  lemma MergeSkips(a: Operation, b: Operation, doc: JsString, i: nat, j: nat)
    requires i <= j <= |doc|
    requires forall x :: i <= x < j ==> !(Keeps(a, x) && Keeps(b, x))
    requires forall x :: i < x <= j ==> NoGap(a, b, x)
    ensures MergeOn(a, b, doc, i) == MergeOn(a, b, doc, j)
  {
    if i < j {
      MergeGone(a, b, doc, i, j);
      assert NoGap(a, b, j);
    }
  }

  /** Up to the first gap. */
  lemma MergeStarts(a: Operation, b: Operation, doc: JsString, j: nat)
    requires j <= |doc|
    requires forall x :: 0 <= x < j ==> Keeps(a, x) && Keeps(b, x) && NoGap(a, b, x)
    ensures Merge(a, b, doc, 0) == doc[..j] + Merge(a, b, doc, j)
  {
    if 0 < j {
      MergePast(a, b, doc, 0);
      MergeQuiet(a, b, doc, 0, j);
    }
  }

  /** Up to the first gap or the first deleted character of either operation. */
  lemma MergeStartsAt(a: Operation, b: Operation, doc: JsString)
    requires a.kind != Retain && InBounds(a, doc) && WellFormed(b)
    requires b.kind == Retain || a.position <= b.position
    ensures a.position <= |doc| && Merge(a, b, doc, 0) == doc[..a.position] + Merge(a, b, doc, a.position)
  {
    MergeStarts(a, b, doc, a.position);
  }

  /** After the last gap and the last deleted character the rest is copied. */
  lemma MergeEnds(a: Operation, b: Operation, doc: JsString, i: nat)
    requires i <= |doc|
    requires forall x :: i <= x < |doc| ==> Keeps(a, x) && Keeps(b, x)
    requires forall x :: i < x <= |doc| ==> NoGap(a, b, x)
    ensures MergeOn(a, b, doc, i) == doc[i..]
  {
    MergeCopies(a, b, doc, i, |doc|);
    assert MergeOn(a, b, doc, |doc|) == [];
  }

  /** After the last gap the characters up to `j` are gone and the rest is copied. */
  lemma MergeFinishes(a: Operation, b: Operation, doc: JsString, i: nat, j: nat)
    requires i <= j <= |doc|
    requires forall x :: i <= x < j ==> !(Keeps(a, x) && Keeps(b, x))
    requires forall x :: j <= x < |doc| ==> Keeps(a, x) && Keeps(b, x)
    requires forall x :: i < x <= |doc| ==> NoGap(a, b, x)
    ensures MergeOn(a, b, doc, i) == doc[j..]
  {
    MergeSkips(a, b, doc, i, j);
    MergeEnds(a, b, doc, j);
  }

  lemma Flatten<T>(a: seq<T>, b: seq<T>, c: seq<T>, d: seq<T>)
    ensures a + (b + (c + d)) == a + b + c + d
  {
    Assoc(a, b, c + d);
    Assoc(a + b, c, d);
  }

  /** At the gap of an insert that the other operation does not share. */
  lemma MergeAtGap(a: Operation, b: Operation, doc: JsString)
    requires a.kind == Insert && InBounds(a, doc) && InGap(b, a.position) == []
    ensures Merge(a, b, doc, a.position) == a.Text() + MergeOn(a, b, doc, a.position)
    ensures Merge(b, a, doc, a.position) == a.Text() + MergeOn(b, a, doc, a.position)
  {}

  /** From the second of two gaps on. */
  lemma MergeLastGap(a: Operation, b: Operation, doc: JsString)
    requires a.kind == Insert && b.kind == Insert && InBounds(a, doc) && InBounds(b, doc)
    requires a.position < b.position
    ensures Merge(a, b, doc, b.position) == b.Text() + doc[b.position..]
  {
    MergeAtGap(b, a, doc);
    MergeEnds(a, b, doc, b.position);
  }

  /** From the first of two gaps to the second. */
  lemma MergeFirstGap(a: Operation, b: Operation, doc: JsString)
    requires a.kind == Insert && b.kind == Insert && InBounds(a, doc) && InBounds(b, doc)
    requires a.position < b.position
    ensures Merge(a, b, doc, a.position)
            == a.Text() + (doc[a.position..b.position] + Merge(a, b, doc, b.position))
  {
    MergeAtGap(a, b, doc);
    MergeQuiet(a, b, doc, a.position, b.position);
  }

  lemma MergeInserts(a: Operation, b: Operation, doc: JsString)
    requires a.kind == Insert && b.kind == Insert && InBounds(a, doc) && InBounds(b, doc)
    requires a.position < b.position
    ensures Merge(a, b, doc, 0) ==
            doc[..a.position] + a.Text() + doc[a.position..b.position] + b.Text() + doc[b.position..]
  {
    var p, q := a.position, b.position;
    MergeStartsAt(a, b, doc);
    MergeFirstGap(a, b, doc);
    MergeLastGap(a, b, doc);
    Flatten(doc[..p], a.Text(), doc[p..q], b.Text() + doc[q..]);
    Assoc(doc[..p] + a.Text() + doc[p..q], b.Text(), doc[q..]);
  }

  lemma MergeSharedGap(a: Operation, b: Operation, doc: JsString)
    requires a.kind == Insert && b.kind == Insert && InBounds(a, doc) && InBounds(b, doc)
    requires a.position == b.position
    ensures Merge(a, b, doc, a.position) == a.Text() + b.Text() + doc[a.position..]
  {
    MergeEnds(a, b, doc, a.position);
  }

  lemma MergeInsertsAtOneGap(a: Operation, b: Operation, doc: JsString)
    requires a.kind == Insert && b.kind == Insert && InBounds(a, doc) && InBounds(b, doc)
    requires a.position == b.position
    ensures Merge(a, b, doc, 0) == doc[..a.position] + (a.Text() + b.Text()) + doc[a.position..]
  {
    var p := a.position;
    MergeStartsAt(a, b, doc);
    MergeSharedGap(a, b, doc);
    Assoc(doc[..p], a.Text() + b.Text(), doc[p..]);
  }

  /** From an insert's gap over the delete after it. */
  lemma MergeGapThenDelete(a: Operation, b: Operation, doc: JsString)
    requires a.kind == Insert && b.kind == Delete && InBounds(a, doc) && InBounds(b, doc)
    requires a.position <= b.position
    ensures MergeOn(a, b, doc, a.position) == doc[a.position..b.position] + doc[b.position + b.Len()..]
  {
    MergeCopies(a, b, doc, a.position, b.position);
    MergeFinishes(a, b, doc, b.position, b.position + b.Len());
  }

  lemma MergeInsertLeftOfDelete(a: Operation, b: Operation, doc: JsString)
    requires a.kind == Insert && b.kind == Delete && InBounds(a, doc) && InBounds(b, doc)
    requires a.position <= b.position
    ensures Merge(a, b, doc, 0) ==
            doc[..a.position] + a.Text() + doc[a.position..b.position] + doc[b.position + b.Len()..]
  {
    var p, q, e := a.position, b.position, b.position + b.Len();
    MergeStartsAt(a, b, doc);
    MergeAtGap(a, b, doc);
    MergeGapThenDelete(a, b, doc);
    Flatten(doc[..p], a.Text(), doc[p..q], doc[e..]);
  }

  /** A delete that ends by an insert's gap: the merge from its start to the gap. */
  lemma MergeDeleteThenGap(a: Operation, b: Operation, doc: JsString)
    requires a.kind == Insert && b.kind == Delete && InBounds(a, doc) && InBounds(b, doc)
    requires b.position < a.position && b.position + b.Len() <= a.position
    ensures Merge(a, b, doc, b.position) ==
            doc[b.position + b.Len()..a.position] + Merge(a, b, doc, a.position)
  {
    var p, q, e := a.position, b.position, b.position + b.Len();
    MergePast(a, b, doc, q);
    if e < p {
      MergeSkips(a, b, doc, q, e);
      MergeQuiet(a, b, doc, e, p);
    } else {
      MergeGone(a, b, doc, q, p);
      assert doc[e..p] == [];
    }
  }

  lemma MergeInsertRightOfDelete(a: Operation, b: Operation, doc: JsString)
    requires a.kind == Insert && b.kind == Delete && InBounds(a, doc) && InBounds(b, doc)
    requires b.position < a.position && b.position + b.Len() <= a.position
    ensures Merge(a, b, doc, 0) ==
            doc[..b.position] + doc[b.position + b.Len()..a.position] + a.Text() + doc[a.position..]
  {
    MergeStarts(a, b, doc, b.position);
    MergeDeleteThenGap(a, b, doc);
    MergeAtGap(a, b, doc);
    MergeEnds(a, b, doc, a.position);
    Flatten(doc[..b.position], doc[b.position + b.Len()..a.position], a.Text(), doc[a.position..]);
  }

  /** From the first of two separate deletes on. */
  lemma MergeTwoDeletes(a: Operation, b: Operation, doc: JsString)
    requires a.kind == Delete && b.kind == Delete && InBounds(a, doc) && InBounds(b, doc)
    requires a.position + a.Len() <= b.position
    ensures Merge(a, b, doc, a.position) == doc[a.position + a.Len()..b.position] + doc[b.position + b.Len()..]
  {
    var p, d, q, e := a.position, a.position + a.Len(), b.position, b.position + b.Len();
    MergePast(a, b, doc, p);
    MergeSkips(a, b, doc, p, d);
    MergeCopies(a, b, doc, d, q);
    MergeFinishes(a, b, doc, q, e);
  }

  lemma MergeDeletesApart(a: Operation, b: Operation, doc: JsString)
    requires a.kind == Delete && b.kind == Delete && InBounds(a, doc) && InBounds(b, doc)
    requires a.position + a.Len() <= b.position
    ensures Merge(a, b, doc, 0) ==
            doc[..a.position] + doc[a.position + a.Len()..b.position] + doc[b.position + b.Len()..]
  {
    MergeStartsAt(a, b, doc);
    MergeTwoDeletes(a, b, doc);
    Assoc(doc[..a.position], doc[a.position + a.Len()..b.position], doc[b.position + b.Len()..]);
  }

  lemma MergeDeletesOverlapping(a: Operation, b: Operation, doc: JsString)
    requires a.kind == Delete && b.kind == Delete && InBounds(a, doc) && InBounds(b, doc)
    requires a.position <= b.position <= a.position + a.Len()
    ensures Merge(a, b, doc, 0) ==
            doc[..a.position] + doc[Max(a.position + a.Len(), b.position + b.Len())..]
  {
    MergeStartsAt(a, b, doc);
    MergePast(a, b, doc, a.position);
    MergeFinishes(a, b, doc, a.position, Max(a.position + a.Len(), b.position + b.Len()));
  }

  lemma {:induction false} MergeSymmetric(a: Operation, b: Operation, doc: JsString, i: nat)
    requires i <= |doc|
    requires a.kind == b.kind == Insert && a.position == b.position ==> a.Text() + b.Text() == b.Text() + a.Text()
    ensures Merge(a, b, doc, i) == Merge(b, a, doc, i)
    decreases |doc| - i
  {
    assert InGap(a, i) + InGap(b, i) == InGap(b, i) + InGap(a, i);
    if i < |doc| { MergeSymmetric(a, b, doc, i + 1); }
  }

  // ---- The transform against the merge -----------------------------------

  lemma InsertsPreserve(a: Operation, b: Operation, doc: JsString)
    requires a.sessionId == b.sessionId && a.kind == Insert && b.kind == Insert
    requires InBounds(a, doc) && InBounds(b, doc) && a.position <= b.position
    ensures Apply(Rebased(b, a), Apply(a, doc)) == Merge(a, b, doc, 0)
  {
    var p, q, s, t := a.position, b.position, a.Text(), b.Text();
    assert Rebased(b, a) == b.(position := q + |s|);
    if p < q {
      InsertsCommute(doc, p, q, s, t);
      MergeInserts(a, b, doc);
    } else {
      InsertsAtOneGap(doc, p, s, t);
      MergeInsertsAtOneGap(a, b, doc);
    }
  }

  lemma InsertLeftPreserves(a: Operation, b: Operation, doc: JsString)
    requires a.sessionId == b.sessionId && a.kind == Insert && b.kind == Delete
    requires InBounds(a, doc) && InBounds(b, doc) && a.position <= b.position
    ensures Apply(Rebased(a, b), Apply(b, doc)) == Merge(a, b, doc, 0)
  {
    assert Rebased(a, b) == a;
    InsertBeforeDelete(doc, a.position, b.position, b.Len(), a.Text());
    MergeInsertLeftOfDelete(a, b, doc);
  }

  lemma InsertRightPreserves(a: Operation, b: Operation, doc: JsString)
    requires a.sessionId == b.sessionId && a.kind == Insert && b.kind == Delete
    requires InBounds(a, doc) && InBounds(b, doc) && b.position < a.position && b.position + b.Len() <= a.position
    ensures Apply(Rebased(a, b), Apply(b, doc)) == Merge(a, b, doc, 0)
  {
    assert Rebased(a, b) == a.(position := a.position - b.Len());
    InsertAfterDelete(doc, b.position, b.Len(), a.position, a.Text());
    MergeInsertRightOfDelete(a, b, doc);
  }

  lemma InsertDeletePreserve(a: Operation, b: Operation, doc: JsString)
    requires a.sessionId == b.sessionId && a.kind == Insert && b.kind == Delete
    requires InBounds(a, doc) && InBounds(b, doc) && Compatible(a, b)
    ensures Apply(Rebased(a, b), Apply(b, doc)) == Merge(a, b, doc, 0)
  {
    if a.position <= b.position {
      InsertLeftPreserves(a, b, doc);
    } else if b.position + b.Len() <= a.position {
      InsertRightPreserves(a, b, doc);
    } else {
      EmptyInsertPreserves(a, b, doc);
    }
  }

  lemma EmptyInsertPreserves(a: Operation, b: Operation, doc: JsString)
    requires a.sessionId == b.sessionId && a.kind == Insert && b.kind == Delete
    requires InBounds(a, doc) && InBounds(b, doc) && a.Text() == [] && StrictlyInside(a, b)
    ensures Apply(Rebased(a, b), Apply(b, doc)) == Merge(a, b, doc, 0)
  {
    DeleteAlonePreserves(b, a, doc);
    MergeSymmetric(a, b, doc, 0);
    assert Rebased(a, b) == a.(position := b.position);
    InsertNothing(Apply(b, doc), b.position);
  }

  lemma DeletesInOrder(a: Operation, b: Operation, doc: JsString)
    requires a.sessionId == b.sessionId && a.kind == Delete && b.kind == Delete
    requires InBounds(a, doc) && InBounds(b, doc)
    requires a.position < b.position && a.position + a.Len() <= b.position
    ensures Apply(Rebased(b, a), Apply(a, doc)) ==
            doc[..a.position] + doc[a.position + a.Len()..b.position] + doc[b.position + b.Len()..]
  {
    var p, l, q, k := a.position, a.Len(), b.position, b.Len();
    SecondDeleteRebased(a, b, doc);
    assert DeleteAt(DeleteAt(doc, p, l), Max(p, q - l), k) == doc[..p] + doc[p + l..q] + doc[q + k..] by {
      DeletesCommute(doc, p, l, q, k);
    }
  }

  lemma DeletesApartPreserve(a: Operation, b: Operation, doc: JsString)
    requires a.sessionId == b.sessionId && a.kind == Delete && b.kind == Delete
    requires InBounds(a, doc) && InBounds(b, doc)
    requires a.position < b.position && a.position + a.Len() <= b.position
    ensures Apply(Rebased(b, a), Apply(a, doc)) == Merge(a, b, doc, 0)
  {
    DeletesInOrder(a, b, doc);
    MergeDeletesApart(a, b, doc);
  }

  /** Same range twice, or an empty delete inside the other's range. */
  lemma DeletesNestedPreserve(a: Operation, b: Operation, doc: JsString)
    requires a.sessionId == b.sessionId && a.kind == Delete && b.kind == Delete
    requires InBounds(a, doc) && InBounds(b, doc) && Compatible(a, b) && !OverlapApart(a, b)
    requires a.position == b.position || a.position < b.position < a.position + a.Len()
    ensures Apply(Rebased(b, a), Apply(a, doc)) == Merge(a, b, doc, 0)
  {
    assert Rebased(b, a).kind == Delete && Rebased(b, a).Len() == 0;
    MergeDeletesOverlapping(a, b, doc);
    DeleteNothing(Apply(a, doc), Rebased(b, a).position);
  }

  lemma DeletesPreserve(a: Operation, b: Operation, doc: JsString)
    requires a.sessionId == b.sessionId && a.kind == Delete && b.kind == Delete
    requires InBounds(a, doc) && InBounds(b, doc) && Compatible(a, b) && !OverlapApart(a, b)
    requires a.position <= b.position
    ensures Apply(Rebased(b, a), Apply(a, doc)) == Merge(a, b, doc, 0)
  {
    if a.position < b.position && a.position + a.Len() <= b.position {
      DeletesApartPreserve(a, b, doc);
    } else {
      DeletesNestedPreserve(a, b, doc);
    }
  }

  lemma DeleteNothing<T>(doc: seq<T>, p: int)
    ensures DeleteAt(doc, p, 0) == doc
  {}

  // A retain, or an insert of nothing, leaves the other operation's effect as it is.

  lemma MergeInsertAlone(a: Operation, b: Operation, doc: JsString)
    requires a.kind == Insert && b.kind == Retain && InBounds(a, doc) && WellFormed(b)
    ensures Merge(a, b, doc, 0) == doc[..a.position] + a.Text() + doc[a.position..]
  {
    var p := a.position;
    MergeStartsAt(a, b, doc);
    MergeAtGap(a, b, doc);
    MergeEnds(a, b, doc, p);
    Assoc(doc[..p], a.Text(), doc[p..]);
  }

  lemma InsertAlonePreserves(a: Operation, b: Operation, doc: JsString)
    requires a.kind == Insert && b.kind == Retain && InBounds(a, doc) && WellFormed(b)
    ensures Apply(a, doc) == Merge(a, b, doc, 0)
  {
    MergeInsertAlone(a, b, doc);
  }

  lemma MergeDeleteAlone(a: Operation, b: Operation, doc: JsString)
    requires a.kind == Delete && (b.kind == Retain || (b.kind == Insert && b.Text() == [])) && InBounds(a, doc)
    ensures Merge(a, b, doc, 0) == doc[..a.position] + doc[a.position + a.Len()..]
  {
    assert forall x :: NoGap(a, b, x);
    MergeStarts(a, b, doc, a.position);
    MergePast(a, b, doc, a.position);
    MergeFinishes(a, b, doc, a.position, a.position + a.Len());
  }

  lemma DeleteAlonePreserves(a: Operation, b: Operation, doc: JsString)
    requires a.kind == Delete && (b.kind == Retain || (b.kind == Insert && b.Text() == [])) && InBounds(a, doc)
    ensures Apply(a, doc) == Merge(a, b, doc, 0)
  {
    MergeDeleteAlone(a, b, doc);
  }

  lemma RetainPreserves(a: Operation, b: Operation, doc: JsString)
    requires a.sessionId == b.sessionId && b.kind == Retain && InBounds(a, doc) && WellFormed(b)
    ensures Apply(a, doc) == Merge(a, b, doc, 0)
  {
    match a.kind
    case Insert => InsertAlonePreserves(a, b, doc);
    case Delete => DeleteAlonePreserves(a, b, doc);
    case Retain =>
      assert NoGap(a, b, 0);
      MergeEnds(a, b, doc, 0);
  }

  /** One of the two orders reaches the merge; convergence then gives the other. */
  lemma OneOrderPreserves(a: Operation, b: Operation, doc: JsString)
    requires a.sessionId == b.sessionId
    requires InBounds(a, doc) && InBounds(b, doc) && Compatible(a, b) && !OverlapApart(a, b)
    requires a.kind == b.kind ==> a.position <= b.position
    requires a.kind != b.kind ==> b.kind == Retain || (a.kind == Insert && b.kind == Delete)
    ensures Apply(Rebased(b, a), Apply(a, doc)) == Merge(a, b, doc, 0) ||
            Apply(Rebased(a, b), Apply(b, doc)) == Merge(a, b, doc, 0)
  {
    match (a.kind, b.kind)
    case (Insert, Insert) => InsertsPreserve(a, b, doc);
    case (Insert, Delete) => InsertDeletePreserve(a, b, doc);
    case (Delete, Delete) => DeletesPreserve(a, b, doc);
    case (_, Retain) => RetainPreserves(a, b, doc);
  }

  lemma IndependentPreserves(a: Operation, b: Operation, doc: JsString)
    requires a.sessionId == b.sessionId
    requires InBounds(a, doc) && InBounds(b, doc) && Compatible(a, b) && !OverlapApart(a, b)
    ensures PreservesIntent(a, b, doc)
  {
    CompatibleConverges(a, b, doc);
    if (if a.kind == b.kind then a.position <= b.position else b.kind == Retain || (a.kind == Insert && b.kind == Delete)) {
      OneOrderPreserves(a, b, doc);
    } else {
      OneOrderPreserves(b, a, doc);
      MergeSymmetric(a, b, doc, 0);
    }
  }

  /** Overlapping deletes agree on the wrong document: one longer than the union is removed. */
  lemma OverlapLosesText(a: Operation, b: Operation) returns (doc: JsString)
    requires a.sessionId == b.sessionId && WellFormed(a) && WellFormed(b)
    requires OverlapApart(a, b) && a.position < b.position
    ensures InBounds(a, doc) && InBounds(b, doc)
    ensures Apply(Rebased(b, a), Apply(a, doc)) == Apply(Rebased(a, b), Apply(b, doc))
    ensures |Apply(Rebased(b, a), Apply(a, doc))| < |Merge(a, b, doc, 0)|
  {
    var p, l, k := a.position, a.Len(), b.Len();
    doc := Fill(0, p + l + k);
    MergeDeletesOverlapping(a, b, doc);
    DeletesConverge(a, b, doc);
    assert Rebased(b, a) == b.(position := p);
    TwoDeletesOverlapping(doc, p, l, b.position, k);
  }

  /** Both orders reach the intended document, on every document, exactly for these pairs. */
  lemma IntentExactly(a: Operation, b: Operation)
    requires a.sessionId == b.sessionId && WellFormed(a) && WellFormed(b)
    ensures (forall doc: JsString :: InBounds(a, doc) && InBounds(b, doc) ==> PreservesIntent(a, b, doc))
       <==> Compatible(a, b) && !OverlapApart(a, b)
  {
    if !Compatible(a, b) {
      var doc := IncompatibleDiverges(a, b);
      assert !PreservesIntent(a, b, doc);
    } else if OverlapApart(a, b) {
      if a.position < b.position {
        var doc := OverlapLosesText(a, b);
        assert !PreservesIntent(a, b, doc);
      } else {
        var doc := OverlapLosesText(b, a);
        MergeSymmetric(a, b, doc, 0);
        assert !PreservesIntent(a, b, doc);
      }
    } else {
      forall doc: JsString | InBounds(a, doc) && InBounds(b, doc) ensures PreservesIntent(a, b, doc) {
        IndependentPreserves(a, b, doc);
      }
    }
  }
}
