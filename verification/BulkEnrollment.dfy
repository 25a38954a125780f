/** Bulk enrolment is all-or-nothing, independent of the order of its items, and agrees with `enroll`. */
module BulkEnrollment {
  import opened Prelude
  import opened CourseTypes
  import opened Enrollments

  predicate Holds(values: set<Row>, u: string, c: string) {
    exists row :: row in values && row.userId == u && row.courseId == c
  }

  predicate HoldsCompleted(values: set<Row>, u: string, c: string) {
    exists row :: row in values && row.userId == u && row.courseId == c && row.status == Completed
  }

  lemma LookupsSeeValues(rows: map<nat, Row>, u: string, c: string)
    ensures HasRow(rows, u, c) <==> Holds(rows.Values, u, c)
    ensures HasCompleted(rows, u, c) <==> HoldsCompleted(rows.Values, u, c)
  {}

  /** An item that fails whenever it is tried in this batch; decided on the rows before the batch. */
  predicate Hopeless(st: State, item: Item) {
    match Refusal(st, st.rows, item.userId, item.courseId)
    case Some(why) => why != AlreadyEnrolled
    case None => false
  }

  predicate Newcomer(st: State, item: Item) { Refusal(st, st.rows, item.userId, item.courseId) == None }

  function Newcomers(st: State, items: seq<Item>): set<Item> {
    set item | item in items && Newcomer(st, item)
  }

  function NewRows(items: set<Item>): set<Row> { set item | item in items :: NewRow(item.userId, item.courseId) }

  function HopelessCount(st: State, items: seq<Item>): nat {
    if items == [] then 0
    else HopelessCount(st, items[..|items| - 1]) + (if Hopeless(st, items[|items| - 1]) then 1 else 0)
  }

  /** What a batch has done after some items, said without their order. */
  ghost predicate Closed(st: State, items: seq<Item>, b: Batch) {
    b.rows.Values == st.rows.Values + NewRows(Newcomers(st, items)) &&
    b.failed == HopelessCount(st, items) &&
    |b.saved| == |Newcomers(st, items)| &&
    b.skipped + b.failed + |b.saved| == |items| &&
    FreshIds(b.rows, b.nextId)
  }

  lemma NewValues(rows: map<nat, Row>, id: nat, row: Row)
    requires id !in rows
    ensures rows[id := row].Values == rows.Values + {row}
  {
    var next := rows[id := row];
    assert next[id] == row;
    forall v | v in rows.Values ensures v in next.Values {
      var k :| k in rows && rows[k] == v;
      assert next[k] == v;
    }
  }

  /** The batch's own rows never change an item's refusal, except to make a newcomer already enrolled. */
  lemma RefusalInBatch(st: State, values: map<nat, Row>, seen: seq<Item>, item: Item)
    requires values.Values == st.rows.Values + NewRows(Newcomers(st, seen))
    ensures Refusal(st, values, item.userId, item.courseId) ==
            if Newcomer(st, item) && item in seen then Some(AlreadyEnrolled)
            else Refusal(st, st.rows, item.userId, item.courseId)
  {
    var u, c := item.userId, item.courseId;
    LookupsSeeValues(values, u, c);
    LookupsSeeValues(st.rows, u, c);
    BatchHolds(st, values.Values, seen, u, c);
    if c in st.prerequisite {
      LookupsSeeValues(values, u, st.prerequisite[c]);
      LookupsSeeValues(st.rows, u, st.prerequisite[c]);
      BatchHolds(st, values.Values, seen, u, st.prerequisite[c]);
    }
  }

  lemma BatchHolds(st: State, values: set<Row>, seen: seq<Item>, u: string, c: string)
    requires values == st.rows.Values + NewRows(Newcomers(st, seen))
    ensures Holds(values, u, c) <==> Holds(st.rows.Values, u, c) || Item(u, c) in Newcomers(st, seen)
    ensures HoldsCompleted(values, u, c) <==> HoldsCompleted(st.rows.Values, u, c)
  {
    if Item(u, c) in Newcomers(st, seen) { assert NewRow(u, c) in values; }
    forall row | row in values && row.userId == u && row.courseId == c && row !in st.rows.Values
      ensures Item(u, c) in Newcomers(st, seen) && row.status == Active
    {
      var item :| item in Newcomers(st, seen) && row == NewRow(item.userId, item.courseId);
      assert item == Item(u, c);
    }
  }

  lemma NewcomersGrow(st: State, items: seq<Item>, item: Item)
    ensures Newcomers(st, items + [item]) ==
            Newcomers(st, items) + (if Newcomer(st, item) then {item} else {})
    ensures NewRows(Newcomers(st, items) + {item}) == NewRows(Newcomers(st, items)) + {NewRow(item.userId, item.courseId)}
  {}

  lemma NewcomerClosed(st: State, items: seq<Item>, b: Batch, item: Item)
    requires Closed(st, items, b) && Newcomer(st, item) && item !in items
    ensures Closed(st, items + [item], BatchStep(st, b, item))
  {
    RefusalInBatch(st, b.rows, items, item);
    NewcomersGrow(st, items, item);
    NewValues(b.rows, b.nextId, NewRow(item.userId, item.courseId));
    assert (items + [item])[..|items|] == items;
    assert item !in Newcomers(st, items);
  }

  /** A repeated newcomer, or an item refused from the start. */
  lemma OtherClosed(st: State, items: seq<Item>, b: Batch, item: Item)
    requires Closed(st, items, b) && !(Newcomer(st, item) && item !in items)
    ensures Closed(st, items + [item], BatchStep(st, b, item))
  {
    RefusalInBatch(st, b.rows, items, item);
    assert (items + [item])[..|items|] == items;
    assert Newcomers(st, items + [item]) == Newcomers(st, items);
  }

  lemma {:induction false} BatchClosed(st: State, items: seq<Item>)
    requires FreshIds(st.rows, st.nextId)
    ensures Closed(st, items, BatchOf(st, items))
  {
    if items == [] {
      assert Newcomers(st, items) == {};
    } else {
      var n := |items| - 1;
      BatchClosed(st, items[..n]);
      if Newcomer(st, items[n]) && items[n] !in items[..n] {
        NewcomerClosed(st, items[..n], BatchOf(st, items[..n]), items[n]);
      } else {
        OtherClosed(st, items[..n], BatchOf(st, items[..n]), items[n]);
      }
      assert items[..n] + [items[n]] == items;
    }
  }

  // ---- Order independence ------------------------------------------------

  lemma {:induction false} CountJoins(st: State, xs: seq<Item>, ys: seq<Item>)
    ensures HopelessCount(st, xs + ys) == HopelessCount(st, xs) + HopelessCount(st, ys)
    decreases |ys|
  {
    if ys == [] {
      assert xs + ys == xs;
    } else {
      var n := |ys| - 1;
      CountJoins(st, xs, ys[..n]);
      assert (xs + ys)[..|xs + ys| - 1] == xs + ys[..n];
    }
  }

  lemma CountWithout(st: State, ys: seq<Item>, k: nat)
    requires k < |ys|
    ensures HopelessCount(st, ys) ==
            HopelessCount(st, ys[..k] + ys[k + 1..]) + (if Hopeless(st, ys[k]) then 1 else 0)
  {
    assert ys == ys[..k + 1] + ys[k + 1..];
    CountJoins(st, ys[..k + 1], ys[k + 1..]);
    CountJoins(st, ys[..k], ys[k + 1..]);
    assert ys[..k + 1][..k] == ys[..k];
  }

  lemma MultisetWithout(ys: seq<Item>, k: nat)
    requires k < |ys|
    ensures multiset(ys[..k] + ys[k + 1..]) == multiset(ys) - multiset{ys[k]}
  {
    assert ys == ys[..k] + [ys[k]] + ys[k + 1..];
  }

  lemma Find(xs: seq<Item>, ys: seq<Item>, x: Item) returns (k: nat)
    requires multiset(xs) == multiset(ys) && x in xs
    ensures k < |ys| && ys[k] == x
  {
    assert x in multiset(ys);
    k :| 0 <= k < |ys| && ys[k] == x;
  }

  lemma {:induction false} CountPermutes(st: State, xs: seq<Item>, ys: seq<Item>)
    requires multiset(xs) == multiset(ys)
    ensures HopelessCount(st, xs) == HopelessCount(st, ys)
    decreases |xs|
  {
    if xs == [] {
      assert |multiset(ys)| == 0;
    } else {
      var n := |xs| - 1;
      var k := Find(xs, ys, xs[n]);
      MultisetWithout(xs, n);
      MultisetWithout(ys, k);
      var front, rest := xs[..n], ys[..k] + ys[k + 1..];
      assert xs[..n] + xs[n + 1..] == front;
      CountPermutes(st, front, rest);
      CountWithout(st, ys, k);
    }
  }

  lemma SameItems(xs: seq<Item>, ys: seq<Item>)
    requires multiset(xs) == multiset(ys)
    ensures |xs| == |ys| && forall x :: x in xs <==> x in ys
  {
    assert |multiset(xs)| == |xs| && |multiset(ys)| == |ys|;
    assert forall x :: x in xs <==> x in multiset(xs);
    assert forall x :: x in ys <==> x in multiset(ys);
  }

  /** Any reordering of a batch gives the same counts and the same rows, up to their ids. */
  lemma OrderDoesNotMatter(st: State, xs: seq<Item>, ys: seq<Item>)
    requires FreshIds(st.rows, st.nextId) && multiset(xs) == multiset(ys)
    ensures var (sx, rx) := BulkEnrolled(st, xs);
            var (sy, ry) := BulkEnrolled(st, ys);
            rx.enrolled == ry.enrolled && rx.skipped == ry.skipped && rx.failed == ry.failed &&
            sx.rows.Values == sy.rows.Values
  {
    BatchClosed(st, xs);
    BatchClosed(st, ys);
    CountPermutes(st, xs, ys);
    SameItems(xs, ys);
    assert Newcomers(st, xs) == Newcomers(st, ys);
  }

  // ---- All or nothing ----------------------------------------------------

  /** A batch commits exactly when no item is hopeless; otherwise nothing changes and nothing is emitted. */
  lemma AllOrNothing(st: State, items: seq<Item>)
    requires FreshIds(st.rows, st.nextId)
    ensures var (next, r) := BulkEnrolled(st, items);
            (r.failed == 0 <==> forall item :: item in items ==> !Hopeless(st, item)) &&
            (r.failed > 0 ==> next == st && r.enrolled == 0) &&
            (r.failed == 0 ==> forall item :: item in items ==> HasRow(next.rows, item.userId, item.courseId))
  {
    BatchClosed(st, items);
    CountZero(st, items);
    var (next, r) := BulkEnrolled(st, items);
    if r.failed == 0 {
      forall item | item in items ensures HasRow(next.rows, item.userId, item.courseId) {
        EnrolledOrThere(st, items, next.rows, item);
      }
    }
  }

  lemma {:induction false} CountZero(st: State, items: seq<Item>)
    ensures HopelessCount(st, items) == 0 <==> forall item :: item in items ==> !Hopeless(st, item)
  {
    if items != [] {
      CountZero(st, items[..|items| - 1]);
      assert items == items[..|items| - 1] + [items[|items| - 1]];
    }
  }

  lemma EnrolledOrThere(st: State, items: seq<Item>, rows: map<nat, Row>, item: Item)
    requires rows.Values == st.rows.Values + NewRows(Newcomers(st, items))
    requires item in items && !Hopeless(st, item)
    ensures HasRow(rows, item.userId, item.courseId)
  {
    LookupsSeeValues(rows, item.userId, item.courseId);
    LookupsSeeValues(st.rows, item.userId, item.courseId);
    BatchHolds(st, rows.Values, items, item.userId, item.courseId);
    assert item == Item(item.userId, item.courseId);
  }

  // ---- Agreement with `enroll` -------------------------------------------

  /** `enroll` called for each item in turn, whatever it answers. */
  function OneByOne(st: State, items: seq<Item>): State {
    if items == [] then st
    else
      var last := items[|items| - 1];
      Enrolled(OneByOne(st, items[..|items| - 1]), last.userId, last.courseId).0
  }

  /** The only refusal met on the way is "already enrolled". */
  predicate OnlyRepeats(st: State, items: seq<Item>) {
    items == [] ||
    (OnlyRepeats(st, items[..|items| - 1]) &&
     var last := items[|items| - 1];
     var (_, r) := Enrolled(OneByOne(st, items[..|items| - 1]), last.userId, last.courseId);
     r.Ok? || r.error == AlreadyEnrolled)
  }

  lemma AnnouncedOneMore(items: seq<Item>, item: Item)
    ensures Announced(items + [item]) == Announced(items) + [CourseEnrolled(item.userId, item.courseId)]
  {
    assert (items + [item])[..|items|] == items;
  }

  /** The open transaction and the one-by-one state hold the same rows, and the events match. */
  ghost predicate Alongside(st: State, b: Batch, s: State) {
    s == st.(rows := b.rows, nextId := b.nextId, log := st.log + Announced(b.saved))
  }

  lemma StepAlongside(st: State, b: Batch, s: State, item: Item)
    requires Alongside(st, b, s)
    ensures var (next, r) := Enrolled(s, item.userId, item.courseId);
            Alongside(st, BatchStep(st, b, item), next) &&
            (BatchStep(st, b, item).failed == b.failed <==> r.Ok? || r.error == AlreadyEnrolled) &&
            b.failed <= BatchStep(st, b, item).failed
  {
    assert Refusal(s, s.rows, item.userId, item.courseId) == Refusal(st, b.rows, item.userId, item.courseId);
    AnnouncedOneMore(b.saved, item);
  }

  lemma {:induction false} BatchFollowsEnroll(st: State, items: seq<Item>)
    ensures Alongside(st, BatchOf(st, items), OneByOne(st, items))
    ensures BatchOf(st, items).failed == 0 <==> OnlyRepeats(st, items)
  {
    if items != [] {
      var n := |items| - 1;
      BatchFollowsEnroll(st, items[..n]);
      StepAlongside(st, BatchOf(st, items[..n]), OneByOne(st, items[..n]), items[n]);
    }
  }

  /**
   * A batch commits exactly when enrolling the items one by one meets no refusal but "already
   * enrolled", and then it ends in the very same state, rows, ids and events included.
   */
  lemma CommittedLikeEnroll(st: State, items: seq<Item>)
    ensures BulkEnrolled(st, items).1.failed == 0 <==> OnlyRepeats(st, items)
    ensures OnlyRepeats(st, items) ==> BulkEnrolled(st, items).0 == OneByOne(st, items)
  {
    BatchFollowsEnroll(st, items);
  }
}
