/** Undoing bulk operations: round trips, independence from other work, and no second undo. */
module BulkUndo {
  import opened Prelude
  import opened CourseTypes
  import opened CourseBulk

  predicate Distinct(ids: seq<string>) { forall i, j :: 0 <= i < j < |ids| ==> ids[i] != ids[j] }

  predicate Twice(ids: seq<string>, id: string) {
    exists i, j :: 0 <= i < j < |ids| && ids[i] == id && ids[j] == id
  }

  /** `course` with the operation's own field taken from `original`. */
  function WithField(kind: BulkKind, course: Course, original: Course): Course {
    match kind
    case Publish(_) => course.(status := original.status)
    case PriceUpdate(_) => course.(price := original.price)
    case CategoryUpdate(_) => course.(category := original.category)
  }

  lemma FieldLaws(kind: BulkKind, x: Course, c: Course, y: Course)
    ensures Restore(x, Record(kind, c)) == WithField(kind, x, c)
    ensures WithField(kind, Change(kind, x), x) == x
    ensures WithField(kind, x, Change(kind, c)) == Change(kind, x)
    ensures WithField(kind, WithField(kind, x, y), c) == WithField(kind, x, c)
  {}

  predicate Touches(courses: Courses, user: User, id: string) {
    id in courses && MayChange(user, courses[id])
  }

  /** What undo assigns: the field as it was, or, for an id listed twice, the value the operation assigned. */
  lemma {:induction false} AssignedExactly(courses: Courses, kind: BulkKind, user: User, ids: seq<string>,
                                           n: nat, id: string, now: Course)
    requires n <= |ids|
    ensures RestoredAt(Snapshots(courses, kind, user, ids, n), id, now) ==
            if !(id in ids[..n] && Touches(courses, user, id)) then now
            else if Twice(ids[..n], id) then Change(kind, now)
            else WithField(kind, now, courses[id])
  {
    if n > 0 {
      AssignedExactly(courses, kind, user, ids, n - 1, id, now);
      SnapshotsFront(courses, kind, user, ids, n);
      PrefixStep(ids, n - 1, id);
      if ids[n - 1] == id && Touches(courses, user, id) {
        var before := RestoredAt(Snapshots(courses, kind, user, ids, n - 1), id, now);
        FieldLaws(kind, before, courses[id], courses[id]);
        FieldLaws(kind, before, Change(kind, courses[id]), courses[id]);
        FieldLaws(kind, now, courses[id], courses[id]);
        WriteTwice(kind, now, courses[id]);
      }
    }
  }

  lemma SnapshotsFront(courses: Courses, kind: BulkKind, user: User, ids: seq<string>, n: nat)
    requires 0 < n <= |ids|
    ensures var all := Snapshots(courses, kind, user, ids, n);
            all[..n - 1] == Snapshots(courses, kind, user, ids, n - 1) &&
            all[n - 1] == SnapshotAt(courses, kind, user, ids, n - 1)
  {}

  /** The value the operation overwrote can be written again: a missing category cannot. */
  predicate Recoverable(kind: BulkKind, course: Course) { kind.CategoryUpdate? ==> course.category.Some? }

  /** What undo leaves in the table for each course, whatever it has become by then. */
  lemma RestoredExactly(courses: Courses, kind: BulkKind, user: User, ids: seq<string>, id: string, now: Course)
    ensures Written(now, RestoredAt(Snapshots(courses, kind, user, ids, |ids|), id, now)) ==
            if !(id in ids && Touches(courses, user, id)) then now
            else if Twice(ids, id) then Put(kind, now)
            else if Recoverable(kind, courses[id]) then WithField(kind, now, courses[id])
            else now
  {
    assert ids[..|ids|] == ids;
    AssignedExactly(courses, kind, user, ids, |ids|, id, now);
  }

  lemma WriteTwice(kind: BulkKind, x: Course, c: Course)
    ensures Change(kind, WithField(kind, x, c)) == Change(kind, x) == Change(kind, Change(kind, x))
    ensures WithField(kind, x, Change(kind, c)) == Change(kind, x)
  {}

  lemma PrefixStep(ids: seq<string>, i: nat, id: string)
    requires i < |ids|
    ensures id in ids[..i + 1] <==> id in ids[..i] || id == ids[i]
    ensures Twice(ids[..i + 1], id) <==> Twice(ids[..i], id) || (id == ids[i] && id in ids[..i])
  {
    var xs, ys := ids[..i], ids[..i + 1];
    assert ys == xs + [ids[i]];
    if id == ids[i] && id in xs {
      var j :| 0 <= j < |xs| && xs[j] == id;
      assert ys[j] == id && ys[i] == id;
    }
    if Twice(xs, id) {
      var j, k :| 0 <= j < k < |xs| && xs[j] == id && xs[k] == id;
      assert ys[j] == id && ys[k] == id;
    }
    if Twice(ys, id) {
      var j, k :| 0 <= j < k < |ys| && ys[j] == id && ys[k] == id;
      assert xs[j] == id && (k < i ==> xs[k] == id);
    }
  }

  // ---- One operation, undone at once -------------------------------------

  /** Undo cannot bring this course back: it is listed twice, or had no category to write again. */
  predicate Lost(courses: Courses, kind: BulkKind, user: User, ids: seq<string>, id: string) {
    id in courses && Reaches(courses, user, ids, id) && (Twice(ids, id) || !Recoverable(kind, courses[id]))
  }

  predicate Regained(courses: Courses, kind: BulkKind, user: User, ids: seq<string>, id: string) {
    Lost(courses, kind, user, ids, id) ==> Put(kind, courses[id]) == courses[id]
  }

  /** Decided before the operation runs: each course undo would lose already has the value being set. */
  predicate RoundTrips(courses: Courses, kind: BulkKind, user: User, ids: seq<string>) {
    forall id :: id in courses ==> Regained(courses, kind, user, ids, id)
  }

  lemma PutTwice(kind: BulkKind, c: Course)
    ensures Put(kind, Put(kind, c)) == Put(kind, c)
    ensures Recoverable(kind, c) ==> WithField(kind, Put(kind, c), c) == c
  {}

  lemma UndoneAt(courses: Courses, kind: BulkKind, user: User, ids: seq<string>, id: string)
    requires id in courses
    ensures Restored(Changed(courses, kind, user, ids), Snapshots(courses, kind, user, ids, |ids|))[id] ==
            if Lost(courses, kind, user, ids, id) then Put(kind, courses[id]) else courses[id]
  {
    RestoredExactly(courses, kind, user, ids, id, Changed(courses, kind, user, ids)[id]);
    PutTwice(kind, courses[id]);
  }

  /** Undo right after an operation restores the catalogue exactly under this condition. */
  lemma UndoRestoresExactly(courses: Courses, kind: BulkKind, user: User, ids: seq<string>)
    ensures Restored(Changed(courses, kind, user, ids), Snapshots(courses, kind, user, ids, |ids|)) == courses
       <==> RoundTrips(courses, kind, user, ids)
  {
    var back := Restored(Changed(courses, kind, user, ids), Snapshots(courses, kind, user, ids, |ids|));
    forall id | id in courses
      ensures back[id] == if Lost(courses, kind, user, ids, id) then Put(kind, courses[id]) else courses[id]
    {
      UndoneAt(courses, kind, user, ids, id);
    }
    if back == courses {
      forall id | id in courses ensures Regained(courses, kind, user, ids, id) { assert back[id] == courses[id]; }
    }
  }

  /** The first category a course is given outlives its undo. */
  lemma FirstCategoryStays(id: string, course: Course, name: string, user: User)
    requires course.category.None? && MayChange(user, course)
    ensures var courses, kind := map[id := course], CategoryUpdate(Some(name));
            var back := Restored(Changed(courses, kind, user, [id]), Snapshots(courses, kind, user, [id], 1));
            back == map[id := course.(category := Some(name))] != courses
  {
    var courses, kind := map[id := course], CategoryUpdate(Some(name));
    assert !Twice([id], id) && Lost(courses, kind, user, [id], id);
    UndoneAt(courses, kind, user, [id], id);
  }

  /**
   * The table takes the value an operation assigns unless that clears a category which is set; so
   * clearing categories never changes the catalogue.
   */
  lemma ClearingChangesNothing(courses: Courses, kind: BulkKind, user: User, ids: seq<string>)
    ensures forall id :: id in courses && Reaches(courses, user, ids, id) ==>
              (Changed(courses, kind, user, ids)[id] == Change(kind, courses[id]) <==>
               kind != CategoryUpdate(None) || courses[id].category.None?)
    ensures Changed(courses, CategoryUpdate(None), user, ids) == courses
  {}

  // ---- A stack of operations ---------------------------------------------

  datatype Request = Request(kind: BulkKind, user: User, ids: seq<string>)

  function RunAll(st: State, rs: seq<Request>): State {
    if rs == [] then st
    else
      var last := rs[|rs| - 1];
      RunBulk(RunAll(st, rs[..|rs| - 1]), last.kind, last.user, last.ids)
  }

  /** Undo the operations from number `from` on, newest first, each by its own user. */
  function UndoDown(st: State, from: nat, users: seq<User>): State
    decreases |users|
  {
    if users == [] then st
    else UndoDown(UndoBulk(st, from + |users| - 1, users[|users| - 1]).0, from, users[..|users| - 1])
  }

  /** The initiator, or an admin or moderator. */
  predicate MayUndo(user: User, r: Request) { user.privileged || user.id == r.user.id }

  /** Operation ids are handed out in increasing order. */
  ghost predicate FreshOps(st: State) { forall id :: id in st.ops ==> id < st.nextOp }

  lemma {:induction false} RunAllFresh(st: State, rs: seq<Request>)
    requires FreshOps(st)
    ensures RunAll(st, rs).nextOp == st.nextOp + |rs| && FreshOps(RunAll(st, rs))
  {
    if rs != [] { RunAllFresh(st, rs[..|rs| - 1]); }
  }

  /** Undoing only looks at, and only changes, the operations it undoes. */
  lemma {:induction false} UndoDownIgnores(a: State, b: State, from: nat, users: seq<User>)
    requires a.courses == b.courses
    requires forall id :: id < from + |users| ==> (id in a.ops <==> id in b.ops) && (id in a.ops ==> a.ops[id] == b.ops[id])
    ensures UndoDown(a, from, users).courses == UndoDown(b, from, users).courses
    decreases |users|
  {
    if users != [] {
      var id, user := from + |users| - 1, users[|users| - 1];
      UndoDownIgnores(UndoBulk(a, id, user).0, UndoBulk(b, id, user).0, from, users[..|users| - 1]);
    }
  }

  /** What undoing the newest operation leaves for the ones before it. */
  lemma TopUndone(st: State, r: Request, user: User)
    requires FreshOps(st) && MayUndo(user, r)
    ensures var undone := UndoBulk(RunBulk(st, r.kind, r.user, r.ids), st.nextOp, user).0;
            (undone.courses == st.courses <==> RoundTrips(st.courses, r.kind, r.user, r.ids)) &&
            undone.courses == Restored(Changed(st.courses, r.kind, r.user, r.ids),
                                       Snapshots(st.courses, r.kind, r.user, r.ids, |r.ids|)) &&
            forall id :: id < st.nextOp ==> (id in st.ops <==> id in undone.ops) && (id in st.ops ==> undone.ops[id] == st.ops[id])
  {
    UndoRestoresExactly(st.courses, r.kind, r.user, r.ids);
  }

  /** Each operation round-trips in the state it starts from. */
  predicate RoundTripsAlong(st: State, rs: seq<Request>) {
    rs == [] ||
    (RoundTripsAlong(st, rs[..|rs| - 1]) &&
     var last := rs[|rs| - 1];
     RoundTrips(RunAll(st, rs[..|rs| - 1]).courses, last.kind, last.user, last.ids))
  }

  lemma TopThenRest(st: State, r: Request, from: nat, users: seq<User>, user: User)
    requires FreshOps(st) && RoundTrips(st.courses, r.kind, r.user, r.ids) && MayUndo(user, r)
    requires st.nextOp == from + |users|
    ensures UndoDown(RunBulk(st, r.kind, r.user, r.ids), from, users + [user]).courses == UndoDown(st, from, users).courses
  {
    TopUndone(st, r, user);
    assert (users + [user])[..|users|] == users;
    UndoDownIgnores(UndoBulk(RunBulk(st, r.kind, r.user, r.ids), st.nextOp, user).0, st, from, users);
  }

  /** Undoing any such sequence newest first, each by a user who may, restores the catalogue. */
  lemma {:induction false} StackRoundTrip(st: State, rs: seq<Request>, users: seq<User>)
    requires FreshOps(st) && RoundTripsAlong(st, rs)
    requires |users| == |rs| && forall i :: 0 <= i < |rs| ==> MayUndo(users[i], rs[i])
    ensures UndoDown(RunAll(st, rs), st.nextOp, users).courses == st.courses
    decreases |rs|
  {
    if rs != [] {
      var n := |rs| - 1;
      RunAllFresh(st, rs[..n]);
      TopThenRest(RunAll(st, rs[..n]), rs[n], st.nextOp, users[..n], users[n]);
      assert users[..n] + [users[n]] == users;
      StackRoundTrip(st, rs[..n], users[..n]);
    }
  }

  /** The operation gives a course its first category. */
  predicate NamesFirst(courses: Courses, r: Request, id: string) {
    id in courses && Reaches(courses, r.user, r.ids, id) && courses[id].category.None? &&
    r.kind.CategoryUpdate? && r.kind.category.Some?
  }

  ghost predicate NoneNamedFirst(courses: Courses, rs: seq<Request>) {
    forall i, id :: 0 <= i < |rs| ==> !NamesFirst(courses, rs[i], id)
  }

  /** Operations keep a course's owner, and no operation ever takes a category away. */
  lemma {:induction false} CategoriesStay(st: State, rs: seq<Request>, id: string)
    requires id in st.courses
    ensures var now := RunAll(st, rs).courses;
            id in now && now[id].instructorId == st.courses[id].instructorId &&
            (st.courses[id].category.Some? ==> now[id].category.Some?)
  {
    if rs != [] { CategoriesStay(st, rs[..|rs| - 1], id); }
  }

  lemma {:induction false} AssigningKeepsOwner(snapshots: seq<Snapshot>, id: string, course: Course)
    ensures Written(course, RestoredAt(snapshots, id, course)).instructorId == course.instructorId
    ensures course.category.Some? ==> Written(course, RestoredAt(snapshots, id, course)).category.Some?
  {
    if snapshots != [] { AssigningKeepsOwner(snapshots[..|snapshots| - 1], id, course); }
  }

  lemma {:induction false} UndoingKeepsCategories(st: State, from: nat, users: seq<User>, id: string)
    requires id in st.courses && st.courses[id].category.Some?
    ensures id in UndoDown(st, from, users).courses && UndoDown(st, from, users).courses[id].category.Some?
    decreases |users|
  {
    if users != [] {
      var opId := from + |users| - 1;
      if opId in st.ops { AssigningKeepsOwner(st.ops[opId].snapshots, id, st.courses[id]); }
      UndoingKeepsCategories(UndoBulk(st, opId, users[|users| - 1]).0, from, users[..|users| - 1], id);
    }
  }

  lemma {:induction false} AlongWhenNoneFirst(st: State, rs: seq<Request>)
    requires NoneNamedFirst(st.courses, rs) && forall i :: 0 <= i < |rs| ==> Distinct(rs[i].ids)
    ensures RoundTripsAlong(st, rs)
  {
    if rs != [] {
      var n := |rs| - 1;
      AlongWhenNoneFirst(st, rs[..n]);
      RunAllAt(st, rs[..n]);
      var now := RunAll(st, rs[..n]).courses;
      forall id | id in now ensures Regained(now, rs[n].kind, rs[n].user, rs[n].ids, id) {
        CategoriesStay(st, rs[..n], id);
        assert !NamesFirst(st.courses, rs[n], id);
      }
    }
  }

  lemma {:induction false} NamedStays(st: State, rs: seq<Request>, i: nat, id: string)
    requires i < |rs| && NamesFirst(st.courses, rs[i], id)
    ensures id in RunAll(st, rs).courses && RunAll(st, rs).courses[id].category.Some?
  {
    var n := |rs| - 1;
    CategoriesStay(st, rs[..n], id);
    if i < n { NamedStays(st, rs[..n], i, id); }
    NamedNow(RunAll(st, rs[..n]).courses, rs[n], id);
  }

  lemma NamedNow(courses: Courses, r: Request, id: string)
    requires id in courses
    ensures id in Changed(courses, r.kind, r.user, r.ids)
    ensures courses[id].category.Some? || NamesFirst(courses, r, id) ==>
              Changed(courses, r.kind, r.user, r.ids)[id].category.Some?
  {}

  /**
   * With each id listed once, as the request validation demands, undoing a whole sequence restores the
   * catalogue exactly when none of its operations gives a course its first category.
   */
  lemma StackRoundTripExactly(st: State, rs: seq<Request>, users: seq<User>)
    requires FreshOps(st) && forall i :: 0 <= i < |rs| ==> Distinct(rs[i].ids)
    requires |users| == |rs| && forall i :: 0 <= i < |rs| ==> MayUndo(users[i], rs[i])
    ensures UndoDown(RunAll(st, rs), st.nextOp, users).courses == st.courses <==> NoneNamedFirst(st.courses, rs)
  {
    if NoneNamedFirst(st.courses, rs) {
      AlongWhenNoneFirst(st, rs);
      StackRoundTrip(st, rs, users);
    } else {
      var i, id :| 0 <= i < |rs| && NamesFirst(st.courses, rs[i], id);
      NamedStays(st, rs, i, id);
      UndoingKeepsCategories(RunAll(st, rs), st.nextOp, users, id);
    }
  }

  // ---- Undoing out of order ----------------------------------------------

  datatype Field = Status | Price | Category

  function FieldOf(kind: BulkKind): Field {
    match kind
    case Publish(_) => Status
    case PriceUpdate(_) => Price
    case CategoryUpdate(_) => Category
  }

  /** The later operation writes another field, or none of the courses `ids` lists. */
  predicate Apart(kind: BulkKind, ids: seq<string>, later: Request) {
    FieldOf(later.kind) != FieldOf(kind) || forall id :: id in ids ==> id !in later.ids
  }

  /** What a run of operations does to one course. */
  function Effect(rs: seq<Request>, id: string, course: Course): Course {
    if rs == [] then course
    else
      var before, last := Effect(rs[..|rs| - 1], id, course), rs[|rs| - 1];
      if id in last.ids && MayChange(last.user, before) then Put(last.kind, before) else before
  }

  lemma {:induction false} RunAllAt(st: State, rs: seq<Request>)
    ensures RunAll(st, rs).courses.Keys == st.courses.Keys
    ensures forall id :: id in st.courses ==> RunAll(st, rs).courses[id] == Effect(rs, id, st.courses[id])
  {
    if rs != [] { RunAllAt(st, rs[..|rs| - 1]); }
  }

  /** Work on other fields commutes with the operation and leaves its field alone. */
  lemma {:induction false} EffectApart(rs: seq<Request>, kind: BulkKind, ids: seq<string>, id: string, course: Course)
    requires id in ids && forall i :: 0 <= i < |rs| ==> Apart(kind, ids, rs[i])
    ensures Effect(rs, id, Put(kind, course)) == Put(kind, Effect(rs, id, course))
    ensures WithField(kind, Effect(rs, id, course), course) == Effect(rs, id, course)
  {
    if rs != [] {
      var n := |rs| - 1;
      EffectApart(rs[..n], kind, ids, id, course);
      assert Apart(kind, ids, rs[n]);
      if id in rs[n].ids { FieldsCommute(kind, rs[n].kind, Effect(rs[..n], id, course), course); }
    }
  }

  lemma FieldsCommute(kind: BulkKind, other: BulkKind, x: Course, c: Course)
    requires FieldOf(kind) != FieldOf(other)
    ensures Put(other, Put(kind, x)) == Put(kind, Put(other, x))
    ensures WithField(kind, Put(other, x), c) == Put(other, WithField(kind, x, c))
  {}

  /** The field is the course's own, so the operation would change it exactly if it changes the course. */
  lemma SameField(kind: BulkKind, x: Course, c: Course)
    requires WithField(kind, x, c) == x
    ensures Put(kind, x) == x <==> Put(kind, c) == c
    ensures Recoverable(kind, c) ==> WithField(kind, Put(kind, x), c) == x
    ensures Put(kind, Put(kind, x)) == Put(kind, x)
  {}

  lemma UndoneLaterAt(st: State, r: Request, rs: seq<Request>, id: string)
    requires id in st.courses && forall i :: 0 <= i < |rs| ==> Apart(r.kind, r.ids, rs[i])
    ensures (var now := Effect(rs, id, Changed(st.courses, r.kind, r.user, r.ids)[id]);
             Written(now, RestoredAt(Snapshots(st.courses, r.kind, r.user, r.ids, |r.ids|), id, now)) ==
             Effect(rs, id, st.courses[id]))
       <==> Regained(st.courses, r.kind, r.user, r.ids, id)
  {
    var course := st.courses[id];
    var now := Effect(rs, id, Changed(st.courses, r.kind, r.user, r.ids)[id]);
    RestoredExactly(st.courses, r.kind, r.user, r.ids, id, now);
    if Reaches(st.courses, r.user, r.ids, id) {
      EffectApart(rs, r.kind, r.ids, id, course);
      SameField(r.kind, Effect(rs, id, course), course);
    }
  }

  /**
   * Undoing an operation after later ones on other fields or other courses leaves the catalogue as
   * if the operation had never run, exactly when undoing it at once would have restored the catalogue.
   */
  lemma UndoOutOfOrder(st: State, r: Request, rs: seq<Request>, user: User)
    requires FreshOps(st) && MayUndo(user, r)
    requires forall i :: 0 <= i < |rs| ==> Apart(r.kind, r.ids, rs[i])
    ensures UndoBulk(RunAll(RunBulk(st, r.kind, r.user, r.ids), rs), st.nextOp, user).0.courses ==
            RunAll(st, rs).courses
       <==> RoundTrips(st.courses, r.kind, r.user, r.ids)
  {
    var ran := RunBulk(st, r.kind, r.user, r.ids);
    KeepsOperation(ran, rs, st.nextOp);
    MayUndoUndoes(RunAll(ran, rs), st.nextOp, user);
    RestoredLater(st, r, rs);
  }

  /** The catalogue when the operation is undone after the later ones. */
  function UndoneLater(st: State, r: Request, rs: seq<Request>): Courses {
    Restored(RunAll(RunBulk(st, r.kind, r.user, r.ids), rs).courses,
             Snapshots(st.courses, r.kind, r.user, r.ids, |r.ids|))
  }

  lemma RestoredLaterAt(st: State, r: Request, rs: seq<Request>, id: string)
    requires id in st.courses && forall i :: 0 <= i < |rs| ==> Apart(r.kind, r.ids, rs[i])
    ensures id in UndoneLater(st, r, rs) && id in RunAll(st, rs).courses
    ensures UndoneLater(st, r, rs)[id] == RunAll(st, rs).courses[id]
       <==> Regained(st.courses, r.kind, r.user, r.ids, id)
  {
    RunAllAt(RunBulk(st, r.kind, r.user, r.ids), rs);
    RunAllAt(st, rs);
    UndoneLaterAt(st, r, rs, id);
  }

  lemma LaterKeys(st: State, r: Request, rs: seq<Request>)
    ensures UndoneLater(st, r, rs).Keys == RunAll(st, rs).courses.Keys == st.courses.Keys
  {
    RunAllAt(RunBulk(st, r.kind, r.user, r.ids), rs);
    RunAllAt(st, rs);
  }

  lemma RestoredLater(st: State, r: Request, rs: seq<Request>)
    requires forall i :: 0 <= i < |rs| ==> Apart(r.kind, r.ids, rs[i])
    ensures UndoneLater(st, r, rs) == RunAll(st, rs).courses <==> RoundTrips(st.courses, r.kind, r.user, r.ids)
  {
    LaterKeys(st, r, rs);
    forall id | id in st.courses
      ensures id in UndoneLater(st, r, rs) && id in RunAll(st, rs).courses
      ensures UndoneLater(st, r, rs)[id] == RunAll(st, rs).courses[id]
         <==> Regained(st.courses, r.kind, r.user, r.ids, id)
    {
      RestoredLaterAt(st, r, rs, id);
    }
    SameEverywhere(UndoneLater(st, r, rs), RunAll(st, rs).courses);
  }

  lemma SameEverywhere(a: Courses, b: Courses)
    requires a.Keys == b.Keys
    ensures a == b <==> forall id :: id in a.Keys ==> a[id] == b[id]
  {}

  lemma MayUndoUndoes(st: State, opId: nat, user: User)
    requires opId in st.ops && st.ops[opId].status != Undone
    requires user.privileged || user.id == st.ops[opId].initiatedById
    ensures UndoBulk(st, opId, user).0.courses == Restored(st.courses, st.ops[opId].snapshots)
  {}

  lemma {:induction false} KeepsOperation(st: State, rs: seq<Request>, opId: nat)
    requires opId in st.ops && opId < st.nextOp
    ensures opId in RunAll(st, rs).ops && RunAll(st, rs).ops[opId] == st.ops[opId]
    ensures opId < RunAll(st, rs).nextOp
  {
    if rs != [] { KeepsOperation(st, rs[..|rs| - 1], opId); }
  }

  // ---- Undone for good ---------------------------------------------------

  datatype Action = Bulk(r: Request) | Undo(opId: nat, user: User) | OtherWork(courses: Courses)

  function Step(st: State, a: Action): State {
    match a
    case Bulk(r) => RunBulk(st, r.kind, r.user, r.ids)
    case Undo(opId, user) => UndoBulk(st, opId, user).0
    case OtherWork(courses) => st.(courses := courses)
  }

  function Perform(st: State, actions: seq<Action>): State {
    if actions == [] then st else Step(Perform(st, actions[..|actions| - 1]), actions[|actions| - 1])
  }

  lemma {:induction false} StaysUndone(st: State, actions: seq<Action>, opId: nat)
    requires FreshOps(st) && opId in st.ops && st.ops[opId].status == Undone
    ensures FreshOps(Perform(st, actions))
    ensures opId in Perform(st, actions).ops && Perform(st, actions).ops[opId] == st.ops[opId]
  {
    if actions != [] { StaysUndone(st, actions[..|actions| - 1], opId); }
  }

  /** After a successful undo no later undo of that operation succeeds or changes anything. */
  lemma NeverUndoneAgain(st: State, opId: nat, user: User, actions: seq<Action>, again: User)
    requires FreshOps(st) && UndoBulk(st, opId, user).1.None?
    ensures var later := Perform(UndoBulk(st, opId, user).0, actions);
            UndoBulk(later, opId, again).1.Some? && UndoBulk(later, opId, again).0 == later
  {
    StaysUndone(UndoBulk(st, opId, user).0, actions, opId);
  }
}
