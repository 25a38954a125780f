/** Bulk publish, price and category operations with undo (src/courses/courses.service.ts). */
module CourseBulk {
  import opened Prelude
  import opened CourseTypes

  /**
   * A stored course, or the object loaded from it. A stored category of `None` is null; an object's
   * is null or undefined, which every read treats alike (`course.category ?? null`).
   */
  datatype Course = Course(status: CourseStatus, price: real, category: Option<string>, instructorId: string)

  datatype User = User(id: string, privileged: bool)

  datatype BulkKind = Publish(publish: bool) | PriceUpdate(price: real) | CategoryUpdate(category: Option<string>)

  /** The fields a snapshot records; only the operation's own field is present. */
  datatype Previous = Previous(status: Option<CourseStatus>, price: Option<real>, category: Option<Option<string>>)

  const NOTHING := Previous(None, None, None)

  datatype SnapshotError = NoError | NotFound | Forbidden

  datatype Snapshot = Snapshot(courseId: string, previous: Previous, applied: bool, error: SnapshotError)

  datatype BulkStatus = Completed | Partial | Failed | Undone

  datatype BulkOperation = BulkOperation(
    kind: BulkKind, status: BulkStatus, snapshots: seq<Snapshot>,
    totalCount: nat, successCount: nat, failureCount: nat, initiatedById: string)

  datatype UndoError = OperationNotFound | NotInitiator | AlreadyUndone

  // ---- One course --------------------------------------------------------

  function Change(kind: BulkKind, course: Course): Course {
    match kind
    case Publish(publish) => course.(status := if publish then Published else Archived)
    case PriceUpdate(price) => course.(price := price)
    case CategoryUpdate(category) => course.(category := category)
  }

  function Record(kind: BulkKind, course: Course): Previous {
    match kind
    case Publish(_) => NOTHING.(status := Some(course.status))
    case PriceUpdate(_) => NOTHING.(price := Some(course.price))
    case CategoryUpdate(_) => NOTHING.(category := Some(course.category))
  }

  function Restore(course: Course, previous: Previous): Course {
    var c1 := if previous.status.Some? then course.(status := previous.status.value) else course;
    var c2 := if previous.price.Some? then c1.(price := previous.price.value) else c1;
    if previous.category.Some? then c2.(category := previous.category.value) else c2
  }

  /**
   * What the table holds after an object is saved over a stored course: a category that the object
   * leaves undefined is not written, and one it loaded as null is null in the table already.
   */
  function Written(stored: Course, obj: Course): Course {
    obj.(category := if obj.category.Some? then obj.category else stored.category)
  }

  /** What an operation does to a stored course. */
  function Put(kind: BulkKind, course: Course): Course { Written(course, Change(kind, course)) }

  predicate MayChange(user: User, course: Course) { user.privileged || course.instructorId == user.id }

  // ---- The whole catalogue -----------------------------------------------

  type Courses = map<string, Course>

  /** The operation reaches this course: listed, present and allowed. */
  predicate Reaches(courses: Courses, user: User, ids: seq<string>, id: string) {
    id in ids && id in courses && MayChange(user, courses[id])
  }

  function Changed(courses: Courses, kind: BulkKind, user: User, ids: seq<string>): Courses {
    map id | id in courses :: if Reaches(courses, user, ids, id) then Put(kind, courses[id]) else courses[id]
  }

  /** What is recorded for the i-th id; a repeated id records the value already written. */
  function SnapshotAt(courses: Courses, kind: BulkKind, user: User, ids: seq<string>, i: nat): Snapshot
    requires i < |ids|
  {
    var id := ids[i];
    if id !in courses then Snapshot(id, NOTHING, false, NotFound)
    else if !MayChange(user, courses[id]) then Snapshot(id, NOTHING, false, Forbidden)
    else
      var seen := if id in ids[..i] then Change(kind, courses[id]) else courses[id];
      Snapshot(id, Record(kind, seen), true, NoError)
  }

  function Snapshots(courses: Courses, kind: BulkKind, user: User, ids: seq<string>, n: nat): (s: seq<Snapshot>)
    requires n <= |ids|
    ensures |s| == n
  {
    if n == 0 then []
    else Snapshots(courses, kind, user, ids, n - 1) + [SnapshotAt(courses, kind, user, ids, n - 1)]
  }

  function AppliedCount(snapshots: seq<Snapshot>): (n: nat)
    ensures n <= |snapshots|
  {
    if snapshots == [] then 0
    else AppliedCount(snapshots[..|snapshots| - 1]) + (if snapshots[|snapshots| - 1].applied then 1 else 0)
  }

  function StatusOf(success: nat, failure: nat): BulkStatus {
    if success == 0 then Failed else if failure == 0 then Completed else Partial
  }

  function NewOperation(courses: Courses, kind: BulkKind, user: User, ids: seq<string>): BulkOperation {
    var snapshots := Snapshots(courses, kind, user, ids, |ids|);
    var success := AppliedCount(snapshots);
    BulkOperation(kind, StatusOf(success, |ids| - success), snapshots, |ids|, success, |ids| - success, user.id)
  }

  /** A loaded course after the applied snapshots for it are assigned in order. */
  function RestoredAt(snapshots: seq<Snapshot>, id: string, course: Course): Course {
    if snapshots == [] then course
    else
      var last := snapshots[|snapshots| - 1];
      var before := RestoredAt(snapshots[..|snapshots| - 1], id, course);
      if last.applied && last.courseId == id then Restore(before, last.previous) else before
  }

  function Assigned(courses: Courses, snapshots: seq<Snapshot>): Courses {
    map id | id in courses :: RestoredAt(snapshots, id, courses[id])
  }

  /** The catalogue once those objects are saved. */
  function Restored(courses: Courses, snapshots: seq<Snapshot>): Courses {
    map id | id in courses :: Written(courses[id], RestoredAt(snapshots, id, courses[id]))
  }

  datatype State = State(courses: Courses, ops: map<nat, BulkOperation>, nextOp: nat)

  function RunBulk(st: State, kind: BulkKind, user: User, ids: seq<string>): State {
    State(Changed(st.courses, kind, user, ids),
          st.ops[st.nextOp := NewOperation(st.courses, kind, user, ids)], st.nextOp + 1)
  }

  function UndoBulk(st: State, opId: nat, user: User): (State, Option<UndoError>) {
    if opId !in st.ops then (st, Some(OperationNotFound))
    else if st.ops[opId].initiatedById != user.id && !user.privileged then (st, Some(NotInitiator))
    else if st.ops[opId].status == Undone then (st, Some(AlreadyUndone))
    else
      (st.(courses := Restored(st.courses, st.ops[opId].snapshots),
           ops := st.ops[opId := st.ops[opId].(status := Undone)]), None)
  }

  /** The loaded courses after the first `n` ids have been tried. */
  function Loaded(courses: Courses, kind: BulkKind, user: User, ids: seq<string>, n: nat): Courses
    requires n <= |ids|
  {
    map id | id in courses && id in ids ::
      if Reaches(courses, user, ids[..n], id) then Change(kind, courses[id]) else courses[id]
  }

  lemma LoadedStep(courses: Courses, kind: BulkKind, user: User, ids: seq<string>, i: nat)
    requires i < |ids|
    ensures forall id :: id in ids[..i + 1] <==> id in ids[..i] || id == ids[i]
    ensures var found, id := Loaded(courses, kind, user, ids, i), ids[i];
            Loaded(courses, kind, user, ids, i + 1) ==
            if id in courses && MayChange(user, courses[id]) then found[id := Change(kind, found[id])] else found
  {
    assert ids[..i + 1] == ids[..i] + [ids[i]];
    ChangeTwice(kind, if ids[i] in courses then courses[ids[i]] else Course(Draft, 0.0, None, ""));
  }

  /** `courseRepo.save(toSave)` */
  function Saved(courses: Courses, found: Courses, toSave: seq<string>): Courses {
    map id | id in courses :: if id in toSave && id in found then Written(courses[id], found[id]) else courses[id]
  }

  lemma ChangedIsLoaded(courses: Courses, kind: BulkKind, user: User, ids: seq<string>)
    ensures forall toSave | (forall id :: id in toSave <==> Reaches(courses, user, ids, id)) ::
              Saved(courses, Loaded(courses, kind, user, ids, |ids|), toSave) == Changed(courses, kind, user, ids)
  {
    assert ids[..|ids|] == ids;
  }

  lemma SavedIsRestored(courses: Courses, snapshots: seq<Snapshot>, restored: seq<string>)
    requires forall id :: id in courses && id !in restored ==> Assigned(courses, snapshots)[id] == courses[id]
    ensures Saved(courses, Assigned(courses, snapshots), restored) == Restored(courses, snapshots)
  {}

  lemma ChangeTwice(kind: BulkKind, course: Course)
    ensures Change(kind, Change(kind, course)) == Change(kind, course)
    ensures Change(kind, course).instructorId == course.instructorId
  {}

  class CoursesService {
    var courses: Courses
    var ops: map<nat, BulkOperation>
    var nextOp: nat

    constructor (courses: Courses)
      ensures Current() == State(courses, map[], 0)
    {
      this.courses, ops, nextOp := courses, map[], 0;
    }

    function Current(): State
      reads this
    {
      State(courses, ops, nextOp)
    }

    /** The loop of `runBulkOperation`: change the loaded courses and take their snapshots. */
    method ApplyEach(kind: BulkKind, ids: seq<string>, user: User)
      returns (found: Courses, toSave: seq<string>, snapshots: seq<Snapshot>)
      ensures found == Loaded(courses, kind, user, ids, |ids|)
      ensures forall id :: id in toSave <==> Reaches(courses, user, ids, id)
      ensures snapshots == Snapshots(courses, kind, user, ids, |ids|)
    {
      found := map id | id in courses && id in ids :: courses[id];
      snapshots, toSave := [], [];
      for i := 0 to |ids|
        invariant found == Loaded(courses, kind, user, ids, i)
        invariant snapshots == Snapshots(courses, kind, user, ids, i)
        invariant forall id :: id in toSave <==> Reaches(courses, user, ids[..i], id)
      {
        var id := ids[i];
        LoadedStep(courses, kind, user, ids, i);
        if id !in found {
          snapshots := snapshots + [Snapshot(id, NOTHING, false, NotFound)];
        } else if !user.privileged && found[id].instructorId != user.id {
          snapshots := snapshots + [Snapshot(id, NOTHING, false, Forbidden)];
        } else {
          snapshots := snapshots + [Snapshot(id, Record(kind, found[id]), true, NoError)];
          found := found[id := Change(kind, found[id])];
          toSave := toSave + [id];
        }
      }
      assert ids[..|ids|] == ids;
    }

    method RunBulkOperation(kind: BulkKind, ids: seq<string>, user: User) returns (op: BulkOperation)
      modifies this
      ensures Current() == RunBulk(old(Current()), kind, user, ids)
      ensures op == NewOperation(old(courses), kind, user, ids)
    {
      var found, toSave, snapshots := ApplyEach(kind, ids, user);
      ChangedIsLoaded(courses, kind, user, ids);
      courses := Saved(courses, found, toSave);
      var successCount := AppliedCount(snapshots);
      var failureCount := |snapshots| - successCount;
      op := BulkOperation(kind, StatusOf(successCount, failureCount), snapshots, |ids|,
                          successCount, failureCount, user.id);
      ops, nextOp := ops[nextOp := op], nextOp + 1;
    }

    method UndoBulkOperation(opId: nat, user: User) returns (error: Option<UndoError>)
      modifies this
      ensures (Current(), error) == UndoBulk(old(Current()), opId, user)
    {
      if opId !in ops { return Some(OperationNotFound); }
      var op := ops[opId];
      if op.initiatedById != user.id && !user.privileged { return Some(NotInitiator); }
      if op.status == Undone { return Some(AlreadyUndone); }
      var courseById, restored := courses, [];
      for i := 0 to |op.snapshots|
        invariant courses == old(courses) && ops == old(ops) && nextOp == old(nextOp)
        invariant courseById == Assigned(courses, op.snapshots[..i])
        invariant forall id :: id in courses && id !in restored ==> courseById[id] == courses[id]
      {
        var snap := op.snapshots[i];
        assert op.snapshots[..i + 1][..i] == op.snapshots[..i];
        if snap.applied && snap.courseId in courseById {
          courseById := courseById[snap.courseId := Restore(courseById[snap.courseId], snap.previous)];
          restored := restored + [snap.courseId];
        }
      }
      assert op.snapshots[..|op.snapshots|] == op.snapshots;
      SavedIsRestored(courses, op.snapshots, restored);
      courses := Saved(courses, courseById, restored);
      ops := ops[opId := op.(status := Undone)];
      error := None;
    }
  }
}
