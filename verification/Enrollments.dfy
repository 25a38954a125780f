/** Enrolment, bulk enrolment, progress and unenrolment (src/courses/enrollments.service.ts). */
module Enrollments {
  import opened Prelude
  import opened CourseTypes

  datatype EnrollmentStatus = Active | Completed

  datatype Row = Row(userId: string, courseId: string, status: EnrollmentStatus, progress: real)

  /** The application events whose order the model keeps. */
  datatype AppEvent = CourseEnrolled(u: string, c: string) | CourseCompleted(u: string, c: string)
                    | CourseUnenrolled(u: string, c: string)

  datatype Rejection = CourseNotFound | CourseNotPublished(status: CourseStatus) | AlreadyEnrolled
                     | PrerequisiteMissing | EnrollmentNotFound | NotYours | ProgressOutOfRange | ProgressDecreases

  datatype Item = Item(userId: string, courseId: string)

  /**
   * The enrolment table, the courses that exist with their status, and the events emitted so far.
   * `prerequisite` maps a course to the one required before it; the pointer outlives the course.
   */
  datatype State = State(
    prerequisite: map<string, string>,
    courses: map<string, CourseStatus>,
    rows: map<nat, Row>,
    nextId: nat,
    log: seq<AppEvent>
  )

  /** Ids are handed out in increasing order. */
  ghost predicate FreshIds(rows: map<nat, Row>, nextId: nat) { forall id :: id in rows ==> id < nextId }

  // ---- Lookups -----------------------------------------------------------

  predicate HasRow(rows: map<nat, Row>, u: string, c: string) {
    exists id :: id in rows && rows[id].userId == u && rows[id].courseId == c
  }

  predicate HasCompleted(rows: map<nat, Row>, u: string, c: string) {
    exists id :: id in rows && rows[id].userId == u && rows[id].courseId == c && rows[id].status == Completed
  }

  /** A prerequisite that has been soft-deleted is not loaded, and so not asked for. */
  predicate MeetsPrerequisite(st: State, rows: map<nat, Row>, u: string, c: string) {
    c !in st.prerequisite || st.prerequisite[c] !in st.courses || HasCompleted(rows, u, st.prerequisite[c])
  }

  /** The checks of `enroll` and of one item of `bulkEnroll`, in their order. */
  function Refusal(st: State, rows: map<nat, Row>, u: string, c: string): Option<Rejection> {
    if c !in st.courses then Some(CourseNotFound)
    else if st.courses[c] != Published then Some(CourseNotPublished(st.courses[c]))
    else if HasRow(rows, u, c) then Some(AlreadyEnrolled)
    else if !MeetsPrerequisite(st, rows, u, c) then Some(PrerequisiteMissing)
    else None
  }

  function NewRow(u: string, c: string): Row { Row(u, c, Active, 0.0) }

  // ---- What each operation should do -------------------------------------

  function Enrolled(st: State, u: string, c: string): (State, Result<nat, Rejection>) {
    match Refusal(st, st.rows, u, c)
    case Some(why) => (st, Err(why))
    case None =>
      (st.(rows := st.rows[st.nextId := NewRow(u, c)], nextId := st.nextId + 1,
           log := st.log + [CourseEnrolled(u, c)]),
       Ok(st.nextId))
  }

  /** The open transaction of a bulk enrolment. */
  datatype Batch = Batch(rows: map<nat, Row>, nextId: nat, saved: seq<Item>,
                         skipped: nat, failed: nat, errors: seq<(Item, Rejection)>)

  function BatchStep(st: State, b: Batch, item: Item): Batch {
    match Refusal(st, b.rows, item.userId, item.courseId)
    case Some(AlreadyEnrolled) => b.(skipped := b.skipped + 1, errors := b.errors + [(item, AlreadyEnrolled)])
    case Some(why) => b.(failed := b.failed + 1, errors := b.errors + [(item, why)])
    case None =>
      b.(rows := b.rows[b.nextId := NewRow(item.userId, item.courseId)], nextId := b.nextId + 1,
         saved := b.saved + [item])
  }

  function BatchOf(st: State, items: seq<Item>): Batch {
    if items == [] then Batch(st.rows, st.nextId, [], 0, 0, [])
    else BatchStep(st, BatchOf(st, items[..|items| - 1]), items[|items| - 1])
  }

  datatype BulkResult = BulkResult(enrolled: nat, skipped: nat, failed: nat, errors: seq<(Item, Rejection)>)

  function Announced(items: seq<Item>): seq<AppEvent> {
    if items == [] then []
    else Announced(items[..|items| - 1]) + [CourseEnrolled(items[|items| - 1].userId, items[|items| - 1].courseId)]
  }

  function BulkEnrolled(st: State, items: seq<Item>): (State, BulkResult) {
    var b := BatchOf(st, items);
    if b.failed > 0 then (st, BulkResult(0, b.skipped, b.failed, b.errors))
    else (st.(rows := b.rows, nextId := b.nextId, log := st.log + Announced(b.saved)),
          BulkResult(|b.saved|, b.skipped, 0, b.errors))
  }

  function ProgressUpdated(st: State, id: nat, progress: real, u: string): (State, Result<Row, Rejection>) {
    if id !in st.rows then (st, Err(EnrollmentNotFound))
    else if st.rows[id].userId != u then (st, Err(NotYours))
    else if progress < 0.0 || progress > 100.0 then (st, Err(ProgressOutOfRange))
    else if progress < st.rows[id].progress then (st, Err(ProgressDecreases))
    else
      var row := st.rows[id];
      var completes := progress == 100.0 && row.status != Completed;
      var next := row.(progress := progress, status := if completes then Completed else row.status);
      (st.(rows := st.rows[id := next],
           log := if completes then st.log + [CourseCompleted(row.userId, row.courseId)] else st.log),
       Ok(next))
  }

  /** `findOne({ userId, courseId })` picks some matching row; with unique pairs there is only one. */
  predicate Matches(st: State, id: nat, u: string, c: string) {
    id in st.rows && st.rows[id].userId == u && st.rows[id].courseId == c
  }

  function Unenrolled(st: State, id: nat): State
    requires id in st.rows
  {
    st.(rows := st.rows - {id}, log := st.log + [CourseUnenrolled(st.rows[id].userId, st.rows[id].courseId)])
  }

  class EnrollmentsService {
    const prerequisite: map<string, string>
    var courses: map<string, CourseStatus>
    var rows: map<nat, Row>
    var nextId: nat
    var log: seq<AppEvent>

    constructor (prerequisite: map<string, string>, courses: map<string, CourseStatus>)
      ensures Current() == State(prerequisite, courses, map[], 0, [])
    {
      this.prerequisite, this.courses := prerequisite, courses;
      rows, nextId, log := map[], 0, [];
    }

    function Current(): State
      reads this
    {
      State(prerequisite, courses, rows, nextId, log)
    }

    method Enroll(u: string, c: string) returns (r: Result<nat, Rejection>)
      modifies this
      ensures (Current(), r) == Enrolled(old(Current()), u, c)
    {
      if c !in courses { return Err(CourseNotFound); }
      if courses[c] != Published { return Err(CourseNotPublished(courses[c])); }
      if HasRow(rows, u, c) { return Err(AlreadyEnrolled); }
      if !MeetsPrerequisite(Current(), rows, u, c) { return Err(PrerequisiteMissing); }
      var id := nextId;
      rows, nextId := rows[id := NewRow(u, c)], nextId + 1;
      log := log + [CourseEnrolled(u, c)];
      r := Ok(id);
    }

    method BulkEnroll(items: seq<Item>) returns (r: BulkResult)
      modifies this
      ensures (Current(), r) == BulkEnrolled(old(Current()), items)
    {
      ghost var st := Current();
      var txRows, txNextId := rows, nextId;
      var enrolled, skipped, failed := 0, 0, 0;
      var errors: seq<(Item, Rejection)> := [];
      var successful: seq<Item> := [];
      for i := 0 to |items|
        invariant Current() == st
        invariant Batch(txRows, txNextId, successful, skipped, failed, errors) == BatchOf(st, items[..i])
        invariant enrolled == |successful|
      {
        var item := items[i];
        assert items[..i + 1][..i] == items[..i];
        var u, c := item.userId, item.courseId;
        if c !in courses {
          failed, errors := failed + 1, errors + [(item, CourseNotFound)];
          continue;
        }
        if courses[c] != Published {
          failed, errors := failed + 1, errors + [(item, CourseNotPublished(courses[c]))];
          continue;
        }
        if HasRow(txRows, u, c) {
          skipped, errors := skipped + 1, errors + [(item, AlreadyEnrolled)];
          continue;
        }
        if !MeetsPrerequisite(Current(), txRows, u, c) {
          failed, errors := failed + 1, errors + [(item, PrerequisiteMissing)];
          continue;
        }
        txRows, txNextId := txRows[txNextId := NewRow(u, c)], txNextId + 1;
        enrolled, successful := enrolled + 1, successful + [item];
      }
      assert items[..|items|] == items;
      if failed > 0 {
        enrolled := 0;
      } else {
        rows, nextId := txRows, txNextId;
        for i := 0 to |successful|
          invariant Current() == st.(rows := txRows, nextId := txNextId, log := st.log + Announced(successful[..i]))
        {
          assert successful[..i + 1][..i] == successful[..i];
          log := log + [CourseEnrolled(successful[i].userId, successful[i].courseId)];
        }
        assert successful[..|successful|] == successful;
      }
      r := BulkResult(enrolled, skipped, failed, errors);
    }

    method UpdateProgress(id: nat, progress: real, u: string) returns (r: Result<Row, Rejection>)
      modifies this
      ensures (Current(), r) == ProgressUpdated(old(Current()), id, progress, u)
    {
      if id !in rows { return Err(EnrollmentNotFound); }
      var row := rows[id];
      if row.userId != u { return Err(NotYours); }
      if progress < 0.0 || progress > 100.0 { return Err(ProgressOutOfRange); }
      if progress < row.progress { return Err(ProgressDecreases); }
      var alreadyCompleted := row.status == Completed;
      row := row.(progress := progress);
      if progress == 100.0 && !alreadyCompleted {
        row := row.(status := Completed);
        log := log + [CourseCompleted(row.userId, row.courseId)];
      }
      rows := rows[id := row];
      r := Ok(row);
    }

    method Unenroll(u: string, c: string) returns (r: Result<nat, Rejection>)
      modifies this
      ensures r.Err? <==> !HasRow(old(rows), u, c)
      ensures r.Err? ==> r.error == EnrollmentNotFound && Current() == old(Current())
      ensures r.Ok? ==> Matches(old(Current()), r.value, u, c) && Current() == Unenrolled(old(Current()), r.value)
    {
      if !HasRow(rows, u, c) { return Err(EnrollmentNotFound); }
      var id :| id in rows && rows[id].userId == u && rows[id].courseId == c;
      rows := rows - {id};
      log := log + [CourseUnenrolled(u, c)];
      r := Ok(id);
    }
  }
}
