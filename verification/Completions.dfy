/** When enrolments are accepted and when courses are completed (src/courses/enrollments.service.ts). */
module Completions {
  import opened Prelude
  import opened CourseTypes
  import opened Enrollments
  import opened BulkEnrollment
  import opened PrerequisiteChains

  // ---- Progress and completion -------------------------------------------

  /** Progress lies between 0 and 100, and a row is completed exactly at 100. */
  predicate Marked(row: Row) {
    0.0 <= row.progress <= 100.0 && (row.status == Completed <==> row.progress == 100.0)
  }

  ghost predicate AllMarked(rows: map<nat, Row>) { forall id :: id in rows ==> Marked(rows[id]) }

  lemma {:induction false} OneByOneMarked(st: State, items: seq<Item>)
    requires AllMarked(st.rows)
    ensures AllMarked(OneByOne(st, items).rows)
  {
    if items != [] { OneByOneMarked(st, items[..|items| - 1]); }
  }

  lemma StepMarked(st: State, a: Action)
    requires AllMarked(st.rows)
    ensures AllMarked(Step(st, a).rows)
  {
    if a.BulkEnroll? {
      CommittedLikeEnroll(st, a.items);
      OneByOneMarked(st, a.items);
    }
  }

  lemma {:induction false} RunMarked(st: State, actions: seq<Action>)
    requires AllMarked(st.rows)
    ensures AllMarked(Run(st, actions).rows)
  {
    if actions != [] {
      RunMarked(st, actions[..|actions| - 1]);
      StepMarked(Run(st, actions[..|actions| - 1]), actions[|actions| - 1]);
    }
  }

  /** In every run a row is completed exactly when its progress is 100, and progress stays within 0 and 100. */
  lemma CompletedAtHundred(prerequisite: map<string, string>, courses: map<string, CourseStatus>,
                           actions: seq<Action>, id: nat)
    ensures var rows := Run(Opening(prerequisite, courses), actions).rows;
            id in rows ==> 0.0 <= rows[id].progress <= 100.0 && (rows[id].status == Completed <==> rows[id].progress == 100.0)
  {
    RunMarked(Opening(prerequisite, courses), actions);
  }

  // ---- Events ------------------------------------------------------------

  /** The action is its owner's update to 100 of an enrolment in `c` that is not there yet. */
  predicate Completes(st: State, a: Action, u: string, c: string) {
    a.UpdateProgress? && a.progress == 100.0 && a.id in st.rows && a.u == u &&
    st.rows[a.id].userId == u && st.rows[a.id].courseId == c && st.rows[a.id].progress < 100.0
  }

  lemma {:induction false} AnnouncedOnlyEnrols(items: seq<Item>, u: string, c: string)
    ensures multiset(Announced(items))[CourseCompleted(u, c)] == 0
  {
    if items != [] {
      AnnouncedOnlyEnrols(items[..|items| - 1], u, c);
    }
  }

  lemma Appended(log: seq<AppEvent>, more: seq<AppEvent>, e: AppEvent)
    ensures multiset(log + more)[e] == multiset(log)[e] + multiset(more)[e]
  {}

  lemma ProgressLogs(st: State, a: Action, u: string, c: string)
    requires AllMarked(st.rows) && a.UpdateProgress?
    ensures multiset(Step(st, a).log)[CourseCompleted(u, c)] ==
            multiset(st.log)[CourseCompleted(u, c)] + (if Completes(st, a, u, c) then 1 else 0)
  {
    if Step(st, a).log != st.log {
      Appended(st.log, [CourseCompleted(st.rows[a.id].userId, st.rows[a.id].courseId)], CourseCompleted(u, c));
    }
  }

  lemma OthersLogNoCompletion(st: State, a: Action, u: string, c: string)
    requires !a.UpdateProgress?
    ensures multiset(Step(st, a).log)[CourseCompleted(u, c)] == multiset(st.log)[CourseCompleted(u, c)]
  {
    var e := CourseCompleted(u, c);
    match a
    case Enroll(v, d) => Appended(st.log, [CourseEnrolled(v, d)], e);
    case BulkEnroll(items) =>
      AnnouncedOnlyEnrols(BatchOf(st, items).saved, u, c);
      Appended(st.log, Announced(BatchOf(st, items).saved), e);
    case Unenroll(id) =>
      if id in st.rows { Appended(st.log, [CourseUnenrolled(st.rows[id].userId, st.rows[id].courseId)], e); }
    case CatalogueChanges(_) =>
  }

  /**
   * In every reachable state an action logs that a user completed a course exactly when it is that user's
   * own update to 100 of an enrolment in it that is not complete; it logs it once, and no other action does.
   */
  lemma CompletionLoggedExactly(prerequisite: map<string, string>, courses: map<string, CourseStatus>,
                                actions: seq<Action>, a: Action, u: string, c: string)
    ensures var st := Run(Opening(prerequisite, courses), actions);
            multiset(Step(st, a).log)[CourseCompleted(u, c)] ==
            multiset(st.log)[CourseCompleted(u, c)] + (if Completes(st, a, u, c) then 1 else 0)
  {
    RunMarked(Opening(prerequisite, courses), actions);
    var st := Run(Opening(prerequisite, courses), actions);
    if a.UpdateProgress? { ProgressLogs(st, a, u, c); } else { OthersLogNoCompletion(st, a, u, c); }
  }

  // ---- What each call accepts --------------------------------------------

  /** An update is refused for an unknown row, a stranger, a number out of range or a step back, in that order. */
  lemma ProgressExactly(st: State, id: nat, progress: real, u: string)
    ensures var (next, r) := ProgressUpdated(st, id, progress, u);
            var mine := id in st.rows && st.rows[id].userId == u;
            (r == Err(EnrollmentNotFound) <==> id !in st.rows) && (r == Err(NotYours) <==> id in st.rows && !mine) &&
            (r == Err(ProgressOutOfRange) <==> mine && !(0.0 <= progress <= 100.0)) &&
            (r == Err(ProgressDecreases) <==> mine && 0.0 <= progress <= 100.0 && progress < st.rows[id].progress) &&
            (r.Err? ==> next == st) &&
            (r.Ok? ==>
               mine && next.rows.Keys == st.rows.Keys && next.rows[id] == r.value && next.nextId == st.nextId &&
               r.value.progress == progress && r.value.userId == u && r.value.courseId == st.rows[id].courseId &&
               forall other :: other in st.rows && other != id ==> next.rows[other] == st.rows[other])
  {}

  /** The prerequisite is still there and the user has no completed row for it. */
  ghost predicate Owes(st: State, u: string, c: string) {
    c in st.prerequisite && st.prerequisite[c] in st.courses &&
    forall id :: id in st.rows && st.rows[id].userId == u && st.rows[id].courseId == st.prerequisite[c] ==>
      st.rows[id].status != Completed
  }

  /** Enrolment goes through exactly for a published course the user is not in and owes nothing for. */
  lemma EnrollExactly(st: State, u: string, c: string)
    requires FreshIds(st.rows, st.nextId)
    ensures var (next, r) := Enrolled(st, u, c);
            var open, there := c in st.courses && st.courses[c] == Published, HasRow(st.rows, u, c);
            (r.Ok? <==> open && !there && !Owes(st, u, c)) &&
            (r == Err(CourseNotFound) <==> c !in st.courses) &&
            (r == Err(AlreadyEnrolled) <==> open && there) &&
            (r == Err(PrerequisiteMissing) <==> open && !there && Owes(st, u, c)) &&
            (r.Err? ==> next == st) &&
            (r.Ok? ==>
               r.value !in st.rows && next.rows == st.rows[r.value := Row(u, c, Active, 0.0)] &&
               next.log == st.log + [CourseEnrolled(u, c)] && next.courses == st.courses && FreshIds(next.rows, next.nextId))
  {}

  /** After unenrolling in any reachable state the pair is gone and every other row is as it was. */
  lemma UnenrolledExactly(prerequisite: map<string, string>, courses: map<string, CourseStatus>,
                          actions: seq<Action>, id: nat)
    ensures var st := Run(Opening(prerequisite, courses), actions);
            id in st.rows ==>
              var next := Unenrolled(st, id);
              !HasRow(next.rows, st.rows[id].userId, st.rows[id].courseId) &&
              next.rows.Keys == st.rows.Keys - {id} && (forall k :: k in next.rows ==> next.rows[k] == st.rows[k]) &&
              next.log == st.log + [CourseUnenrolled(st.rows[id].userId, st.rows[id].courseId)]
  {
    PairsStayUnique(prerequisite, courses, actions);
  }

  /**
   * What a batch reports: the failures are the hopeless items; when there are none, the enrolled are the
   * newcomers, each listed pair counted once, and the rest are skipped. Every item not enrolled has an error.
   */
  lemma BatchReports(st: State, items: seq<Item>)
    requires FreshIds(st.rows, st.nextId)
    ensures var r := BulkEnrolled(st, items).1;
            r.failed == HopelessCount(st, items) &&
            r.enrolled == (if r.failed > 0 then 0 else |Newcomers(st, items)|) &&
            r.skipped == |items| - r.failed - |Newcomers(st, items)| && |r.errors| == r.skipped + r.failed
  {
    BatchClosed(st, items);
    ErrorsCount(st, items);
  }

  /** Each error names an item of the batch with its own cause: already in, or the refusal it met from the start. */
  lemma {:induction false} ErrorsExplained(st: State, items: seq<Item>, e: (Item, Rejection))
    requires FreshIds(st.rows, st.nextId)
    ensures e in BatchOf(st, items).errors ==>
              e.0 in items && (Refusal(st, st.rows, e.0.userId, e.0.courseId) == Some(e.1) ||
                               (Newcomer(st, e.0) && e.1 == AlreadyEnrolled))
  {
    if items != [] {
      var n := |items| - 1;
      ErrorsExplained(st, items[..n], e);
      BatchClosed(st, items[..n]);
      RefusalInBatch(st, BatchOf(st, items[..n]).rows, items[..n], items[n]);
      assert items == items[..n] + [items[n]];
    }
  }

  lemma {:induction false} ErrorsCount(st: State, items: seq<Item>)
    ensures |BatchOf(st, items).errors| == BatchOf(st, items).skipped + BatchOf(st, items).failed
  {
    if items != [] { ErrorsCount(st, items[..|items| - 1]); }
  }
}
