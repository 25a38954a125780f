/** What prerequisites guarantee over whole runs of the enrolment service. */
module PrerequisiteChains {
  import opened Prelude
  import opened CourseTypes
  import opened Enrollments
  import opened BulkEnrollment

  datatype Action =
    | Enroll(u: string, c: string)
    | BulkEnroll(items: seq<Item>)
    | UpdateProgress(id: nat, progress: real, u: string)
    | Unenroll(id: nat)
    | CatalogueChanges(courses: map<string, CourseStatus>)   // courses appear, vanish or change status

  function Step(st: State, a: Action): State {
    match a
    case Enroll(u, c) => Enrolled(st, u, c).0
    case BulkEnroll(items) => BulkEnrolled(st, items).0
    case UpdateProgress(id, progress, u) => ProgressUpdated(st, id, progress, u).0
    case Unenroll(id) => if id in st.rows then Unenrolled(st, id) else st
    case CatalogueChanges(courses) => st.(courses := courses)
  }

  function Run(st: State, actions: seq<Action>): State {
    if actions == [] then st else Step(Run(st, actions[..|actions| - 1]), actions[|actions| - 1])
  }

  /** No enrolments yet; the prerequisite pointers stay as they are for the whole run. */
  function Opening(prerequisite: map<string, string>, courses: map<string, CourseStatus>): State {
    State(prerequisite, courses, map[], 0, [])
  }

  /** Every catalogue of the run holds these courses; a soft delete would take one out. */
  predicate Keeping(kept: set<string>, actions: seq<Action>) {
    forall i :: 0 <= i < |actions| && actions[i].CatalogueChanges? ==> kept <= actions[i].courses.Keys
  }

  /** The prerequisite is there whenever somebody enrols: it is kept, or it is the course itself. */
  predicate Binding(prerequisite: map<string, string>, kept: set<string>, c: string) {
    c in prerequisite && (prerequisite[c] in kept || prerequisite[c] == c)
  }

  // ---- The invariant -----------------------------------------------------

  ghost predicate Earlier(log: seq<AppEvent>, i: int, e: AppEvent) {
    exists j :: 0 <= j < i && j < |log| && log[j] == e
  }

  /** Every event in the log rests on the earlier event its operation checked for. */
  ghost predicate Grounded(prerequisite: map<string, string>, kept: set<string>, log: seq<AppEvent>, i: nat)
    requires i < |log|
  {
    match log[i]
    case CourseEnrolled(u, c) => Binding(prerequisite, kept, c) ==> Earlier(log, i, CourseCompleted(u, prerequisite[c]))
    case CourseCompleted(u, c) => Earlier(log, i, CourseEnrolled(u, c))
    case CourseUnenrolled(_, _) => true
  }

  ghost predicate RowLogged(log: seq<AppEvent>, row: Row) {
    Earlier(log, |log|, CourseEnrolled(row.userId, row.courseId)) &&
    (row.status == Completed ==> Earlier(log, |log|, CourseCompleted(row.userId, row.courseId)))
  }

  ghost predicate OneRowPerPair(rows: map<nat, Row>) {
    forall i, j :: i in rows && j in rows && rows[i].userId == rows[j].userId && rows[i].courseId == rows[j].courseId
      ==> i == j
  }

  ghost predicate Sound(st: State, kept: set<string>) {
    kept <= st.courses.Keys &&
    (forall i :: 0 <= i < |st.log| ==> Grounded(st.prerequisite, kept, st.log, i)) &&
    (forall id :: id in st.rows ==> RowLogged(st.log, st.rows[id])) &&
    OneRowPerPair(st.rows) && FreshIds(st.rows, st.nextId)
  }

  lemma EarlierStays(log: seq<AppEvent>, i: int, e: AppEvent, x: AppEvent)
    requires Earlier(log, i, e)
    ensures Earlier(log + [x], i, e) && Earlier(log + [x], |log| + 1, e)
  {
    var j :| 0 <= j < i && j < |log| && log[j] == e;
    assert (log + [x])[j] == e;
  }

  lemma LogGrows(prerequisite: map<string, string>, kept: set<string>, log: seq<AppEvent>, x: AppEvent)
    requires forall i :: 0 <= i < |log| ==> Grounded(prerequisite, kept, log, i)
    requires Grounded(prerequisite, kept, log + [x], |log|)
    ensures forall i :: 0 <= i < |log + [x]| ==> Grounded(prerequisite, kept, log + [x], i)
  {
    forall i | 0 <= i < |log| ensures Grounded(prerequisite, kept, log + [x], i) {
      assert Grounded(prerequisite, kept, log, i);
      match log[i]
      case CourseEnrolled(u, c) =>
        if Binding(prerequisite, kept, c) { EarlierStays(log, i, CourseCompleted(u, prerequisite[c]), x); }
      case CourseCompleted(u, c) => EarlierStays(log, i, CourseEnrolled(u, c), x);
      case _ =>
    }
  }

  lemma RowsStayLogged(rows: map<nat, Row>, log: seq<AppEvent>, x: AppEvent)
    requires forall id :: id in rows ==> RowLogged(log, rows[id])
    ensures forall id :: id in rows ==> RowLogged(log + [x], rows[id])
  {
    forall id | id in rows ensures RowLogged(log + [x], rows[id]) {
      assert RowLogged(log, rows[id]);
      EarlierStays(log, |log|, CourseEnrolled(rows[id].userId, rows[id].courseId), x);
      if rows[id].status == Completed {
        EarlierStays(log, |log|, CourseCompleted(rows[id].userId, rows[id].courseId), x);
      }
    }
  }

  lemma JustLogged(log: seq<AppEvent>, x: AppEvent)
    ensures Earlier(log + [x], |log| + 1, x)
  {
    assert (log + [x])[|log|] == x;
  }

  lemma EnrollSound(st: State, kept: set<string>, u: string, c: string)
    requires Sound(st, kept)
    ensures Sound(Enrolled(st, u, c).0, kept)
  {
    if Refusal(st, st.rows, u, c).None? {
      var x := CourseEnrolled(u, c);
      if Binding(st.prerequisite, kept, c) {
        var id :| id in st.rows && st.rows[id].userId == u && st.rows[id].courseId == st.prerequisite[c] &&
                  st.rows[id].status == Completed;
        assert RowLogged(st.log, st.rows[id]);
        EarlierStays(st.log, |st.log|, CourseCompleted(u, st.prerequisite[c]), x);
      }
      LogGrows(st.prerequisite, kept, st.log, x);
      RowsStayLogged(st.rows, st.log, x);
      JustLogged(st.log, x);
    }
  }

  lemma {:induction false} OneByOneSound(st: State, kept: set<string>, items: seq<Item>)
    requires Sound(st, kept)
    ensures Sound(OneByOne(st, items), kept)
  {
    if items != [] {
      var last := items[|items| - 1];
      OneByOneSound(st, kept, items[..|items| - 1]);
      EnrollSound(OneByOne(st, items[..|items| - 1]), kept, last.userId, last.courseId);
    }
  }

  lemma ProgressSound(st: State, kept: set<string>, id: nat, progress: real, u: string)
    requires Sound(st, kept)
    ensures Sound(ProgressUpdated(st, id, progress, u).0, kept)
  {
    var next := ProgressUpdated(st, id, progress, u).0;
    if next.log != st.log {
      var row := st.rows[id];
      var x := CourseCompleted(row.userId, row.courseId);
      assert RowLogged(st.log, row);
      EarlierStays(st.log, |st.log|, CourseEnrolled(row.userId, row.courseId), x);
      LogGrows(st.prerequisite, kept, st.log, x);
      RowsStayLogged(st.rows, st.log, x);
      JustLogged(st.log, x);
    }
  }

  lemma UnenrollSound(st: State, kept: set<string>, id: nat)
    requires Sound(st, kept) && id in st.rows
    ensures Sound(Unenrolled(st, id), kept)
  {
    var x := CourseUnenrolled(st.rows[id].userId, st.rows[id].courseId);
    LogGrows(st.prerequisite, kept, st.log, x);
    RowsStayLogged(st.rows, st.log, x);
  }

  lemma {:induction false} RunSound(st: State, kept: set<string>, actions: seq<Action>)
    requires Sound(st, kept) && Keeping(kept, actions)
    ensures Sound(Run(st, actions), kept) && Run(st, actions).prerequisite == st.prerequisite
  {
    if actions != [] {
      RunSound(st, kept, actions[..|actions| - 1]);
      var prior := Run(st, actions[..|actions| - 1]);
      match actions[|actions| - 1]
      case Enroll(u, c) => EnrollSound(prior, kept, u, c);
      case BulkEnroll(items) =>
        CommittedLikeEnroll(prior, items);
        OneByOneSound(prior, kept, items);
      case UpdateProgress(id, progress, u) => ProgressSound(prior, kept, id, progress, u);
      case Unenroll(id) => if id in prior.rows { UnenrollSound(prior, kept, id); }
      case CatalogueChanges(_) =>
    }
  }

  lemma OpeningSound(prerequisite: map<string, string>, courses: map<string, CourseStatus>, kept: set<string>)
    requires kept <= courses.Keys
    ensures Sound(Opening(prerequisite, courses), kept)
  {}

  // ---- Chains of prerequisites -------------------------------------------

  /** The course `n` prerequisites back from `c`. */
  function Back(prerequisite: map<string, string>, c: string, n: nat): Option<string>
    decreases n
  {
    if n == 0 then Some(c) else if c in prerequisite then Back(prerequisite, prerequisite[c], n - 1) else None
  }

  /** Each of the `n` prerequisites back from `c` is there whenever it is asked for. */
  predicate BindingChain(prerequisite: map<string, string>, kept: set<string>, c: string, n: nat)
    decreases n
  {
    n == 0 || (Binding(prerequisite, kept, c) && BindingChain(prerequisite, kept, prerequisite[c], n - 1))
  }

  /** An enrolment at position i of the log comes after the completion of everything behind it. */
  lemma {:induction false} ChainCompleted(st: State, kept: set<string>, i: nat, u: string, c: string, n: nat)
    requires Sound(st, kept) && i < |st.log| && st.log[i] == CourseEnrolled(u, c)
    requires n > 0 && BindingChain(st.prerequisite, kept, c, n)
    ensures Back(st.prerequisite, c, n).Some?
    ensures n <= i && Earlier(st.log, i, CourseCompleted(u, Back(st.prerequisite, c, n).value))
    decreases n
  {
    var before := st.prerequisite[c];
    assert Grounded(st.prerequisite, kept, st.log, i);
    var j :| 0 <= j < i && j < |st.log| && st.log[j] == CourseCompleted(u, before);
    assert Grounded(st.prerequisite, kept, st.log, j);
    if n > 1 {
      var k :| 0 <= k < j && k < |st.log| && st.log[k] == CourseEnrolled(u, before);
      ChainCompleted(st, kept, k, u, before, n - 1);
    }
  }

  /**
   * Whoever holds an enrolment has earlier completed every course on its prerequisite chain, as far
   * back as the chain's courses stay in the catalogue.
   */
  lemma ChainCompletedInRuns(prerequisite: map<string, string>, courses: map<string, CourseStatus>,
                             kept: set<string>, actions: seq<Action>, id: nat, n: nat)
    requires kept <= courses.Keys && Keeping(kept, actions)
    ensures var st := Run(Opening(prerequisite, courses), actions);
            id in st.rows && n > 0 && BindingChain(prerequisite, kept, st.rows[id].courseId, n) ==>
              var first := Back(prerequisite, st.rows[id].courseId, n);
              first.Some? && Earlier(st.log, |st.log|, CourseCompleted(st.rows[id].userId, first.value))
  {
    var st := Run(Opening(prerequisite, courses), actions);
    OpeningSound(prerequisite, courses, kept);
    RunSound(Opening(prerequisite, courses), kept, actions);
    if id in st.rows && n > 0 && BindingChain(prerequisite, kept, st.rows[id].courseId, n) {
      var row := st.rows[id];
      assert RowLogged(st.log, row);
      var i :| 0 <= i < |st.log| && st.log[i] == CourseEnrolled(row.userId, row.courseId);
      ChainCompleted(st, kept, i, row.userId, row.courseId, n);
    }
  }

  /** An enrolment on a cycle would need an earlier enrolment in the same course, without end. */
  lemma {:induction false} NoEnrolmentOnCycle(st: State, kept: set<string>, i: nat, u: string, c: string, n: nat)
    requires Sound(st, kept) && i < |st.log| && st.log[i] == CourseEnrolled(u, c)
    requires n > 0 && BindingChain(st.prerequisite, kept, c, n) && Back(st.prerequisite, c, n) == Some(c)
    ensures false
    decreases i
  {
    ChainCompleted(st, kept, i, u, c, n);
    var j :| 0 <= j < i && j < |st.log| && st.log[j] == CourseCompleted(u, c);
    assert Grounded(st.prerequisite, kept, st.log, j);
    var k :| 0 <= k < j && k < |st.log| && st.log[k] == CourseEnrolled(u, c);
    NoEnrolmentOnCycle(st, kept, k, u, c, n);
  }

  /** Nobody is ever enrolled in a course that is its own prerequisite through courses that stay. */
  lemma CyclesStayEmpty(prerequisite: map<string, string>, courses: map<string, CourseStatus>, kept: set<string>,
                        actions: seq<Action>, u: string, c: string, n: nat)
    requires kept <= courses.Keys && Keeping(kept, actions)
    requires n > 0 && BindingChain(prerequisite, kept, c, n) && Back(prerequisite, c, n) == Some(c)
    ensures var st := Run(Opening(prerequisite, courses), actions);
            !HasRow(st.rows, u, c) && CourseEnrolled(u, c) !in st.log
  {
    var st := Run(Opening(prerequisite, courses), actions);
    OpeningSound(prerequisite, courses, kept);
    RunSound(Opening(prerequisite, courses), kept, actions);
    forall i | 0 <= i < |st.log| ensures st.log[i] != CourseEnrolled(u, c) {
      if st.log[i] == CourseEnrolled(u, c) { NoEnrolmentOnCycle(st, kept, i, u, c, n); }
    }
    forall id | id in st.rows ensures !(st.rows[id].userId == u && st.rows[id].courseId == c) {
      assert RowLogged(st.log, st.rows[id]);
    }
  }

  // ---- When the prerequisite is deleted ----------------------------------

  /** In every run that keeps these courses, an enrolment in `c` follows the completion of its prerequisite. */
  ghost predicate Enforced(prerequisite: map<string, string>, kept: set<string>, c: string)
    requires c in prerequisite
  {
    forall courses: map<string, CourseStatus>, actions: seq<Action>, u: string ::
      kept <= courses.Keys && Keeping(kept, actions) ==> CompletedBefore(prerequisite, courses, actions, u, c)
  }

  ghost predicate CompletedBefore(prerequisite: map<string, string>, courses: map<string, CourseStatus>,
                                  actions: seq<Action>, u: string, c: string)
    requires c in prerequisite
  {
    var log := Run(Opening(prerequisite, courses), actions).log;
    forall i :: 0 <= i < |log| && log[i] == CourseEnrolled(u, c) ==>
      Earlier(log, i, CourseCompleted(u, prerequisite[c]))
  }

  function Publishing(ids: set<string>): map<string, CourseStatus> { map id | id in ids :: Published }

  /** The prerequisite is deleted, and then anyone may enrol in the course that asked for it. */
  function OpenedUp(kept: set<string>, c: string, u: string): seq<Action> {
    [CatalogueChanges(Publishing(kept + {c})), Enroll(u, c)]
  }

  lemma DeletedPrerequisiteOpens(prerequisite: map<string, string>, courses: map<string, CourseStatus>,
                                 kept: set<string>, c: string, u: string)
    requires c in prerequisite && !Binding(prerequisite, kept, c)
    ensures Keeping(kept, OpenedUp(kept, c, u))
    ensures Run(Opening(prerequisite, courses), OpenedUp(kept, c, u)).log == [CourseEnrolled(u, c)]
  {
    var actions := OpenedUp(kept, c, u);
    assert actions[..1] == [actions[0]] && actions[..1][..0] == [];
    var st := Opening(prerequisite, courses);
    assert Run(st, actions[..1]) == st.(courses := Publishing(kept + {c}));
  }

  /** A prerequisite is enforced in every run exactly when it stays in the catalogue, or is the course itself. */
  lemma EnforcedExactly(prerequisite: map<string, string>, kept: set<string>, c: string)
    requires c in prerequisite
    ensures Enforced(prerequisite, kept, c) <==> Binding(prerequisite, kept, c)
  {
    if Binding(prerequisite, kept, c) {
      forall courses: map<string, CourseStatus>, actions: seq<Action>, u: string |
        kept <= courses.Keys && Keeping(kept, actions)
        ensures CompletedBefore(prerequisite, courses, actions, u, c)
      {
        OpeningSound(prerequisite, courses, kept);
        RunSound(Opening(prerequisite, courses), kept, actions);
        forall i | 0 <= i < |Run(Opening(prerequisite, courses), actions).log| &&
                   Run(Opening(prerequisite, courses), actions).log[i] == CourseEnrolled(u, c)
          ensures Earlier(Run(Opening(prerequisite, courses), actions).log, i, CourseCompleted(u, prerequisite[c]))
        {
          assert Grounded(prerequisite, kept, Run(Opening(prerequisite, courses), actions).log, i);
        }
      }
    } else {
      var courses := Publishing(kept);
      DeletedPrerequisiteOpens(prerequisite, courses, kept, c, "");
      var log := Run(Opening(prerequisite, courses), OpenedUp(kept, c, "")).log;
      assert log[0] == CourseEnrolled("", c) && !Earlier(log, 0, CourseCompleted("", prerequisite[c]));
      assert !CompletedBefore(prerequisite, courses, OpenedUp(kept, c, ""), "", c);
    }
  }

  /** Two courses that require each other: deleting one lets anyone into the other. */
  lemma DeletionOpensCycle(a: string, b: string, u: string)
    requires a != b
    ensures var st := Run(Opening(map[a := b, b := a], Publishing({a, b})), OpenedUp({a}, a, u));
            Back(st.prerequisite, a, 2) == Some(a) && HasRow(st.rows, u, a)
  {
    var prerequisite := map[a := b, b := a];
    assert Back(prerequisite, a, 2) == Back(prerequisite, b, 1) == Back(prerequisite, a, 0);
    var st, actions := Opening(prerequisite, Publishing({a, b})), OpenedUp({a}, a, u);
    assert actions[..1] == [actions[0]] && actions[..1][..0] == [];
    assert Run(st, actions[..1]) == st.(courses := Publishing({a} + {a}));
    assert Run(st, actions).rows[0] == NewRow(u, a);
  }

  /** No run ever holds two rows for one user and course. */
  lemma PairsStayUnique(prerequisite: map<string, string>, courses: map<string, CourseStatus>, actions: seq<Action>)
    ensures OneRowPerPair(Run(Opening(prerequisite, courses), actions).rows)
  {
    OpeningSound(prerequisite, courses, {});
    RunSound(Opening(prerequisite, courses), {}, actions);
  }
}
