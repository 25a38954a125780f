/** Whole-run properties of course versions. */
module VersionHistory {
  import opened Prelude
  import opened CourseTypes
  import opened CourseVersions

  datatype Action =
    | Create(content: Content, prerequisite: Option<nat>, user: User)
    | Update(id: nat, patch: Patch, user: User)
    | Rollback(id: nat, number: nat, requester: Option<User>)
    | OtherEdit(id: nat, content: Content)   // review workflow and bulk operations write no version
    | Remove(id: nat)                        // soft delete: the course goes, its versions stay

  function Step(st: Store, a: Action): Store {
    match a
    case Create(content, prerequisite, user) => AfterCreate(st, content, prerequisite, user).0
    case Update(id, patch, user) => AfterUpdate(st, id, patch, user).0
    case Rollback(id, number, requester) => AfterRollback(st, id, number, requester).0
    case OtherEdit(id, content) =>
      if id in st.courses then st.(courses := st.courses[id := st.courses[id].(content := content)]) else st
    case Remove(id) => st.(courses := st.courses - {id})
  }

  function Run(st: Store, actions: seq<Action>): Store {
    if actions == [] then st else Step(Run(st, actions[..|actions| - 1]), actions[|actions| - 1])
  }

  const EMPTY := Store(map[], [], 0)

  // ---- Numbering ---------------------------------------------------------

  predicate Numbered(rows: seq<Version>) { forall i :: 0 <= i < |rows| ==> rows[i].number == i + 1 }

  /** A version that records changes describes itself by its difference from the one before it. */
  ghost predicate Explained(rows: seq<Version>) {
    forall i :: 0 <= i < |rows| ==> ExplainedAt(rows, i)
  }

  ghost predicate ExplainedAt(rows: seq<Version>, i: nat)
    requires i < |rows|
  {
    rows[i].event == RolledBack ==> i > 0 && Describes(rows[i].changes, Prior(rows, i), InMemory(rows[i].content))
  }

  function Prior(rows: seq<Version>, i: nat): Option<Version>
    requires i < |rows|
  {
    if i == 0 then None else Some(rows[i - 1])
  }

  ghost predicate Sound(st: Store) {
    (forall id :: Numbered(Of(st.versions, id)) && Explained(Of(st.versions, id))) &&
    (forall id :: id in st.courses ==> id < st.nextId && Of(st.versions, id) != []) &&
    (forall v :: v in st.versions ==> v.courseId < st.nextId)
  }

  lemma {:induction false} HighestIsLast(rows: seq<Version>)
    requires Numbered(rows)
    ensures Highest(rows) == if rows == [] then None else Some(rows[|rows| - 1])
  {
    if rows != [] { HighestIsLast(rows[..|rows| - 1]); }
  }

  lemma OfAppend(versions: seq<Version>, v: Version, id: nat)
    ensures Of(versions + [v], id) == if v.courseId == id then Of(versions, id) + [v] else Of(versions, id)
  {
    assert (versions + [v])[..|versions|] == versions;
  }

  lemma {:induction false} OfMembers(versions: seq<Version>, id: nat)
    ensures forall v :: v in Of(versions, id) ==> v in versions && v.courseId == id
  {
    if versions != [] {
      OfMembers(versions[..|versions| - 1], id);
      assert versions == versions[..|versions| - 1] + [versions[|versions| - 1]];
    }
  }

  lemma RowsGrow(rows: seq<Version>, v: Version)
    requires Numbered(rows) && Explained(rows) && v.number == |rows| + 1
    requires v.event == RolledBack ==> rows != [] && v.changes == Difference(Highest(rows), InMemory(v.content))
    ensures Numbered(rows + [v]) && Explained(rows + [v])
  {
    HighestIsLast(rows);
    var more := rows + [v];
    forall i | 0 <= i < |more| ensures ExplainedAt(more, i) {
      if i < |rows| { assert ExplainedAt(rows, i) && Prior(more, i) == Prior(rows, i); }
    }
  }

  lemma {:induction false} OfNone(versions: seq<Version>, id: nat)
    requires forall v :: v in versions ==> v.courseId != id
    ensures Of(versions, id) == []
  {
    if versions != [] { OfNone(versions[..|versions| - 1], id); }
  }

  /** One more version with the next number, described if it records changes, keeps the table sound. */
  lemma AppendSound(st: Store, v: Version, courses: map<nat, Course>, nextId: nat)
    requires Sound(st) && nextId >= st.nextId && v.courseId < nextId
    requires v.number == |Of(st.versions, v.courseId)| + 1
    requires v.event == RolledBack ==>
               Of(st.versions, v.courseId) != [] &&
               v.changes == Difference(Highest(Of(st.versions, v.courseId)), InMemory(v.content))
    requires forall id :: id in courses ==> id in st.courses || id == v.courseId
    ensures Sound(Store(courses, st.versions + [v], nextId))
  {
    forall id ensures Numbered(Of(st.versions + [v], id)) && Explained(Of(st.versions + [v], id)) {
      OfAppend(st.versions, v, id);
      assert Numbered(Of(st.versions, id)) && Explained(Of(st.versions, id));
      if v.courseId == id { RowsGrow(Of(st.versions, id), v); }
    }
    forall id | id in courses ensures id < nextId && Of(st.versions + [v], id) != [] {
      OfAppend(st.versions, v, id);
    }
  }

  lemma CreateSound(st: Store, content: Content, prerequisite: Option<nat>, user: User)
    requires Sound(st)
    ensures Sound(AfterCreate(st, content, prerequisite, user).0)
  {
    if !(prerequisite.Some? && prerequisite.value !in st.courses) {
      OfNone(st.versions, st.nextId);
      var next := AfterCreate(st, content, prerequisite, user).0;
      AppendSound(st, next.versions[|st.versions|], next.courses, next.nextId);
    }
  }

  lemma UpdateSound(st: Store, id: nat, patch: Patch, user: User)
    requires Sound(st)
    ensures Sound(AfterUpdate(st, id, patch, user).0)
  {
    var (next, r) := AfterUpdate(st, id, patch, user);
    if r.Ok? {
      HighestIsLast(Of(st.versions, id));
      AppendSound(st, next.versions[|st.versions|], next.courses, next.nextId);
    }
  }

  lemma RollbackSound(st: Store, id: nat, number: nat, requester: Option<User>)
    requires Sound(st)
    ensures Sound(AfterRollback(st, id, number, requester).0)
  {
    var (next, r) := AfterRollback(st, id, number, requester);
    if r.Ok? {
      HighestIsLast(Of(st.versions, id));
      AppendSound(st, next.versions[|st.versions|], next.courses, next.nextId);
    }
  }

  lemma {:induction false} RunSound(st: Store, actions: seq<Action>)
    requires Sound(st)
    ensures Sound(Run(st, actions))
  {
    if actions != [] {
      RunSound(st, actions[..|actions| - 1]);
      var prior := Run(st, actions[..|actions| - 1]);
      match actions[|actions| - 1]
      case Create(content, prerequisite, user) => CreateSound(prior, content, prerequisite, user);
      case Update(id, patch, user) => UpdateSound(prior, id, patch, user);
      case Rollback(id, number, requester) => RollbackSound(prior, id, number, requester);
      case _ =>
    }
  }

  /** In every reachable state a course has versions numbered exactly 1 to n, at least one. */
  lemma NumberedInRuns(actions: seq<Action>, id: nat)
    ensures var st := Run(EMPTY, actions);
            Numbered(Of(st.versions, id)) && (id in st.courses ==> Of(st.versions, id) != [])
  {
    RunSound(EMPTY, actions);
  }

  /** The unique index on (course, number) is never violated by a sequential run. */
  lemma NumbersUnique(actions: seq<Action>, i: nat, j: nat)
    requires i < j < |Run(EMPTY, actions).versions|
    ensures var vs := Run(EMPTY, actions).versions;
            vs[i].courseId != vs[j].courseId || vs[i].number != vs[j].number
  {
    RunSound(EMPTY, actions);
    var vs := Run(EMPTY, actions).versions;
    if vs[i].courseId == vs[j].courseId { OfKeepsOrder(vs, vs[i].courseId, i, j); }
  }

  lemma {:induction false} OfKeepsOrder(versions: seq<Version>, id: nat, i: nat, j: nat)
    requires i < j < |versions| && versions[i].courseId == id == versions[j].courseId
    ensures exists a, b :: 0 <= a < b < |Of(versions, id)| &&
                           Of(versions, id)[a] == versions[i] && Of(versions, id)[b] == versions[j]
  {
    var n := |versions| - 1;
    var rows := Of(versions, id);
    if j < n {
      OfKeepsOrder(versions[..n], id, i, j);
      var a, b :| 0 <= a < b < |Of(versions[..n], id)| &&
                  Of(versions[..n], id)[a] == versions[i] && Of(versions[..n], id)[b] == versions[j];
      assert rows[a] == versions[i] && rows[b] == versions[j];
    } else {
      OfFinds(versions[..n], id, i);
      var a :| 0 <= a < |Of(versions[..n], id)| && Of(versions[..n], id)[a] == versions[i];
      assert rows[a] == versions[i] && rows[|rows| - 1] == versions[j];
    }
  }

  lemma {:induction false} OfFinds(versions: seq<Version>, id: nat, i: nat)
    requires i < |versions| && versions[i].courseId == id
    ensures exists a :: 0 <= a < |Of(versions, id)| && Of(versions, id)[a] == versions[i]
  {
    var n := |versions| - 1;
    var rows := Of(versions, id);
    if i < n {
      OfFinds(versions[..n], id, i);
      var a :| 0 <= a < |Of(versions[..n], id)| && Of(versions[..n], id)[a] == versions[i];
      assert rows[a] == versions[i];
    } else {
      assert rows[|rows| - 1] == versions[i];
    }
  }

  // ---- Versions are never altered ----------------------------------------

  lemma {:induction false} AppendOnly(st: Store, actions: seq<Action>)
    ensures st.versions <= Run(st, actions).versions
  {
    if actions != [] { AppendOnly(st, actions[..|actions| - 1]); }
  }

  lemma {:induction false} OfPrefix(versions: seq<Version>, more: seq<Version>, id: nat)
    requires versions <= more
    ensures Of(versions, id) <= Of(more, id)
    decreases |more|
  {
    if |versions| < |more| {
      var front := more[..|more| - 1];
      OfPrefix(versions, front, id);
      assert Of(more, id)[..|Of(front, id)|] == Of(front, id);
    } else {
      assert versions == more;
    }
  }

  lemma {:induction false} NumberIndexes(rows: seq<Version>, first: int, number: nat)
    requires forall i :: 0 <= i < |rows| ==> rows[i].number == first + i
    ensures WithNumber(rows, number) ==
            if first <= number < first + |rows| then Some(rows[number - first]) else None
  {
    if rows != [] { NumberIndexes(rows[1..], first + 1, number); }
  }

  // ---- Recorded changes and rollback -------------------------------------

  /**
   * For every version written by a rollback: applying its recorded changes to the version before it
   * rebuilds every tracked field, the price as a number. The price is recorded whether it changed or
   * not; every other field is recorded exactly when the two versions differ in it.
   */
  lemma ChangesRebuild(actions: seq<Action>, id: nat, i: nat, f: Field)
    requires i < |Of(Run(EMPTY, actions).versions, id)|
    requires Of(Run(EMPTY, actions).versions, id)[i].event == RolledBack
    ensures var rows := Of(Run(EMPTY, actions).versions, id);
            i > 0 && SameValue(Patched(Prior(rows, i), rows[i].changes, f), rows[i].content.Get(f)) &&
            (f in rows[i].changes <==> f == Price || rows[i - 1].content.Get(f) != rows[i].content.Get(f))
  {
    RunSound(EMPTY, actions);
    var rows := Of(Run(EMPTY, actions).versions, id);
    assert Explained(rows) && ExplainedAt(rows, i);
  }

  /** So a rollback to the newest version records a price change, from the price as text to itself. */
  lemma IdleRollbackRecordsPrice(actions: seq<Action>, id: nat, requester: Option<User>)
    ensures var st := Run(EMPTY, actions);
            var n := |Of(st.versions, id)|;
            var (next, r) := AfterRollback(st, id, n, requester);
            r.Ok? ==>
              var price := r.value.content.price;
              next.versions[|st.versions|].changes == map[Price := FieldChange(Decimal(price), Number(price))]
  {
    RunSound(EMPTY, actions);
    var rows := Of(Run(EMPTY, actions).versions, id);
    NumberIndexes(rows, 1, |rows|);
    HighestIsLast(rows);
    if rows != [] { OnlyPriceDiffers(rows[|rows| - 1]); }
  }

  lemma OnlyPriceDiffers(v: Version)
    ensures Difference(Some(v), InMemory(v.content)) ==
            map[Price := FieldChange(Decimal(v.content.price), Number(v.content.price))]
  {}

  /**
   * A rollback is a jump in time: whatever happened since version n was written, rolling back to n
   * gives the course that version's content and appends a copy of it. It succeeds exactly for an
   * existing course, a permitted user and a number between 1 and the newest.
   */
  lemma RollbackRestores(past: seq<Action>, since: seq<Action>, id: nat, n: nat, requester: Option<User>)
    requires 1 <= n <= |Of(Run(EMPTY, past).versions, id)|
    ensures var first, now := Run(EMPTY, past), Run(Run(EMPTY, past), since);
            var (next, r) := AfterRollback(now, id, n, requester);
            var original := Of(first.versions, id)[n - 1];
            (r.Ok? <==> id in now.courses && (requester.Some? ==> Allowed(now.courses[id], requester.value))) &&
            (r.Ok? ==> next.courses[id].content == original.content == r.value.content &&
                       next.versions[|now.versions|].content == original.content &&
                       next.versions[|now.versions|].number == |Of(now.versions, id)| + 1)
  {
    var before, now := Run(EMPTY, past), Run(Run(EMPTY, past), since);
    RunSound(EMPTY, past);
    RunSound(before, since);
    AppendOnly(before, since);
    OfPrefix(before.versions, now.versions, id);
    NumberIndexes(Of(now.versions, id), 1, n);
    HighestIsLast(Of(now.versions, id));
  }

  lemma UnknownNumberRefused(actions: seq<Action>, id: nat, n: nat, requester: Option<User>)
    requires !(1 <= n <= |Of(Run(EMPTY, actions).versions, id)|)
    ensures var st := Run(EMPTY, actions);
            AfterRollback(st, id, n, requester).1.Err? && AfterRollback(st, id, n, requester).0 == st
  {
    RunSound(EMPTY, actions);
    NumberIndexes(Of(Run(EMPTY, actions).versions, id), 1, n);
  }

  // ---- What create and update leave --------------------------------------

  /** A new course has the fields given, as a draft of its instructor without a note, and version 1 of them. */
  lemma CreateExactly(st: Store, content: Content, prerequisite: Option<nat>, user: User)
    ensures var (next, r) := AfterCreate(st, content, prerequisite, user);
            (r.Ok? <==> prerequisite.Some? ==> prerequisite.value in st.courses) &&
            (r.Err? ==> r.error == PrerequisiteNotFound && next == st) &&
            (r.Ok? ==>
               r.value == st.nextId && r.value in next.courses && next.nextId == st.nextId + 1 &&
               (forall k :: k in st.courses && k != r.value ==> k in next.courses && next.courses[k] == st.courses[k]) &&
               (var now := next.courses[r.value];
                now.instructorId == user.id && now.prerequisite == prerequisite &&
                now.content.title == content.title && now.content.description == content.description &&
                now.content.price == content.price && now.content.thumbnailUrl == content.thumbnailUrl &&
                now.content.status == Draft && now.content.submissionNote == None) &&
               next.versions == st.versions + [Version(r.value, 1, Created, None, next.courses[r.value].content, map[])])
  {}

  /** `after` if something was given, else as before. */
  predicate Takes<T(==)>(given: Option<T>, before: T, after: T) {
    if given.Some? then after == given.value else after == before
  }

  /** An update leaves in each field what was given, or what was there, and records it as the next version. */
  lemma UpdateExactly(st: Store, id: nat, p: Patch, user: User)
    ensures var (next, r) := AfterUpdate(st, id, p, user);
            var found := p.prerequisite.Some? && p.prerequisite.value.Some? ==> p.prerequisite.value.value in st.courses;
            (r == Err(CourseNotFound) <==> id !in st.courses) &&
            (id in st.courses ==>
               var c := st.courses[id];
               var allowed := c.instructorId == user.id || user.privileged;
               (r == Err(InsufficientPermissions) <==> !allowed) && (r == Err(PrerequisiteNotFound) <==> allowed && !found) &&
               (r.Ok? <==> allowed && found)) &&
            (r.Err? ==> next == st)
    ensures AfterUpdate(st, id, p, user).1.Ok? ==> UpdateLeaves(st, id, p, AfterUpdate(st, id, p, user).0)
  {}

  predicate UpdateLeaves(st: Store, id: nat, p: Patch, next: Store) {
    id in st.courses && next.courses.Keys == st.courses.Keys && next.nextId == st.nextId &&
    (forall k :: k in st.courses && k != id ==> next.courses[k] == st.courses[k]) &&
    var c, now := st.courses[id], next.courses[id];
    now.instructorId == c.instructorId && Takes(p.prerequisite, c.prerequisite, now.prerequisite) &&
    Takes(p.title, c.content.title, now.content.title) &&
    Takes(p.description, c.content.description, now.content.description) &&
    Takes(p.price, c.content.price, now.content.price) &&
    Takes(p.thumbnailUrl, c.content.thumbnailUrl, now.content.thumbnailUrl) &&
    Takes(p.status, c.content.status, now.content.status) && now.content.submissionNote == c.content.submissionNote &&
    next.versions == st.versions + [Version(id, NextNumber(st.versions, id), Updated, None,
                                            now.content.(submissionNote := None), map[])]
  }

  /** A rollback is refused for a missing course, a stranger, or a missing version, in that order. */
  lemma RollbackRefusedExactly(actions: seq<Action>, id: nat, n: nat, requester: Option<User>)
    ensures var st := Run(EMPTY, actions);
            var (next, r) := AfterRollback(st, id, n, requester);
            (r == Err(CourseNotFound) <==> id !in st.courses) &&
            (id in st.courses ==>
               var c := st.courses[id];
               var allowed := requester.Some? ==> c.instructorId == requester.value.id || requester.value.privileged;
               (r == Err(InsufficientPermissions) <==> !allowed) &&
               (r == Err(VersionNotFound) <==> allowed && !(1 <= n <= |Of(st.versions, id)|))) &&
            (r.Err? ==> next == st) &&
            (r.Ok? ==>
               next.courses.Keys == st.courses.Keys && next.courses[id].instructorId == st.courses[id].instructorId &&
               next.courses[id].prerequisite == st.courses[id].prerequisite &&
               forall k :: k in st.courses && k != id ==> next.courses[k] == st.courses[k])
  {
    RunSound(EMPTY, actions);
    NumberIndexes(Of(Run(EMPTY, actions).versions, id), 1, n);
  }

  // ---- Comparing with a version ------------------------------------------

  /**
   * The diff of a course with one of its versions lists exactly the tracked fields in which they differ,
   * the price included, and exists exactly for a present course and a number from 1 to the newest.
   */
  lemma DiffExactly(actions: seq<Action>, id: nat, n: nat, f: Field)
    ensures var st := Run(EMPTY, actions);
            var rows := Of(st.versions, id);
            (VersionDiff(st, id, n).Ok? <==> id in st.courses && 1 <= n <= |rows|) &&
            (VersionDiff(st, id, n).Ok? ==>
               (f in VersionDiff(st, id, n).value <==> rows[n - 1].content.Get(f) != st.courses[id].content.Get(f)))
  {
    RunSound(EMPTY, actions);
    var st := Run(EMPTY, actions);
    var rows := Of(st.versions, id);
    NumberIndexes(rows, 1, n);
    if id in st.courses && 1 <= n <= |rows| { DiffAt(rows[n - 1], st.courses[id].content, f); }
  }

  lemma DiffAt(v: Version, content: Content, f: Field)
    ensures f in Difference(Some(v), FromTable(content)) <==> v.content.Get(f) != content.Get(f)
  {}

  /** Field by field. */
  lemma DiffFields(v: Version, content: Content)
    ensures var changes := Difference(Some(v), FromTable(content));
            (Title in changes <==> v.content.title != content.title) &&
            (Description in changes <==> v.content.description != content.description) &&
            (Price in changes <==> v.content.price != content.price) &&
            (ThumbnailUrl in changes <==> v.content.thumbnailUrl != content.thumbnailUrl) &&
            (Status in changes <==> v.content.status != content.status) &&
            (SubmissionNote in changes <==> v.content.submissionNote != content.submissionNote)
  {}

  /** After a rollback to version n the course no longer differs from it in any field. */
  lemma RollbackClosesDiff(actions: seq<Action>, id: nat, n: nat, requester: Option<User>)
    ensures var (next, r) := AfterRollback(Run(EMPTY, actions), id, n, requester);
            r.Ok? ==> VersionDiff(next, id, n) == Ok(map[])
  {
    var st := Run(EMPTY, actions);
    var (next, r) := AfterRollback(st, id, n, requester);
    if r.Ok? {
      RunSound(EMPTY, actions);
      RollbackSound(st, id, n, requester);
      NumberIndexes(Of(st.versions, id), 1, n);
      OfAppend(st.versions, next.versions[|st.versions|], id);
      NumberIndexes(Of(next.versions, id), 1, n);
      NoDifference(Of(st.versions, id)[n - 1]);
    }
  }

  lemma NoDifference(v: Version)
    ensures Difference(Some(v), FromTable(v.content)) == map[]
  {}

  // ---- The submission note -----------------------------------------------

  ghost predicate NotesNowhere(st: Store) {
    forall v :: v in st.versions ==> v.content.submissionNote.None?
  }

  /**
   * No version ever holds a submission note: created and updated versions leave it out, and a
   * rollback only copies versions. So every rollback clears the course's note.
   */
  lemma {:induction false} NoVersionHoldsNote(actions: seq<Action>)
    ensures NotesNowhere(Run(EMPTY, actions))
  {
    if actions != [] {
      NoVersionHoldsNote(actions[..|actions| - 1]);
      var prior := Run(EMPTY, actions[..|actions| - 1]);
      if actions[|actions| - 1].Rollback? {
        var Rollback(id, number, _) := actions[|actions| - 1];
        OfMembers(prior.versions, id);
        NumberFound(Of(prior.versions, id), number);
      }
    }
  }

  lemma {:induction false} NumberFound(rows: seq<Version>, number: nat)
    ensures WithNumber(rows, number).Some? ==> WithNumber(rows, number).value in rows
  {
    if rows != [] { NumberFound(rows[1..], number); }
  }

  lemma RollbackClearsNote(actions: seq<Action>, id: nat, n: nat, requester: Option<User>)
    ensures var (next, r) := AfterRollback(Run(EMPTY, actions), id, n, requester);
            r.Ok? ==> r.value.content.submissionNote == None
  {
    NoVersionHoldsNote(actions);
    var st := Run(EMPTY, actions);
    OfMembers(st.versions, id);
    NumberFound(Of(st.versions, id), n);
  }
}
