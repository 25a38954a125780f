/** Append-only course versions: create, update, rollback (src/courses/courses.service.ts). */
module CourseVersions {
  import opened Prelude
  import opened CourseTypes

  // ---- Tracked fields ----------------------------------------------------

  datatype Field = Title | Description | Price | ThumbnailUrl | Status | SubmissionNote

  const TRACKED := [Title, Description, Price, ThumbnailUrl, Status, SubmissionNote]

  /** A field's value; a decimal column is read back as text, which `!==` tells from every number. */
  datatype Value = Undefined | Null | Text(s: string) | Number(x: real) | Decimal(x: real) | State(status: CourseStatus)

  /** `value ?? null` */
  function OrNull(v: Value): Value { if v == Undefined then Null else v }

  /** Equal, or the same amount as a number and as decimal text. */
  predicate SameValue(a: Value, b: Value) {
    a == b || ((a.Number? || a.Decimal?) && (b.Number? || b.Decimal?) && a.x == b.x)
  }

  datatype Content = Content(title: string, description: string, price: real, thumbnailUrl: Option<string>,
                             status: CourseStatus, submissionNote: Option<string>)
  {
    /** The field of an object whose price is a number. */
    function Get(f: Field): Value {
      match f
      case Title => Text(title)
      case Description => Text(description)
      case Price => Number(price)
      case ThumbnailUrl => if thumbnailUrl.Some? then Text(thumbnailUrl.value) else Null
      case Status => State(status)
      case SubmissionNote => if submissionNote.Some? then Text(submissionNote.value) else Null
    }

    /** The field of a row that has just been loaded. */
    function Loaded(f: Field): Value { if f == Price then Decimal(price) else Get(f) }
  }

  /** The course to compare: just loaded, or in memory with the number a rollback assigned. */
  datatype CourseObject = FromTable(content: Content) | InMemory(content: Content) {
    function Get(f: Field): Value { if FromTable? then content.Loaded(f) else content.Get(f) }
  }

  datatype FieldChange = FieldChange(previous: Value, next: Value)

  type Changes = map<Field, FieldChange>

  datatype EventType = Created | Updated | RolledBack

  datatype Version = Version(courseId: nat, number: nat, event: EventType, changedBy: Option<string>,
                             content: Content, changes: Changes)

  datatype Course = Course(content: Content, instructorId: string, prerequisite: Option<nat>)

  datatype User = User(id: string, privileged: bool)

  datatype Error = CourseNotFound | VersionNotFound | PrerequisiteNotFound | InsufficientPermissions

  datatype Store = Store(courses: map<nat, Course>, versions: seq<Version>, nextId: nat)

  // ---- Version table queries ---------------------------------------------

  /** The rows of one course, oldest first. */
  function Of(versions: seq<Version>, id: nat): seq<Version> {
    if versions == [] then []
    else
      Of(versions[..|versions| - 1], id) +
      (if versions[|versions| - 1].courseId == id then [versions[|versions| - 1]] else [])
  }

  /** `findOne` ordered by version number, highest first. */
  function Highest(rows: seq<Version>): Option<Version> {
    if rows == [] then None
    else
      match Highest(rows[..|rows| - 1])
      case Some(v) => if rows[|rows| - 1].number > v.number then Some(rows[|rows| - 1]) else Some(v)
      case None => Some(rows[|rows| - 1])
  }

  function WithNumber(rows: seq<Version>, number: nat): Option<Version> {
    if rows == [] then None
    else if rows[0].number == number then Some(rows[0])
    else WithNumber(rows[1..], number)
  }

  function NextNumber(versions: seq<Version>, id: nat): nat {
    match Highest(Of(versions, id))
    case Some(v) => v.number + 1
    case None => 1
  }

  // ---- Changes -----------------------------------------------------------

  function Before(previous: Option<Version>, f: Field): Value {
    if previous.Some? then previous.value.content.Loaded(f) else Undefined
  }

  /** What `computeCourseChanges` should record: exactly the fields that differ, with both values. */
  ghost predicate Describes(changes: Changes, previous: Option<Version>, current: CourseObject) {
    forall f: Field ::
      (f in changes <==> Before(previous, f) != current.Get(f)) &&
      (f in changes ==> changes[f] == FieldChange(OrNull(Before(previous, f)), OrNull(current.Get(f))))
  }

  function Difference(previous: Option<Version>, current: CourseObject): (changes: Changes)
    ensures Describes(changes, previous, current)
  {
    map f | f in {Title, Description, Price, ThumbnailUrl, Status, SubmissionNote} &&
            Before(previous, f) != current.Get(f)
      :: FieldChange(OrNull(Before(previous, f)), OrNull(current.Get(f)))
  }

  /** A field of the previous version with the recorded changes applied to it. */
  function Patched(previous: Option<Version>, changes: Changes, f: Field): Value {
    if f in changes then changes[f].next else Before(previous, f)
  }

  // ---- What each operation should do -------------------------------------

  predicate Allowed(course: Course, user: User) { course.instructorId == user.id || user.privileged }

  /** Created and updated versions carry neither a submission note nor recorded changes. */
  function Plain(versions: seq<Version>, id: nat, event: EventType, content: Content): Version {
    Version(id, if event == Created then 1 else NextNumber(versions, id), event, None,
            content.(submissionNote := None), map[])
  }

  function SnapshotOf(versions: seq<Version>, id: nat, user: Option<string>, content: Content): Version {
    Version(id, NextNumber(versions, id), RolledBack, user, content,
            Difference(Highest(Of(versions, id)), InMemory(content)))
  }

  function AfterCreate(st: Store, content: Content, prerequisite: Option<nat>, user: User)
    : (Store, Result<nat, Error>)
  {
    if prerequisite.Some? && prerequisite.value !in st.courses then (st, Err(PrerequisiteNotFound))
    else
      var id := st.nextId;
      var draft := content.(status := Draft, submissionNote := None);
      (Store(st.courses[id := Course(draft, user.id, prerequisite)],
             st.versions + [Plain(st.versions, id, Created, draft)], id + 1),
       Ok(id))
  }

  /** What an update assigns; a thumbnail and a prerequisite can be set to null. */
  datatype Patch = Patch(title: Option<string>, description: Option<string>, price: Option<real>,
                         thumbnailUrl: Option<Option<string>>, status: Option<CourseStatus>,
                         prerequisite: Option<Option<nat>>)

  function Assigned(c: Content, p: Patch): Content {
    c.(title := p.title.GetOr(c.title), description := p.description.GetOr(c.description),
       price := p.price.GetOr(c.price), status := p.status.GetOr(c.status),
       thumbnailUrl := p.thumbnailUrl.GetOr(c.thumbnailUrl))
  }

  function AfterUpdate(st: Store, id: nat, p: Patch, user: User): (Store, Result<Course, Error>) {
    if id !in st.courses then (st, Err(CourseNotFound))
    else if !Allowed(st.courses[id], user) then (st, Err(InsufficientPermissions))
    else if p.prerequisite.Some? && p.prerequisite.value.Some? && p.prerequisite.value.value !in st.courses
    then (st, Err(PrerequisiteNotFound))
    else
      var c := st.courses[id];
      var next := c.(content := Assigned(c.content, p), prerequisite := p.prerequisite.GetOr(c.prerequisite));
      (st.(courses := st.courses[id := next],
           versions := st.versions + [Plain(st.versions, id, Updated, next.content)]),
       Ok(next))
  }

  function AfterRollback(st: Store, id: nat, number: nat, user: Option<User>): (Store, Result<Course, Error>) {
    if id !in st.courses then (st, Err(CourseNotFound))
    else if user.Some? && !Allowed(st.courses[id], user.value) then (st, Err(InsufficientPermissions))
    else
      match WithNumber(Of(st.versions, id), number)
      case None => (st, Err(VersionNotFound))
      case Some(v) =>
        var next := st.courses[id].(content := v.content);
        var who := if user.Some? then Some(user.value.id) else None;
        (st.(courses := st.courses[id := next],
             versions := st.versions + [SnapshotOf(st.versions, id, who, v.content)]),
         Ok(next))
  }

  /** `getVersionDiff`: from the numbered version to the course as it is, both just loaded. */
  function VersionDiff(st: Store, id: nat, number: nat): Result<Changes, Error> {
    if id !in st.courses then Err(CourseNotFound)
    else
      match WithNumber(Of(st.versions, id), number)
      case None => Err(VersionNotFound)
      case Some(v) => Ok(Difference(Some(v), FromTable(st.courses[id].content)))
  }

  class CoursesService {
    var courses: map<nat, Course>
    var versions: seq<Version>
    var nextId: nat

    constructor ()
      ensures Current() == Store(map[], [], 0)
    {
      courses, versions, nextId := map[], [], 0;
    }

    function Current(): Store
      reads this
    {
      Store(courses, versions, nextId)
    }

    method ComputeCourseChanges(previous: Option<Version>, current: CourseObject) returns (changes: Changes)
      ensures changes == Difference(previous, current)
    {
      changes := map[];
      for i := 0 to |TRACKED|
        invariant forall f: Field :: f in changes <==> f in TRACKED[..i] && Before(previous, f) != current.Get(f)
        invariant forall f: Field :: f in changes ==>
                    changes[f] == FieldChange(OrNull(Before(previous, f)), OrNull(current.Get(f)))
      {
        var field := TRACKED[i];
        assert TRACKED[..i + 1] == TRACKED[..i] + [field];
        var previousValue := if previous.Some? then previous.value.content.Loaded(field) else Undefined;
        var currentValue := current.Get(field);
        if previousValue != currentValue {
          changes := changes[field := FieldChange(OrNull(previousValue), OrNull(currentValue))];
        }
      }
      EveryFieldTracked();
    }

    method GetVersionDiff(id: nat, number: nat) returns (r: Result<Changes, Error>)
      ensures r == VersionDiff(Current(), id, number)
    {
      if id !in courses { return Err(CourseNotFound); }
      var version := WithNumber(Of(versions, id), number);
      if version.None? { return Err(VersionNotFound); }
      var changes := ComputeCourseChanges(version, FromTable(courses[id].content));
      r := Ok(changes);
    }

    method CreateVersionSnapshot(id: nat, user: Option<string>, content: Content)
      modifies this`versions
      ensures versions == old(versions) + [SnapshotOf(old(versions), id, user, content)]
    {
      var previous := Highest(Of(versions, id));
      var number := if previous.Some? then previous.value.number + 1 else 1;
      var changes := ComputeCourseChanges(previous, InMemory(content));
      versions := versions + [Version(id, number, RolledBack, user, content, changes)];
    }

    method Create(content: Content, prerequisite: Option<nat>, instructor: User) returns (r: Result<nat, Error>)
      modifies this
      ensures (Current(), r) == AfterCreate(old(Current()), content, prerequisite, instructor)
    {
      if prerequisite.Some? && prerequisite.value !in courses { return Err(PrerequisiteNotFound); }
      var id := nextId;
      var course := Course(content.(status := Draft, submissionNote := None), instructor.id, prerequisite);
      courses, nextId := courses[id := course], nextId + 1;
      versions := versions + [Version(id, 1, Created, None, course.content, map[])];
      r := Ok(id);
    }

    method Update(id: nat, p: Patch, user: User) returns (r: Result<Course, Error>)
      modifies this
      ensures (Current(), r) == AfterUpdate(old(Current()), id, p, user)
    {
      if id !in courses { return Err(CourseNotFound); }
      var course := courses[id];
      if course.instructorId != user.id && !user.privileged { return Err(InsufficientPermissions); }
      if p.prerequisite.Some? {
        if p.prerequisite.value.Some? && p.prerequisite.value.value !in courses { return Err(PrerequisiteNotFound); }
        course := course.(prerequisite := p.prerequisite.value);
      }
      course := course.(content := Assigned(course.content, p));
      courses := courses[id := course];
      var previous := Highest(Of(versions, id));
      var number := if previous.Some? then previous.value.number + 1 else 1;
      versions := versions +
        [Version(id, number, Updated, None, course.content.(submissionNote := None), map[])];
      r := Ok(course);
    }

    method RollbackToVersion(id: nat, number: nat, user: Option<User>) returns (r: Result<Course, Error>)
      modifies this
      ensures (Current(), r) == AfterRollback(old(Current()), id, number, user)
    {
      if id !in courses { return Err(CourseNotFound); }
      var course := courses[id];
      if user.Some? && course.instructorId != user.value.id && !user.value.privileged {
        return Err(InsufficientPermissions);
      }
      var version := WithNumber(Of(versions, id), number);
      if version.None? { return Err(VersionNotFound); }
      var v := version.value.content;
      course := course.(content := Content(v.title, v.description, v.price, v.thumbnailUrl, v.status,
                                           v.submissionNote));
      courses := courses[id := course];
      CreateVersionSnapshot(id, if user.Some? then Some(user.value.id) else None, course.content);
      r := Ok(course);
    }
  }

  lemma EveryFieldTracked()
    ensures forall f: Field :: f in TRACKED[..|TRACKED|]
  {
    forall f: Field ensures f in TRACKED[..|TRACKED|] {
      assert TRACKED[..|TRACKED|] == TRACKED;
      match f
      case Title => assert TRACKED[0] == f;
      case Description => assert TRACKED[1] == f;
      case Price => assert TRACKED[2] == f;
      case ThumbnailUrl => assert TRACKED[3] == f;
      case Status => assert TRACKED[4] == f;
      case SubmissionNote => assert TRACKED[5] == f;
    }
  }
}
