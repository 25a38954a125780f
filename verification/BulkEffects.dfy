/** What a bulk operation leaves in the catalogue and in its record (src/courses/courses.service.ts). */
module BulkEffects {
  import opened Prelude
  import opened CourseTypes
  import opened CourseBulk

  /**
   * After the operation each listed, existing, permitted course has the status, the price or, if one is
   * given, the category asked for; its other fields, and every other course, are as they were.
   */
  lemma BulkWrites(st: State, kind: BulkKind, user: User, ids: seq<string>, id: string)
    ensures RunBulk(st, kind, user, ids).courses.Keys == st.courses.Keys
    ensures id in st.courses ==>
              var c, now := st.courses[id], RunBulk(st, kind, user, ids).courses[id];
              if id in ids && (user.privileged || c.instructorId == user.id) then
                now.instructorId == c.instructorId &&
                (kind == Publish(true) ==> now.status == Published) &&
                (kind == Publish(false) ==> now.status == Archived) &&
                (!kind.Publish? ==> now.status == c.status) &&
                now.price == (if kind.PriceUpdate? then kind.price else c.price) &&
                now.category == (if kind.CategoryUpdate? && kind.category.Some? then kind.category else c.category)
              else now == c
  {}

  predicate Applies(courses: Courses, user: User, id: string) { id in courses && MayChange(user, courses[id]) }

  /** The indices, below `n`, of the ids the operation reached. */
  function AppliedAt(courses: Courses, user: User, ids: seq<string>, n: nat): set<int>
    requires n <= |ids|
  {
    set i | 0 <= i < n && Applies(courses, user, ids[i])
  }

  lemma {:induction false} SnapshotsAt(courses: Courses, kind: BulkKind, user: User, ids: seq<string>, n: nat)
    requires n <= |ids|
    ensures forall i :: 0 <= i < n ==> Snapshots(courses, kind, user, ids, n)[i] == SnapshotAt(courses, kind, user, ids, i)
  {
    if n > 0 { SnapshotsAt(courses, kind, user, ids, n - 1); }
  }

  lemma CountStep(courses: Courses, kind: BulkKind, user: User, ids: seq<string>, n: nat)
    requires n < |ids|
    ensures AppliedCount(Snapshots(courses, kind, user, ids, n + 1)) ==
            AppliedCount(Snapshots(courses, kind, user, ids, n)) + (if Applies(courses, user, ids[n]) then 1 else 0)
  {
    assert Snapshots(courses, kind, user, ids, n + 1)[..n] == Snapshots(courses, kind, user, ids, n);
  }

  function Hits(courses: Courses, user: User, ids: seq<string>, n: nat): nat
    requires n <= |ids|
  {
    if n == 0 then 0 else Hits(courses, user, ids, n - 1) + (if Applies(courses, user, ids[n - 1]) then 1 else 0)
  }

  lemma {:induction false} CountIsHits(courses: Courses, kind: BulkKind, user: User, ids: seq<string>, n: nat)
    requires n <= |ids|
    ensures AppliedCount(Snapshots(courses, kind, user, ids, n)) == Hits(courses, user, ids, n)
  {
    if n > 0 {
      CountIsHits(courses, kind, user, ids, n - 1);
      CountStep(courses, kind, user, ids, n - 1);
    }
  }

  lemma {:induction false} HitsIsSize(courses: Courses, user: User, ids: seq<string>, n: nat)
    requires n <= |ids|
    ensures Hits(courses, user, ids, n) == |AppliedAt(courses, user, ids, n)|
  {
    if n > 0 {
      HitsIsSize(courses, user, ids, n - 1);
      AppliedGrows(courses, user, ids, n - 1);
    }
  }

  lemma AppliedGrows(courses: Courses, user: User, ids: seq<string>, n: nat)
    requires n < |ids|
    ensures |AppliedAt(courses, user, ids, n + 1)| ==
            |AppliedAt(courses, user, ids, n)| + (if Applies(courses, user, ids[n]) then 1 else 0)
  {
    assert n !in AppliedAt(courses, user, ids, n);
    assert AppliedAt(courses, user, ids, n + 1) ==
           AppliedAt(courses, user, ids, n) + (if Applies(courses, user, ids[n]) then {n} else {});
  }

  function Below(n: nat): (s: set<int>)
    ensures |s| == n && forall i :: i in s <==> 0 <= i < n
  {
    if n == 0 then {} else Below(n - 1) + {n - 1}
  }

  lemma AllApplied(courses: Courses, user: User, ids: seq<string>)
    ensures |AppliedAt(courses, user, ids, |ids|)| == 0 <==> forall i :: 0 <= i < |ids| ==> !Applies(courses, user, ids[i])
    ensures |AppliedAt(courses, user, ids, |ids|)| == |ids| <==> forall i :: 0 <= i < |ids| ==> Applies(courses, user, ids[i])
  {
    var applied := AppliedAt(courses, user, ids, |ids|);
    if |applied| == |ids| {
      SubsetOfSameSize(applied, Below(|ids|));
      forall i | 0 <= i < |ids| ensures Applies(courses, user, ids[i]) { assert i in applied; }
    }
    if forall i :: 0 <= i < |ids| ==> Applies(courses, user, ids[i]) { assert applied == Below(|ids|); }
    forall i | 0 <= i < |ids| && Applies(courses, user, ids[i]) ensures i in applied && |applied| > 0 {}
  }

  lemma SubsetOfSameSize(a: set<int>, b: set<int>)
    requires a <= b && |a| == |b|
    ensures a == b
  {
    assert |b - a| == |b| - |a|;
  }

  /**
   * The record: each id's outcome in order, as many successes as ids reached, and a status that says
   * whether that is none, all or some of them.
   */
  lemma RecordExactly(courses: Courses, kind: BulkKind, user: User, ids: seq<string>)
    ensures var op := NewOperation(courses, kind, user, ids);
            op.kind == kind && op.initiatedById == user.id && op.totalCount == |ids| == |op.snapshots| &&
            op.successCount == |AppliedAt(courses, user, ids, |ids|)| && op.successCount + op.failureCount == |ids| &&
            (op.status == Failed <==> forall i :: 0 <= i < |ids| ==> !Applies(courses, user, ids[i])) &&
            (op.status == Completed <==> ids != [] && forall i :: 0 <= i < |ids| ==> Applies(courses, user, ids[i])) &&
            op.status != Undone
  {
    CountIsHits(courses, kind, user, ids, |ids|);
    HitsIsSize(courses, user, ids, |ids|);
    AllApplied(courses, user, ids);
  }

  /** An id's snapshot: not found, forbidden, or applied with the one field's value as it was. */
  lemma SnapshotExactly(courses: Courses, kind: BulkKind, user: User, ids: seq<string>, i: nat)
    requires i < |ids|
    ensures var snap := NewOperation(courses, kind, user, ids).snapshots[i];
            snap.courseId == ids[i] &&
            (snap.error == NotFound <==> ids[i] !in courses) &&
            (snap.error == Forbidden <==> ids[i] in courses && !MayChange(user, courses[ids[i]])) &&
            (snap.applied <==> snap.error == NoError) &&
            (snap.previous.status.Some? <==> snap.applied && kind.Publish?) &&
            (snap.previous.price.Some? <==> snap.applied && kind.PriceUpdate?) &&
            (snap.previous.category.Some? <==> snap.applied && kind.CategoryUpdate?) &&
            (snap.applied && ids[i] !in ids[..i] ==>
               var c := courses[ids[i]];
               (kind.Publish? ==> snap.previous.status == Some(c.status)) &&
               (kind.PriceUpdate? ==> snap.previous.price == Some(c.price)) &&
               (kind.CategoryUpdate? ==> snap.previous.category == Some(c.category)))
  {
    SnapshotsAt(courses, kind, user, ids, |ids|);
  }

  /** Undo is refused exactly for an unknown operation, a stranger, or one undone before, and then changes nothing. */
  lemma UndoRefusedExactly(st: State, opId: nat, user: User)
    ensures var (next, error) := UndoBulk(st, opId, user);
            (error == Some(OperationNotFound) <==> opId !in st.ops) &&
            (opId in st.ops ==>
               var op := st.ops[opId];
               var may := user.privileged || user.id == op.initiatedById;
               (error == Some(NotInitiator) <==> !may) &&
               (error == Some(AlreadyUndone) <==> may && op.status == Undone)) &&
            (error.Some? ==> next == st) &&
            (error.None? ==>
               next.nextOp == st.nextOp && next.courses.Keys == st.courses.Keys &&
               next.ops == st.ops[opId := st.ops[opId].(status := Undone)])
  {}
}
