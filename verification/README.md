# Verified models of the TeachLink backend's state machines

Dafny models of the services whose behaviour is more than wiring: collaborative editing, the two cache
protocols, the course catalogue and enrolment, refresh-token rotation, and a few smaller pieces with
arithmetic or run invariants. Each service that updates fields is a class whose methods are proved equal
to a specification function of the old state; the theorems are about those functions and about whole runs
of them. Asynchronous protocols are state machines in which every `await` ends a step and any step that is
enabled may come next. Tables and Redis are maps.

`dafny verify dfyconfig.toml` checks everything.

| file | models |
|---|---|
| `OtCrdt.dfy`, `OtIntent.dfy`, `OtBatch.dfy`, `OtConflict.dfy` | operational transform, its scope, conflict resolution |
| `ChangeLog.dfy` | revision counter, operation log and the gateway that drives them |
| `SingleFlight.dfy` | `compute` and its `inFlight` map under interleaving |
| `GetOrSet.dfy`, `GetOrSetValues.dfy`, `GetOrSetRuns.dfy`, `PollLoop.dfy` | lock, poll and fallback across processes |
| `TenantKeys.dfy`, `TenantCache.dfy` | tenant key scoping and isolation |
| `CourseBulk.dfy`, `BulkEffects.dfy`, `BulkUndo.dfy` | bulk operations with undo |
| `CourseVersions.dfy`, `VersionHistory.dfy` | versions and rollback |
| `Enrollments.dfy`, `BulkEnrollment.dfy`, `PrerequisiteChains.dfy`, `Completions.dfy` | enrolment, batches, prerequisites, completion |
| `AuthTokens.dfy`, `TokenRotation.dfy`, `TokenLifetimes.dfy` | login, refresh, logout |
| `StringHash.dfy`, `AdaptiveTtl.dfy`, `FlagAudit.dfy`, `RequestRouter.dfy` | hash, cache lifetimes, flag audit, weighted routing |
| `Prelude.dfy`, `CourseTypes.dfy` | shared values |

## What the code turned out to do

Where the code and its comments disagree the model follows the code.

- **Convergence.** The transform promises that both orders of two concurrent operations meet
  (`src/collaboration/ot-crdt.service.ts:26-29`). They do exactly when: two inserts at one position have
  texts that commute; no non-empty insert lies strictly inside the other's deleted range; two deletes with
  one start have equal lengths. Overlapping deletes with different starts do meet, but on a document that
  has lost too much text, and they are exactly the pairs whose transformed operation leaves the document.
- **The gateway's transform loop has nothing to transform.** The incoming operation is stamped with a new
  revision first, and the log never holds that revision yet.
- **A full sync** is enough for a client exactly when it is behind by no more than fifty and no more than
  the log has kept since the last `clear`; a limit of zero returns the whole log.
- **Waiters in `getOrSet`** read the raw key while `set` writes the scoped one, and the lock is on the raw
  key, so callers of different tenants share it. A waiter of any tenant is handed what the lock holder has
  just published exactly when the holder has no tenant or its key is already scoped (or the raw key held
  that very value before). So a tenant's waiter can be handed a value stored without a tenant, and a caller
  without one misses what a tenant's holder stored. If no call stores under a waiter's raw key, as when one
  tenant uses unscoped keys, every waiter polls in vain and runs its own factory.
- **"Only one caller in the fleet runs the factory"** (`src/caching/caching.service.ts:200-201`) fails over
  time and at one time. Over time, because there is no second read under the lock: a call that missed before
  the value was stored takes the freed lock and computes again; `compute` has the same gap, since its lookup
  is not repeated either. At one time, because a waiter whose deadline has passed runs the factory without
  the lock. Two factory runs for one key overlap only when one of them has outlived its lease, or has waited
  past its deadline; the latter happens even when all calls use one time to live.
- **Single flight holds per service instance**: the `inFlight` map is a field, and the service injects a
  request-scoped one (`src/tenancy/isolation/isolation.service.ts:10`).
- **Tenants** are isolated exactly when neither `t + ":"` nor `u + ":"` is a prefix of the other; for
  colon-free ids that is always so.
- **Categories cannot be cleared.** A missing category is assigned as `undefined`, which a save does not
  write. So clearing changes nothing (against `src/courses/courses.service.ts:559`), and undo leaves the
  first category a course was given.
- **Undo of a bulk operation** is exact unless it really changed a course that had no category, or one that
  is listed twice: there the second snapshot records the value already assigned. The DTO demands unique ids
  (`src/courses/dto/bulk-operations.dto.ts:38`); then a whole stack of operations undoes exactly when none
  of them gives a course its first category.
- **A soft-deleted prerequisite is not asked for**: the relation is not loaded. A prerequisite is enforced
  in every run exactly when it stays in the catalogue, or is the course itself. Deleting one of two courses
  that require each other lets anyone into the other.
- **Rollback clears the submission note**: no version ever stores one. Only rollbacks record `changes`, and
  every one records the price, changed or not: the loaded decimal is text and is compared with a number.
- **A redeemed refresh token** is refused by the hash comparison, so presenting it again never reaches the
  branch that revokes the session; that branch is reached only after a rotation broke off between
  blacklisting and storing the new hash (which locks the user out), or after logout was handed that id.
- **`setFlag`** does not skip a change to the same value, although its comment says so
  (`src/config/feature-flag-audit.service.ts:80`).
- **Adaptive lifetimes** can stall on rounding short of a bound; the exact conditions are proved, and all
  shipped rules reach both bounds.
- **`selectTarget`** picks a first target of weight zero when the draw is exactly 0. Its last line is
  reached only if the weights sum to less than zero.

## Model

| member | source | states |
|---|---|---|
| OtCrdt.ConvergenceExactly | src/collaboration/ot-crdt.service.ts:26-59 | the documented convergence promise holds on every document exactly for the pairs `Compatible` names |
| OtCrdt.CompatibleConverges | src/collaboration/ot-crdt.service.ts:30-59 | on a compatible in-bounds pair, a then b rebased gives the same document as b then a rebased |
| OtCrdt.IncompatibleDiverges | src/collaboration/ot-crdt.service.ts:30-59 | every other pair has a document on which the two orders end differently |
| OtCrdt.BoundsExactly | src/collaboration/ot-crdt.service.ts:45-53 | the rebased operation stays inside the changed document, always, exactly when the pair is not two overlapping deletes with different starts |
| OtIntent.IntentExactly | src/collaboration/ot-crdt.service.ts:30-59 | both orders reach the merge read off the original document (survivors in order, each insert in its gap) exactly for compatible pairs without such an overlap |
| OtIntent.OverlapLosesText | src/collaboration/ot-crdt.service.ts:47-53 | overlapping deletes agree on a document shorter than the intended one |
| OtCrdt.TransformKeeps | src/collaboration/ot-crdt.service.ts:30-59 | only position and length ever change; another session's operation changes nothing, and the flag says so |
| OtBatch.BatchConverges | src/collaboration/collaboration.gateway.ts:98-102 | folding the transform over a run of operations commutes with the whole run, when each step of the fold meets a compatible pair in bounds |
| OtBatch.ApartBatchConverges | src/collaboration/collaboration.gateway.ts:98-102 | so it does when each operation of the run, as sent, edits only text before or after the folded one's; decided on positions and lengths alone |
| OtConflict.WinnerIsTop | src/collaboration/ot-crdt.service.ts:65-72 | any bracket of pairwise resolutions yields an entrant no other entrant outranks: highest revision, then smallest user id |
| OtConflict.OrderIndependentExactly | src/collaboration/ot-crdt.service.ts:65-72 | order and grouping never matter exactly when the top rank is not shared |
| OtConflict.DistinctKeysDecide | src/collaboration/ot-crdt.service.ts:65-72 | with distinct (revision, user) pairs every bracket has the same winner |
| Prelude.LexLeExactly | src/collaboration/ot-crdt.service.ts:65-72 | user ids compare by prefix or first differing unit, as JavaScript strings do |
| ChangeLog.OtCrdtService.NextRevision | src/collaboration/ot-crdt.service.ts:74-78 | raises one session's counter by one and leaves the others |
| ChangeLog.ChangeHistoryService.Record | src/collaboration/change-history.service.ts:15-24 | appends one entry to the operation's own session |
| ChangeLog.ChangeHistoryService.Clear | src/collaboration/change-history.service.ts:35-37 | drops one session's log and nothing else |
| ChangeLog.CollaborationGateway.HandleOperation | src/collaboration/collaboration.gateway.ts:83-115 | broadcasts and logs the operation as sent, stamped with the next revision; the log stays gapless |
| ChangeLog.CollaborationGateway.HandleSync | src/collaboration/collaboration.gateway.ts:117-128 | answers the counter and the newest fifty entries |
| ChangeLog.ConcurrentExactly | src/collaboration/collaboration.gateway.ts:94-96 | the filter passes exactly other users' operations under the given revision |
| ChangeLog.NothingConcurrent | src/collaboration/collaboration.gateway.ts:94-96 | in a gapless log the filter for concurrent operations is always empty |
| ChangeLog.RunGapless | src/collaboration/change-history.service.ts:15-37 | in every run each session's log holds consecutive revisions up to its counter, also after `clear` |
| ChangeLog.SessionsIndependent | src/collaboration/collaboration.gateway.ts:83-115 | a session's counter and log depend only on its own requests, however sessions interleave |
| ChangeLog.CounterCounts | src/collaboration/ot-crdt.service.ts:74-82 | the counter is the number of the session's operations, whatever was cleared |
| ChangeLog.LogHoldsSent | src/collaboration/collaboration.gateway.ts:83-115 | in every run a session's log holds exactly the edits sent since its last `clear`, in order, each with its kind, position, content and length as sent |
| ChangeLog.LatestExactly | src/collaboration/change-history.service.ts:30-33 | a positive limit gives the newest so many entries, zero the whole log |
| ChangeLog.HistoryIsSuffix | src/collaboration/change-history.service.ts:26-28 | `getHistory(s, k)` is exactly the log after revision k |
| ChangeLog.CatchUp | src/collaboration/change-history.service.ts:26-28 | replaying it on the document at k equals replaying the whole log |
| ChangeLog.FullSyncReaches | src/collaboration/change-history.service.ts:30-33 | for any k, the reply holds every revision a client at k misses exactly when these are at most fifty and at most the ones the log still has |
| ChangeLog.FullSyncAgrees | src/collaboration/change-history.service.ts:26-33 | for any k, the reply holds what `getHistory(s, k)` would exactly when that is at most fifty entries |
| SingleFlight.ComputationCacheService.AfterLookup | src/caching/computation-cache.service.ts:77-105 | from the lookup's answer to the next await: hit, join or lead, with the counters and the map it leaves |
| SingleFlight.ComputationCacheService.OnSettled | src/caching/computation-cache.service.ts:92-105 | the `finally` callback removes the key |
| SingleFlight.HitIsReturned | src/caching/computation-cache.service.ts:76-81 | a call that found a value returns it and counts one hit; nothing else changes |
| SingleFlight.HitExactly | src/caching/computation-cache.service.ts:76-81 | in every run a call returns a cached value exactly when its key held it as the lookup was answered |
| SingleFlight.MissIsComputed | src/caching/computation-cache.service.ts:83-105 | a miss joins the run pending for its key, or counts one miss and launches one, throwing ones included |
| SingleFlight.LaunchedExactly | src/caching/computation-cache.service.ts:76-105 | in every run a call launches the factory exactly when it missed and no run for its key is unsettled |
| SingleFlight.RunEndsExactly | src/caching/computation-cache.service.ts:94-102 | a run resolves exactly when it finished after its write; it rejects when its factory or its write fails, and only then |
| SingleFlight.OneFlightPerKey | src/caching/computation-cache.service.ts:64-106 | in every interleaving of one instance's calls at most one run per key is unsettled, and a key is in `inFlight` exactly while its run is, failing factories and cache writes included |
| SingleFlight.JoinersShareTheLeader | src/caching/computation-cache.service.ts:86-89 | everyone answered by one run gets one outcome, and exactly one call launched it |
| SingleFlight.JoinerHasLeader | src/caching/computation-cache.service.ts:86-89 | every joiner has another call for its key that launched the run it waits on |
| SingleFlight.ValuesAreProduced | src/caching/computation-cache.service.ts:64-106 | every value handed out was produced by a factory run for the caller's key |
| SingleFlight.CountersAddUp | src/caching/computation-cache.service.ts:143-151 | calls past the lookup are hits plus misses plus joins, and misses are factory launches |
| SingleFlight.WarmLaunchExactly | src/caching/computation-cache.service.ts:76-104 | a call that missed launches exactly when nothing for its key is in flight, and on a cached value exactly when that was written since its lookup |
| SingleFlight.SecondLaunch | src/caching/computation-cache.service.ts:76-104 | a run in which a second factory starts with the first one's value in the cache |
| GetOrSetRuns.FirstReadExactly | src/caching/caching.service.ts:216-256 | a first read returns the value under the storage key at once, changing nothing; a miss goes to the lock if there is a lock service, else to the factory |
| GetOrSetRuns.FirstReadReturnsExactly | src/caching/caching.service.ts:216-219 | in every run it returns a value exactly when the storage key was last touched by a call that stores under it |
| GetOrSetRuns.LockTakenExactly | src/caching/caching.service.ts:221-238 | in every run a call gets the lock exactly when no lease for its own key, held or left behind, still runs; else it goes to wait |
| GetOrSetRuns.ThrowsExactly | src/caching/caching.service.ts:210-259 | in every run a finished call threw exactly when its first read, its acquire, its factory, its write or its recheck failed; a failing release or polling read never costs it its answer |
| GetOrSetRuns.SleepsExactly | src/caching/caching.service.ts:543-556 | in every run a waiter sleeps exactly until its deadline has passed, each time min(50·2^i, 500) ms after i reads |
| GetOrSet.OverlapNeedsExpiry | src/caching/caching.service.ts:210-259 | two calls for one key are in the critical section together only if one has outlived its lease |
| GetOrSet.FactoriesOverlapOnly | src/caching/caching.service.ts:224-258 | with a lock service, two factory runs for one key overlap only when one has outlived its lease, or is an unlocked waiter past its own deadline |
| GetOrSetRuns.ShorterWaitOverlaps | src/caching/caching.service.ts:246-258 | a run in which a waiter with the shorter time to live computes beside a holder whose lease runs |
| GetOrSetRuns.LateHolderOverlaps | src/caching/caching.service.ts:246-258 | the same with one time to live for all: the holder fails, a third call locks, the waiter gives up |
| GetOrSet.LeftoverLeasesExplained | src/caching/caching.service.ts:560-571 | on success and failure the lock is given back: a lease left over belongs to a call still inside, or one whose release, or the answer to whose acquire, was lost |
| GetOrSet.ExecLockSound | src/orchestration/locks/distributed-lock.service.ts:31-46 | in every interleaving tokens are unique and a running lease is the one in the table |
| GetOrSetValues.ValuesComeFromFactories | src/caching/caching.service.ts:210-259 | every cached or returned value came from a factory of a call that stores under the key it was read from |
| GetOrSetValues.WaiterSeesPublishedExactly | src/caching/caching.service.ts:221-252 | the next raw read of any waiter returns what the holder has just published exactly when the holder has no tenant or its key is already scoped, or the raw key held that value before |
| GetOrSetRuns.WaiterReturnsExactly | src/caching/caching.service.ts:238-252 | in every run a waiter's read returns a value exactly when the raw key was last touched by a call that stores under it |
| GetOrSetValues.WaitersRecompute | src/caching/caching.service.ts:236-258 | in every run, if no call stores under a waiter's raw key, it is never in the cache and what the waiter returns comes from its own factory |
| GetOrSetValues.UnscopedTenantRecomputes | src/caching/caching.service.ts:229-258 | so it is for every waiter with an unscoped key when all calls are one tenant's |
| GetOrSetRuns.WaiterMisses | src/caching/caching.service.ts:221-247 | a run in which a tenant's holder has published under an unscoped key and a waiter for that key, of its tenant, another or none, goes on to poll |
| GetOrSetRuns.WaiterTakesUntenanted | src/caching/caching.service.ts:221-244 | a run in which a waiter of any tenant is handed what a holder without one published |
| GetOrSetRuns.WarmFactoryExactly | src/caching/caching.service.ts:216-229 | a call at the lock starts its factory exactly when the lock is free, and on a cached value exactly when that was stored since its first read |
| GetOrSetRuns.FactoryRunsTwice | src/caching/caching.service.ts:200-233 | a run in which the second caller takes the freed lock and computes a value that is cached |
| PollLoop.ResolveLockTtl | src/caching/caching.service.ts:530-538 | a positive override, else a positive ttl in seconds, each raised to one second, else five seconds |
| PollLoop.PollUntilValuePresent | src/caching/caching.service.ts:540-558 | on any timer and cache: returns the first value found, gives up only once the deadline has passed, starts no turn after it |
| PollLoop.OverrunBounded | src/caching/caching.service.ts:540-558 | it overruns by less than its last turn: under 500 ms with exact sleeps and instant reads |
| PollLoop.WaitDoubles | src/caching/caching.service.ts:540-558 | doubling up to the cap is that closed form, and every wait is between 50 and 500 ms |
| PollLoop.ElapsedClosed | src/caching/caching.service.ts:540-558 | the total wait after n of them |
| TenantKeys.BlankExactly | src/caching/caching.service.ts:150-161 | white space alone is blank, and one printable ASCII character is enough not to be |
| TenantKeys.ResolvesExactly | src/caching/caching.service.ts:150-161 | the tenant in force is one of the two named and never blank; there is none exactly when neither names one |
| TenantKeys.ScopedIsInNamespace | src/caching/caching.service.ts:163-177 | scoping always lands in the tenant's namespace, is idempotent, and is the identity exactly there |
| TenantKeys.KeysShareExactly | src/caching/caching.service.ts:171-176 | two keys of a tenant land on one entry exactly when they are equal without its prefix, or without `cache:` |
| TenantKeys.PlainKeysShareExactly | src/caching/caching.service.ts:171-176 | keys without `cache:` share an entry exactly when equal; `cache:k` shares that of k exactly when it is not scoped already |
| TenantKeys.BuildsExactly | src/caching/cache-key.builder.ts:5-64 | a builder refuses exactly a blank tenant; else each kind of key in its documented form |
| TenantKeys.BuiltKeysAreScoped | src/caching/cache-key.builder.ts:5-64 | scoping leaves every built key alone |
| TenantKeys.KeysMeetExactly | src/caching/cache-key.builder.ts:5-64 | two requests of a tenant share a key exactly when one builder made both from the same arguments, searches by hash and computations by their parts joined |
| TenantKeys.NamespacesMeetExactly | src/caching/caching.service.ts:163-177 | two tenants can land on one entry exactly when one id with its colon is a prefix of the other |
| TenantCache.CachingService.Get | src/caching/caching.service.ts:179-188 | reads the scoped key; null reads as absent |
| TenantCache.CachingService.Set | src/caching/caching.service.ts:190-194 | writes the scoped key only |
| TenantCache.CachingService.Delete | src/caching/caching.service.ts:261-264 | removes the scoped key only |
| TenantCache.ReadsLastWrite | src/caching/caching.service.ts:179-264 | in every run a tenant reads the value it last set under a key of the same name, and nothing after a delete or when it set none |
| TenantCache.NextAnswer | src/caching/caching.service.ts:179-188 | and that is what its next `get` answers |
| TenantCache.NonInterference | src/caching/caching.service.ts:179-194 | what a tenant sees in any run is what it sees when only its own operations run |
| TenantCache.IsolationExactly | src/caching/caching.service.ts:163-194 | two tenants never influence each other exactly when their namespaces do not meet |
| TenantCache.ColonFreeTenantsIsolated | src/caching/caching.service.ts:163-194 | colon-free tenants are isolated in every run |
| CourseBulk.CoursesService.RunBulkOperation | src/courses/courses.service.ts:654-722 | saves the changed objects of exactly the listed, existing, permitted courses, and stores snapshots, counts and status |
| CourseBulk.CoursesService.UndoBulkOperation | src/courses/courses.service.ts:595-647 | refuses unknown, foreign and undone operations, else assigns the snapshots in order, saves, and marks it undone |
| BulkEffects.BulkWrites | src/courses/courses.service.ts:523-576 | each listed, existing, permitted course ends published or archived, with the price, or with the category if one is given; all else is unchanged |
| BulkEffects.RecordExactly | src/courses/courses.service.ts:700-721 | the record counts the ids reached, and its status says whether that is none, all or some |
| BulkEffects.SnapshotExactly | src/courses/courses.service.ts:670-693 | each id's snapshot: not found, forbidden, or applied with the one field's earlier value |
| BulkEffects.UndoRefusedExactly | src/courses/courses.service.ts:595-616 | undo is refused exactly for an unknown operation, a stranger, or one undone before, and then changes nothing |
| BulkUndo.UndoRestoresExactly | src/courses/courses.service.ts:595-722 | undo right after an operation restores the catalogue exactly when every course listed twice, or without a category to write back, already had the value being set |
| BulkUndo.FirstCategoryStays | src/courses/courses.service.ts:634-634 | a course given its first category keeps it through the undo |
| BulkUndo.ClearingChangesNothing | src/courses/courses.service.ts:558-576 | the table takes the assigned value exactly when that does not clear a category that is set; clearing never changes the catalogue |
| BulkUndo.StackRoundTrip | src/courses/courses.service.ts:523-722 | undoing any sequence of publish, price and category operations newest first, each by its initiator or a privileged user, restores the catalogue when each meets that condition as it starts |
| BulkUndo.StackRoundTripExactly | src/courses/courses.service.ts:523-722 | with unique ids it does so exactly when none of the operations gives a course its first category |
| BulkUndo.UndoOutOfOrder | src/courses/courses.service.ts:595-647 | undo after later work on other fields or courses leaves the catalogue as if the operation had never run, exactly when undoing at once would have restored it |
| BulkUndo.RestoredExactly | src/courses/courses.service.ts:595-647 | what undo leaves in the table for each course, whatever it has become: repeated ids and missing categories included |
| BulkUndo.NeverUndoneAgain | src/courses/courses.service.ts:595-647 | an undone operation is refused ever after, with no change |
| CourseVersions.CoursesService.ComputeCourseChanges | src/courses/courses.service.ts:449-475 | records exactly the tracked fields whose loaded and current values are not identical, with both, undefined as null |
| CourseVersions.CoursesService.GetVersionDiff | src/courses/courses.service.ts:343-347 | the changes from a version to the course, both just loaded, or the missing one |
| CourseVersions.CoursesService.Create | src/courses/courses.service.ts:97-137 | a draft course with version 1, or a missing prerequisite |
| CourseVersions.CoursesService.Update | src/courses/courses.service.ts:194-256 | assigns the given fields and appends the next version |
| CourseVersions.CoursesService.CreateVersionSnapshot | src/courses/courses.service.ts:416-447 | appends the next number with the changes since the newest version |
| CourseVersions.CoursesService.RollbackToVersion | src/courses/courses.service.ts:349-404 | copies the version's fields to the course and appends a snapshot |
| VersionHistory.CreateExactly | src/courses/courses.service.ts:97-137 | a new course has the fields given, as a draft, and version 1 of them; a missing prerequisite is refused |
| VersionHistory.UpdateExactly | src/courses/courses.service.ts:194-248 | refusals by cause; an accepted update leaves in each field what was given or was there, and records it |
| VersionHistory.RollbackRefusedExactly | src/courses/courses.service.ts:360-377 | refusals by cause; an accepted rollback touches no other course, owner or prerequisite |
| VersionHistory.NumberedInRuns | src/courses/courses.service.ts:108-447 | in every reachable state a course's versions are numbered exactly 1 to n, at least one |
| VersionHistory.NumbersUnique | src/courses/courses.service.ts:194-256 | the unique index on course and number is never violated by a sequential run |
| VersionHistory.AppendOnly | src/courses/courses.service.ts:108-447 | versions are never altered or removed |
| VersionHistory.ChangesRebuild | src/courses/courses.service.ts:449-475 | a rollback's recorded changes applied to the previous version rebuild every tracked field up to numeric equality; price is always recorded, any other field exactly when the two versions differ in it |
| VersionHistory.IdleRollbackRecordsPrice | src/courses/courses.service.ts:382-389 | rolling back to the newest version records a price change from the text to the equal number, and nothing else |
| VersionHistory.DiffExactly | src/courses/courses.service.ts:343-347 | in every run the diff lists exactly the tracked fields that differ, price included, and exists exactly for a present course and a number from 1 to n |
| VersionHistory.DiffFields | src/courses/courses.service.ts:449-475 | field by field: title, description, price, thumbnail, status and note are listed exactly when they differ |
| VersionHistory.RollbackClosesDiff | src/courses/courses.service.ts:343-404 | after a rollback to n the diff with n is empty |
| VersionHistory.RollbackRestores | src/courses/courses.service.ts:349-404 | whatever happened since, rolling back to n restores version n's content; it succeeds exactly for an existing course and a permitted user |
| VersionHistory.UnknownNumberRefused | src/courses/courses.service.ts:372-377 | a number outside 1 to n is refused with no change |
| VersionHistory.RollbackClearsNote | src/courses/courses.service.ts:379-386 | no reachable rollback leaves a submission note |
| Enrollments.EnrollmentsService.Enroll | src/courses/enrollments.service.ts:43-95 | checks in order, else adds an active row and its event |
| Enrollments.EnrollmentsService.BulkEnroll | src/courses/enrollments.service.ts:100-199 | one transaction over the items, committed with its events only when nothing failed |
| Enrollments.EnrollmentsService.UpdateProgress | src/courses/enrollments.service.ts:272-303 | progress never falls; reaching 100 completes once |
| Enrollments.EnrollmentsService.Unenroll | src/courses/enrollments.service.ts:308-332 | removes the pair's row, or finds none |
| Completions.EnrollExactly | src/courses/enrollments.service.ts:49-94 | accepted exactly for a published course the user is not in and owes no present prerequisite for; refusals by cause, without change |
| Completions.ProgressExactly | src/courses/enrollments.service.ts:272-303 | refusals by cause, without change; an accepted update sets this row's progress and no other row |
| Completions.CompletedAtHundred | src/courses/enrollments.service.ts:281-290 | in every run progress stays within 0 and 100, and a row is completed exactly at 100 |
| Completions.CompletionLoggedExactly | src/courses/enrollments.service.ts:285-292 | in every reachable state an action logs a completion exactly when it is the owner's update to 100 of a row not there yet, once |
| Completions.UnenrolledExactly | src/courses/enrollments.service.ts:308-332 | in every reachable state the pair is gone afterwards and every other row is as it was |
| Completions.BatchReports | src/courses/enrollments.service.ts:107-192 | a batch's counts: hopeless items failed, newcomers enrolled once each, the rest skipped, and an error for each of the others |
| Completions.ErrorsExplained | src/courses/enrollments.service.ts:125-170 | each reported error names an item of the batch with its own cause |
| BulkEnrollment.BatchClosed | src/courses/enrollments.service.ts:100-199 | a batch's rows and counts, said without the order of its items |
| BulkEnrollment.OrderDoesNotMatter | src/courses/enrollments.service.ts:100-199 | any permutation of a batch gives the same counts and the same rows |
| BulkEnrollment.AllOrNothing | src/courses/enrollments.service.ts:100-199 | it commits exactly when no item is hopeless before it; a failed batch changes and emits nothing, a committed one enrols everyone listed |
| BulkEnrollment.CommittedLikeEnroll | src/courses/enrollments.service.ts:43-199 | it commits exactly when enrolling one by one meets no refusal but "already enrolled", and then ends in the very same state |
| PrerequisiteChains.ChainCompletedInRuns | src/courses/enrollments.service.ts:204-226 | in every run whoever is enrolled has earlier completed every course on the prerequisite chain, as far back as its courses stay in the catalogue |
| PrerequisiteChains.CyclesStayEmpty | src/courses/enrollments.service.ts:204-226 | nobody is ever enrolled in a course on a prerequisite cycle whose courses stay |
| PrerequisiteChains.EnforcedExactly | src/courses/enrollments.service.ts:204-226 | in all runs that keep a given set of courses a prerequisite is enforced, exactly when it is kept or is the course itself |
| PrerequisiteChains.DeletionOpensCycle | src/courses/enrollments.service.ts:204-211 | of two courses that require each other, deleting one lets anyone into the other |
| PrerequisiteChains.PairsStayUnique | src/courses/enrollments.service.ts:43-199 | no run holds two rows for one user and course |
| PrerequisiteChains.RunSound | src/courses/enrollments.service.ts:43-332 | every enrolment and completion event rests on the earlier event its operation checked for |
| AuthTokens.AuthService.Login | src/auth/auth.service.ts:52-58 | issues a pair and stores the refresh hash for an active account |
| AuthTokens.AuthService.RefreshTokens | src/auth/auth.service.ts:73-185 | every refusal in its order, the revocation branch, the interrupted rotation and the completed one |
| AuthTokens.AuthService.Logout | src/auth/auth.service.ts:187-202 | blacklists the given id for its remaining life and clears the stored hash |
| TokenLifetimes.LoginExactly | src/auth/auth.service.ts:52-58 | answers exactly an active account, with a stored refresh token and a fifteen-minute access token of another id |
| TokenLifetimes.FreshTokenLives | src/auth/auth.service.ts:219-245 | a refresh token just issued is redeemable for less than seven days, exactly |
| TokenLifetimes.RefreshRefusedExactly | src/auth/auth.service.ts:73-185 | every refusal by its cause |
| TokenLifetimes.RotationRenews | src/auth/auth.service.ts:73-185 | a completed rotation stores the new refresh token, of the same user and seven days, and records the redemption |
| TokenLifetimes.RotationGoesOn | src/auth/auth.service.ts:73-185 | in every run what a redemption answers is redeemable in turn until it expires, exactly |
| TokenLifetimes.RefusalChanges | src/auth/auth.service.ts:73-185 | a noticed reuse clears the user's stored hash; any other refusal before rotation changes nothing |
| TokenLifetimes.EntryCoversToken | src/auth/services/token-blacklist.service.ts:13-17 | a blacklist entry outlasts its token, by less than a second |
| TokenLifetimes.RedeemedStaysBlacklisted | src/auth/auth.service.ts:73-185 | in every run a redeemed token's id is blacklisted until the token expires, unless logout was handed that id as well |
| TokenLifetimes.LogoutExactly | src/auth/auth.service.ts:187-206 | clears the user's hash and lists the given id, alone, until its own expiry |
| TokenLifetimes.OthersKeepSession | src/auth/auth.service.ts:52-217 | no call touches another user's account, stored hash or newest token |
| TokenRotation.OnlyTheLastIssued | src/auth/auth.service.ts:73-185 | in every run a token is redeemable exactly when it is the last issued to its user, still stored, unexpired, not blacklisted, and the account is active |
| TokenRotation.RedeemedOnce | src/auth/auth.service.ts:73-185 | no token is redeemed twice |
| TokenRotation.ReuseIsRefusedQuietly | src/auth/auth.service.ts:73-185 | a redeemed token is refused ever after with no change of state and no revocation |
| TokenRotation.NothingAfterLogout | src/auth/auth.service.ts:187-206 | after logout nothing is redeemable until the next login |
| TokenRotation.ReuseBranchExplained | src/auth/auth.service.ts:73-185 | the revocation branch needs a broken-off rotation or an id handed to logout |
| TokenRotation.StoredTokenRedeems | src/auth/auth.service.ts:73-217 | a stored token whose own id met neither is not blacklisted and redeems until it expires |
| TokenRotation.BrokenRotationLocksOut | src/auth/auth.service.ts:73-185 | a rotation that fails after blacklisting leaves a stored token that cannot redeem and whose retry revokes |
| StringHash.HashString | src/ab-testing/ab-testing.service.ts:345-353 | the loop is the absolute value of the base-31 polynomial wrapped to 32 bits |
| StringHash.HashUserIdToVariant | src/ab-testing/ab-testing.service.ts:428-436 | the same hash modulo the count: a valid index |
| StringHash.AssignUserToVariant | src/ab-testing/ab-testing.service.ts:413-426 | an error exactly for no variants, else the variant at that index |
| StringHash.SearchHash | src/caching/cache-key.builder.ts:45-49 | the `& hash` form computes the same polynomial, signed |
| StringHash.OneUnit | src/ab-testing/ab-testing.service.ts:345-353 | one code unit hashes to itself and the empty string to 0 |
| StringHash.HornerStep | src/ab-testing/ab-testing.service.ts:345-353 | one shift-subtract-wrap turn is one turn of Horner's rule, wrapped |
| StringHash.HashJoins | src/ab-testing/ab-testing.service.ts:345-353 | hash(a+b) is hash(a) moved up by the length of b in base 31, plus hash(b), wrapped |
| StringHash.HashJoinsByPower | src/ab-testing/ab-testing.service.ts:345-353 | the same with the power written out: hash(a)·31^length(b) + hash(b), wrapped |
| StringHash.CollideExactly | src/ab-testing/ab-testing.service.ts:345-353 | two strings share a hash exactly when their polynomials agree modulo 2^32 |
| AdaptiveTtl.WithoutRuleUnchanged | src/caching/adaptive-ttl.service.ts:119-123 | no rule or a disabled one changes nothing and recommends nothing |
| AdaptiveTtl.WithoutMetricsExactly | src/caching/adaptive-ttl.service.ts:125-128 | without both metrics a default inside the bounds comes back unchanged, another as the nearer bound |
| AdaptiveTtl.MovesExactly | src/caching/adaptive-ttl.service.ts:130-146 | between the bounds of a usual rule a lifetime grows exactly for a busy key and shrinks exactly for an idle one, by these amounts |
| AdaptiveTtl.RecommendsExactly | src/caching/adaptive-ttl.service.ts:428-446 | the handler recommends the adjusted lifetime exactly when it differs from the current one |
| AdaptiveTtl.ResultBounded | src/caching/adaptive-ttl.service.ts:113-168 | an enabled rule's bounds hold for any start, with or without metrics |
| AdaptiveTtl.StepRoundsAim | src/caching/adaptive-ttl.service.ts:130-168 | a step is the rounded multiple for its reason, clamped to the bounds |
| AdaptiveTtl.DistanceShrinks | src/caching/adaptive-ttl.service.ts:113-168 | a step that changes anything strictly shrinks the distance left to travel |
| AdaptiveTtl.RecommendationsStop | src/caching/adaptive-ttl.service.ts:421-447 | following recommendations under constant metrics ends within the bounds with no more of them, for every enabled rule and every start |
| AdaptiveTtl.HighTrafficReachesMaxExactly | src/caching/adaptive-ttl.service.ts:132-135 | every lifetime climbs to the maximum exactly when the minimum grows by half a second or is the maximum |
| AdaptiveTtl.LowHitRateReachesMinExactly | src/caching/adaptive-ttl.service.ts:136-139 | every lifetime sinks to the minimum exactly when the one above it shrinks by more than half a second |
| AdaptiveTtl.LowFrequencyReachesMinExactly | src/caching/adaptive-ttl.service.ts:140-143 | likewise for a fifth off: exactly when the minimum is at least two or is the maximum |
| AdaptiveTtl.UsualRulesReachBounds | src/caching/adaptive-ttl.service.ts:48-168 | minima of a minute and factors of 1.1 or more reach both bounds |
| AdaptiveTtl.DefaultRulesAreUsual | src/caching/adaptive-ttl.service.ts:48-96 | the shipped rules are of that kind |
| FlagAudit.FeatureFlagAuditService.SetFlag | src/config/feature-flag-audit.service.ts:86-114 | sets the flag and puts the numbered entry with the old value first |
| FlagAudit.FeatureFlagAuditService.PrependToHistory | src/config/feature-flag-audit.service.ts:126-131 | the newest entry in front, the hundred-and-first dropped |
| FlagAudit.EntryExactly | src/config/feature-flag-audit.service.ts:91-105 | a change sets its flag alone, and its entry names the actor and the value before, false for a missing flag |
| FlagAudit.RepeatIsRecorded | src/config/feature-flag-audit.service.ts:80-105 | setting a flag to the value it has still takes an id and an entry |
| FlagAudit.BufferIsNewestFirst | src/config/feature-flag-audit.service.ts:86-131 | in every run the buffer is the last min(100, n) changes, newest first, with consecutive ids and the values they replaced |
| FlagAudit.FlagsAreReplayed | src/config/feature-flag-audit.service.ts:86-93 | every flag reads as its last change, else as initially |
| FlagAudit.EntriesChain | src/config/feature-flag-audit.service.ts:86-131 | successive entries of one key chain old value to previous new value, ids counting up |
| FlagAudit.RewindRestoresExactly | src/config/feature-flag-audit.service.ts:91-105 | walking back over the last n entries rebuilds the flags before them exactly when every flag they touch existed by then |
| FlagAudit.BufferRewindsExactly | src/config/feature-flag-audit.service.ts:52-131 | the same for the whole buffer; flags loaded at start-up always qualify |
| RequestRouter.SelectTarget | src/common/request-router.service.ts:14-26 | an error exactly for no targets; else the first target whose running weight reaches the draw, and the fallback only when none does |
| RequestRouter.NeverFallsBack | src/common/request-router.service.ts:25-25 | unless the weights sum to less than zero, the fallback is never reached |
| RequestRouter.ChosenOnce | src/common/request-router.service.ts:17-23 | unless the weights sum to less than zero, every draw reaches one target, and only one |
| RequestRouter.ChosenExactly | src/common/request-router.service.ts:20-23 | with non-negative weights a target is chosen exactly by the draws in its stretch of the total |
| RequestRouter.Proportional | src/common/request-router.service.ts:10-26 | the choosing interval of `Math.random()` has length weight over total; the intervals run from 0 to 1 |
| RequestRouter.WeightlessChosenExactly | src/common/request-router.service.ts:20-23 | a target of no weight is chosen exactly when it comes first and the draw is 0 |

## Left out

- HTTP, GraphQL and socket wiring, DTO validation, notifications, logging, metrics, analytics, and cache events that no property counts.
- TypeORM beyond three facts the models use: a property left `undefined` is not saved, a `decimal` column is loaded as text, and a soft-deleted relation is not loaded. Rounding of prices to the column's two places is left out.
- The retry after a unique violation in `update` and `rollbackToVersion`: sequential runs never meet one (`NumbersUnique`). Concurrent transactions are not modelled.
- Database failures inside `bulkEnroll`'s save, and the notifications sent for new enrolments.
- TokenRotation.BrokenRotationLocksOut: assumes that the retry comes under the same tenant. The blacklist is one map here; the program keeps it in the tenant-scoped cache (`src/auth/services/token-blacklist.service.ts:13-27`), so an entry made under one tenant is not seen under another.
- A null title, description, price or status in an update, which the table refuses.
- Prerequisite pointers that change during a run: `ChainCompletedInRuns` keeps them fixed, since a changed pointer makes earlier enrolments look unearned.
- Redis expiry in `TenantCache`, and its callers without a tenant, which use the raw key. Expiry in `GetOrSet` and `SingleFlight` is an eviction that may happen at any step.
- A factory that resolves to null or undefined in `getOrSet`: values are present ones.
- Cache invalidation racing an in-flight computation, counters kept by several processes, and concurrent refreshes of one token: the code makes no promise there.
- JWT signatures, bcrypt and HMAC: issued tokens are a list, and the stored hash is injective. The password check of `login` is its caller's.
- `JSON.stringify` of search filters: the search key starts from the joined string.
- Regular-expression matching of rules to keys, and recording of lifetime adjustments; a rule is given, with bounds in whole non-negative seconds and a positive factor (a zero factor divides by zero).
- Floating-point rounding: lifetimes, weights, prices and progress are reals, with `Math.round` as the floor of x + 0.5.
- Dates and timestamps on rows, versions, entries and operations.
- Undo after later work on the same field of the same course, where equal values may or may not result by coincidence.
