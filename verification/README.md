# Homeschool Hero, verified

A Dafny model of the parts of Homeschool Hero whose correctness is hard to see by reading one function: the shared
import session, the daily agenda and its overrides, lesson placement and pacing, the assignment change log, the academic
calendar, the issue bodies that carry security findings between two scripts, and three small algorithms (rate limiter,
unique names, schema examples). `dafny verify dfyconfig.toml` checks everything.

Code that changes things in place is modelled by classes and methods proved against functions of the old state; code
that computes values is modelled by functions. Tables are maps or sequences of rows, a refused request leaves them as
they were, and every service call that the modelled code only passes on is a parameter about which nothing is assumed
beyond what the files say.

| files | what they model |
|---|---|
| `ImportDraft`, `ImportSession`, `ImportProtocol`, `ImportRequests`, `ImportSteps`, `ImportRuns` | any number of concurrent read, patch, confirm and delete requests and the background worker on one import session row |
| `Agenda`, `AgendaItems`, `AgendaOrder`, `Timetable`, `TimetableRoutes`, `OverrideEffects`, `BlockEffects`, `ScheduleRuns` | the agenda builder, the weekly timetable's routes and what overrides and blocks do to agendas |
| `SchoolDays`, `LessonSlots`, `LessonOrder`, `LessonGeneration` | instructional days and the placement of a package's lessons on class slots |
| `PacingFacts`, `Pacing`, `PaceStatus` | the derived completion date of every pacing target through every route, and the pace of a unit |
| `ChangeLog`, `TargetLists`, `AssignmentRoutes` | the assignment change log, replayed and undone |
| `AcademicCalendar`, `DayCount` | years, terms, grading periods and events; the instructional-day count |
| `IssueText`, `IssueBody`, `IssueRoundTrip`, `IssueReading`, `IssueWriting` | the issue-body printer, its parser, and what survives the trip |
| `RateLimit`, `UniqueNames`, `SchemaExample`, `SchemaSoundness`, `SchemaValues` | the sliding-window limiter, the name allocator and the schema walker |
| `Wrappers`, `Strings`, `Counting` | helpers |

Where the code falls short of what it sets out to do, the model keeps the code and says when it does not:

- A delete or expiry that read the session before a confirm committed overwrites its `confirmed` status
  (`ImportRuns.ConfirmedThenExpired`); that is the only way out of `confirmed` (`ImportRuns.ConfirmedLeftOnlyByBlindWrite`).
- The background worker writes its result without looking at the row again, so it can bring a deleted session back to
  life; it is the only thing that can (`ImportProtocol.RevivedOnlyByWorker`). A delete that read such a session as expired
  then writes only its revision, which may undercut one that a pending edit has read; a committed edit can be lost
  that way (`ImportRuns.LostUpdate`), whether by a patch (`ImportProtocol.StalePatchCommits`) or by a confirm
  (`ImportProtocol.StaleConfirmCommits`). Runs without such a delete, revived sessions included, are serialisable
  (`ImportProtocol.Serialisable`), and the invariant behind that breaks at exactly those deletes
  (`ImportProtocol.SteadyStepIff`, `ImportProtocol.AlwaysSerialIff`).
- Deleting a cancellation puts its block back without a conflict check (`OverrideEffects.DeletingCancelOverlaps`);
  `OverrideEffects.DeleteKeepsAgendaIff` says exactly when that is harmless.
- Creating or changing a block compares it with other blocks but not with overrides, so it can land on an agenda where
  an override's item already is; `BlockEffects.CreateBlockKeepsAgendaIff` and `BlockEffects.UpdateBlockKeepsAgendaIff` say
  exactly when the agenda of a date stays free of overlaps.
- A plan moved to another unit's lesson is still grouped by the lesson loaded with it, so the unit it left is judged with
  one plan too many and the unit it joined with one too few; `Pacing.PacingTables.UpdatePlan` says exactly which targets
  end up with a wrong completion date, and `Pacing.MovedPlanKeepsDate` shows one. A target moved to another unit is judged
  by the number of lessons of the unit it left (`Pacing.PacingTables.UpdateTarget`, `Pacing.MovedTargetDatedEarly`). No
  other route makes a date wrong, and every refresh without such a move rights the dates it touches.
- Deleting a lesson plan clears assignments' links to it without a log entry, so exactly those assignments' logs no
  longer replay to their state (`AssignmentRoutes.Assignment.UnlinkLessonPlan`).
- A location without a line whose path ends like one, as in `python:3`, is read back as path and line
  (`IssueRoundTrip.ImageTagReadAsLine`); `IssueText.LocationRoundTrip` gives the exact condition.
- Leading dots are dropped from a path before its owner is looked up, so the rules for `.github/` and `.trivyignore` never
  apply (`IssueWriting.DotNamesUnclear`).
- A client that waits the advertised number of seconds is let in exactly when the wait was whole or at most one second
  (`RateLimit.RetrySufficesIff`); half a second into a minute's window it is told 59 seconds, and refused again after them
  (`RateLimit.ToldTooEarly`).
- The placeholder for additional properties can clash with a declared property called `key`
  (`SchemaSoundness.PlaceholderClash`); it has its schema's type exactly when that property accepts it
  (`SchemaSoundness.PlaceholderIff`). Merged parts can overwrite each other's properties with values of the wrong type
  (`SchemaSoundness.MergedSoundIff`), and an example taken from an alternative can miss what the schema asks for beside
  its alternatives (`SchemaSoundness.AlternativeSoundIff`).
- A numbered name overflows when its number leaves no room, because the slice then counts from the end
  (`UniqueNames.CandidateFitsIff`); an activation cannot get there with fewer than 10 to the 156th names.
- A unit that is on track because its window has not opened can look better once it opens
  (`PaceStatus.PaceBeforeStartIff`).
- Two school years of a student may cover the same date, and nothing compares their blocks
  (`ScheduleRuns.PlainDayClearIff`).

Where numbers could disagree but do not: the day counts of a year add up exactly when the overrides outside it balance
(`DayCount.IdentityIff`), and the calendar routes keep every event inside its year (`DayCount.CountsAddUp`).

## Model

| member | source | states |
|---|---|---|
| ImportDraft.EditItems | backend/routers/bulk_assignment_import.py:237-272 | the in-place edit loops of a patch give exactly the specified draft, or the first error met |
| ImportDraft.EditFrame | backend/routers/bulk_assignment_import.py:237-272 | a successful edit keeps every item's identity and place and changes only items named by an answer or a replacement |
| ImportDraft.AnswersResult | backend/routers/bulk_assignment_import.py:240-264 | after successful answers every item is what the answers that name it make of it, in their order; they succeed exactly when every question is known, every index is one of the draft and every value can be converted |
| ImportDraft.OneAnswer | backend/routers/bulk_assignment_import.py:240-252 | one answer to a question about one item converts that item and leaves the others |
| ImportDraft.AnswersConcat | backend/routers/bulk_assignment_import.py:240-264 | later answers start from what the earlier ones left, or end in their error |
| ImportDraft.FirstAnswerFails | backend/routers/bulk_assignment_import.py:240-252 | what a failing answer is refused with: an unknown question, else its first index that is out of range or has a value that cannot be converted |
| ImportDraft.EditsOkIff | backend/routers/bulk_assignment_import.py:265-271 | replacements succeed exactly when each carries the id of some item |
| ImportDraft.EditsResult | backend/routers/bulk_assignment_import.py:265-272 | after the replacements each item is the last replacement aimed at it, or untouched |
| ImportSession.SessionRow.Expire | backend/routers/bulk_assignment_import.py:77-83 | the expiring write sets the status alone, whatever the row holds by then |
| ImportSession.SessionRow.FailStale | backend/routers/bulk_assignment_import.py:87-100 | the stale-processing write fails the session from the snapshot it read |
| ImportSession.SessionRow.MarkDeleted | backend/routers/bulk_assignment_import.py:369-379 | the deleting write is unconditional and sends only the columns that changed against its snapshot |
| ImportSession.SessionRow.CommitPatch | backend/routers/bulk_assignment_import.py:274-291 | the conditional update writes one row when status and revision are those read, none otherwise |
| ImportSession.SessionRow.CommitConfirm | backend/routers/bulk_assignment_import.py:316-360 | claim, creation and commit happen together or not at all |
| ImportSession.SessionRow.CompleteProcessing | backend/services/bulk_assignment_import.py:863-893 | the worker's final write has no condition on the row |
| ImportSession.SessionRow.FailProcessing | backend/services/bulk_assignment_import.py:895-908 | nor has its failing write |
| ImportRequests.PerformWrite | backend/routers/bulk_assignment_import.py:77-379 | each pending write performed on the row gives the protocol's next row, phase and created assignments |
| ImportRequests.PerformWorkerComplete | backend/services/bulk_assignment_import.py:883-893 | so does the worker's result |
| ImportRequests.PerformWorkerFail | backend/services/bulk_assignment_import.py:895-908 | and its failure |
| ImportSteps.LoadIs | backend/routers/bulk_assignment_import.py:63-101 | a session whose time is up is expired by whoever loads it unless confirmed or expired already, one processing too long is failed, any other is left to the request |
| ImportSteps.PatchAcceptedIff | backend/routers/bulk_assignment_import.py:227-276 | a patch goes ahead exactly for an open session of the revision the client knows whose edits apply and whose draft can be revalidated |
| ImportSteps.PatchRefusedWith | backend/routers/bulk_assignment_import.py:227-276 | and what it is refused with otherwise |
| ImportSteps.ConfirmAcceptedIff | backend/routers/bulk_assignment_import.py:303-316 | a confirm goes ahead exactly for a ready session, or a weekly one that needs clarification if items are named, of the revision the client knows |
| ImportSteps.DecideIs | backend/routers/bulk_assignment_import.py:211-379 | what a loaded session is answered with: a read always, a delete of a confirmed session at once, a patch or confirm by carrying on from the row read |
| ImportSteps.RequestSteps | backend/routers/bulk_assignment_import.py:63-379 | which step takes a request from which phase to which |
| ImportSteps.WorkerSteps | backend/services/bulk_assignment_import.py:863-943 | the worker starts on a processing session only, stores its result without looking, and records a failure only while the session is processing |
| ImportSteps.OnlyWritesWrite | backend/routers/bulk_assignment_import.py:63-379 | nothing but pending writes and the worker's two final ones touches the row, the created assignments or the log |
| ImportSteps.OwnPartOnly | backend/routers/bulk_assignment_import.py:63-379 | a step of one request changes no other request and not the worker |
| ImportProtocol.ConfirmStep | backend/routers/bulk_assignment_import.py:227-366 | one step of any request or of the worker keeps the at-most-one-confirm invariant |
| ImportProtocol.AtMostOneConfirm | backend/routers/bulk_assignment_import.py:303-350 | in every interleaving at most one confirm commits, and afterwards the session is never editable again |
| ImportProtocol.ConfirmCommit | backend/routers/bulk_assignment_import.py:316-350 | a confirm that finds its snapshot unchanged is the first to commit |
| ImportProtocol.RevivedOnlyByWorker | backend/services/bulk_assignment_import.py:863-908 | a confirmed, expired or failed session becomes editable again exactly when the worker overwrites it with an editable result |
| ImportProtocol.RevisionRisesIff | backend/routers/bulk_assignment_import.py:227-379 | a committed change between editable rows raises the revision by exactly one, unless it is a delete of a revived session that had read another revision |
| ImportProtocol.RevisionFallsIff | backend/routers/bulk_assignment_import.py:375-379 | an editable row's revision falls exactly when such a delete had read one at least two below it |
| ImportProtocol.PendingStepIff | backend/routers/bulk_assignment_import.py:274-379 | a pending edit's snapshot stays fit for its revision check unless such a delete undercuts it |
| ImportProtocol.SteadyStepIff | backend/routers/bulk_assignment_import.py:227-379 | every step of any request or the worker keeps the serialisability invariant except exactly such a delete |
| ImportProtocol.CalmIsSteady | backend/services/bulk_assignment_import.py:863-908 | where the worker overwrites nothing, no such delete happens |
| ImportProtocol.SerialAgrees | backend/routers/bulk_assignment_import.py:274-350 | under the invariant each committed write, after a revival too, is the step a serial execution takes from the stored row |
| ImportProtocol.Serialisable | backend/routers/bulk_assignment_import.py:227-379 | in every run without a delete that undercuts a pending edit, revived sessions included, the log of committed writes run serially gives the stored row and the created assignments |
| ImportProtocol.AlwaysSerialIff | backend/routers/bulk_assignment_import.py:227-379 | the invariant holds throughout a run exactly when the run has no such delete |
| ImportProtocol.StaleConfirmCommits | backend/routers/bulk_assignment_import.py:316-350 | a pending confirm with such a revision creates its assignments from the draft it had read |
| ImportProtocol.StalePatchCommits | backend/routers/bulk_assignment_import.py:276-291 | a pending patch whose revision such a delete has just written commits what it made of its own snapshot |
| ImportRuns.ConfirmedThenExpired | backend/routers/bulk_assignment_import.py:369-379 | a run in which the assignments exist and the session says expired |
| ImportRuns.ConfirmedLeftOnlyByBlindWrite | backend/routers/bulk_assignment_import.py:77-100 | a confirmed session changes status exactly through an expiring, failing or deleting write planned before |
| ImportRuns.LostUpdate | backend/services/bulk_assignment_import.py:863-893 | a run in which a committed edit is overwritten by one computed from an older draft, and no serial run of its log gives the stored row |
| Agenda.BuildDailyAgenda | backend/routers/schedule.py:190-247 | the insert-and-pop dictionary builder returns the sorted closed form |
| Agenda.InEntries | backend/routers/schedule.py:194-245 | the entries are exactly the unhidden weekday blocks and the shown overrides of the schedules |
| Agenda.ApplyOverrides | backend/routers/schedule.py:215-245 | popping and inserting while walking the overrides leaves the unhidden blocks and then the overrides' items |
| Agenda.SortSorts | backend/routers/schedule.py:182-187 | sorting by start, end and lower-cased subject name orders the items and loses none |
| AgendaItems.AgendaIff | backend/routers/schedule.py:190-247 | an item is on the agenda exactly when it is a class of that weekday which no override takes off that date, with the block's columns, or an override of that date that has something to show, with its own subject or else its block's, and its other columns |
| AgendaItems.AgendaDistinct | backend/routers/schedule.py:190-247 | and it is there once |
| AgendaItems.AgendaInOrder | backend/routers/schedule.py:182-187 | earlier items start earlier, or as early and end earlier, or have the same time and a lower-cased name that comes first |
| AgendaItems.SortStable | backend/routers/schedule.py:182-247 | items that tie keep the order in which they were put in |
| AgendaItems.WeekdayOf | backend/routers/schedule.py:192-192 | day number 1 is a Monday, and the weekdays go round in sevens |
| AgendaOrder.AgendaNonOverlapping | backend/routers/schedule.py:190-247 | the returned list is sorted, and free of overlaps exactly when the entries are |
| AgendaOrder.AgendaOrderIndependent | backend/routers/schedule.py:190-247 | without overlaps the agenda does not depend on the order of schedules, blocks or overrides |
| Timetable.ScheduleBook.CreateSchedule | backend/routers/schedule.py:377-400 | a new schedule is empty, its student and school year known and its name unused; otherwise the first refusal |
| Timetable.ScheduleBook.CreateBlock | backend/routers/schedule.py:462-489 | a block is added unless its schedule or subject is unknown or it meets another of the same student and year; the timetable stays disjoint |
| Timetable.ScheduleBook.UpdateBlock | backend/routers/schedule.py:492-517 | a block is changed unless it or the subject is unknown or the change meets another one; the timetable stays disjoint |
| Timetable.ScheduleBook.DeleteBlock | backend/routers/schedule.py:520-529 | a block is removed and its overrides keep no reference to it |
| Timetable.ScheduleBook.CreateOverride | backend/routers/schedule.py:532-568 | every refusal in order, and otherwise exactly one override more |
| Timetable.ScheduleBook.FindOverrideClash | backend/routers/schedule.py:290-316 | the loop over the day's agenda finds a clash exactly when there is one |
| Timetable.ScheduleBook.DeleteOverride | backend/routers/schedule.py:571-580 | exactly that override is gone |
| Timetable.BlockAdded | backend/routers/schedule.py:136-160 | the conflict query keeps all blocks of a student and year pairwise disjoint, across schedules |
| Timetable.BlockChanged | backend/routers/schedule.py:136-160 | so does the query that leaves the changed block out |
| TimetableRoutes.ConflictIff | backend/routers/schedule.py:136-160 | the query finds a conflict exactly when some moment of that weekday is already taken by another block of the student and year |
| TimetableRoutes.OneBlockAtATime | backend/routers/schedule.py:136-160 | in a timetable kept by the routes no moment of a weekday has two blocks of one student and year |
| TimetableRoutes.CreateBlockDoes | backend/routers/schedule.py:462-489 | which refusal when, and otherwise one block with the payload's columns after the schedule's others |
| TimetableRoutes.UpdateBlockDoes | backend/routers/schedule.py:492-517 | the same with the block's own time left out; it keeps its id and place |
| TimetableRoutes.DeleteBlockDoes | backend/routers/schedule.py:520-529 | the block goes, and the overrides of it stay without naming it |
| TimetableRoutes.ValidatedIff | backend/schemas/schedule.py:73-88 | which override payloads the schema refuses, and that it lets through exactly what it leaves as it is, a cancellation without subject and times |
| TimetableRoutes.CreateOverrideIff | backend/routers/schedule.py:532-568 | accepted exactly when schedule and subject are known, the block is the schedule's and not overridden that day, the date is in the year and the time is free; then one row with the payload's columns is added |
| TimetableRoutes.CreateOverrideRefusal | backend/routers/schedule.py:532-568 | which refusal otherwise, in the source's order |
| TimetableRoutes.ClashIff | backend/routers/schedule.py:290-316 | the time is not free exactly when some other item of that day's agenda, the overridden block aside, shares a moment with it |
| TimetableRoutes.OverlapIff | backend/routers/schedule.py:290-316 | two items overlap exactly when some moment belongs to both |
| TimetableRoutes.DeleteOverrideDoes | backend/routers/schedule.py:571-580 | just that row goes |
| TimetableRoutes.CoveringIff | backend/routers/schedule.py:250-269 | the schedules looked at are the student's whose school year holds the date, in their order |
| OverrideEffects.OtherAgendasUnchanged | backend/routers/schedule.py:532-568 | an override changes no other date's and no other student's agenda |
| OverrideEffects.DayAfter | backend/routers/schedule.py:215-245 | an override's own date loses the block it hides and gains its item, and nothing else |
| OverrideEffects.ExclusionSound | backend/routers/schedule.py:272-316 | leaving a rescheduled block out of the conflict check is sound because a second override of it is refused |
| OverrideEffects.NewItemClear | backend/routers/schedule.py:290-316 | the conflict check clears the new item of all that stays on the agenda |
| OverrideEffects.CreateKeepsAgenda | backend/routers/schedule.py:538-567 | creating an override keeps its date's agenda free of overlaps |
| OverrideEffects.DeleteKeepsAgendaIff | backend/routers/schedule.py:571-580 | deleting one does so exactly when it brings no block back or the slot is still free |
| OverrideEffects.DeletingCancelOverlaps | backend/routers/schedule.py:571-580 | a timetable where deleting a cancellation makes two items overlap |
| BlockEffects.PlacedKeepsAgendaIff | backend/routers/schedule.py:136-160 | putting a block in place keeps a date's agenda free of overlaps exactly when the block takes no part in it or meets nothing else on it |
| BlockEffects.CreateBlockKeepsAgendaIff | backend/routers/schedule.py:462-489 | so does creating a block that passes the conflict query |
| BlockEffects.UpdateBlockKeepsAgendaIff | backend/routers/schedule.py:492-517 | and changing one, its own old place aside |
| ScheduleRuns.PlainDayClearIff | backend/routers/schedule.py:136-160 | a day without overrides is free of overlaps exactly when blocks of different school years covering it do not meet |
| ScheduleRuns.CreatesKeepAgendas | backend/routers/schedule.py:532-568 | whatever overrides are then created, such a day never has two items at once |
| SchoolDays.BuildEventMap | backend/routers/lesson_plans.py:80-91 | the event loop gives the closed form in which an instructional event on a date wins |
| SchoolDays.EventOrderImmaterial | backend/routers/calendar.py:167-173 | the event map does not depend on the order of events |
| SchoolDays.IsWeekdayIff | backend/routers/lesson_plans.py:90-91 | of the seven days from any Monday the first five are weekdays |
| SchoolDays.InstructionalIff | backend/routers/lesson_plans.py:80-91 | a day is open exactly when some event opens it, or no event speaks of it and it is a weekday |
| LessonSlots.CollectSlots | backend/routers/lesson_plans.py:619-630 | the calendar walk returns the first n entries of the enumeration of qualifying slots |
| LessonSlots.SubjectSlotsAre | backend/routers/lesson_plans.py:619-630 | a day offers one slot for each agenda item of the subject, in agenda order, and no other |
| LessonSlots.InAllSlots | backend/routers/lesson_plans.py:619-630 | a slot qualifies exactly when its date is an open day of the span whose agenda has a class of the subject at that time |
| LessonSlots.SlotsInOrder | backend/routers/lesson_plans.py:619-630 | that enumeration is in time order and inside the span |
| LessonSlots.GreedyEarliest | backend/routers/lesson_plans.py:619-640 | the first slots are earliest, lesson by lesson, among all placements that keep the order |
| LessonSlots.GreedyFinishesFirst | backend/routers/lesson_plans.py:619-640 | no placement in any order finishes earlier |
| LessonSlots.PlaceableIff | backend/routers/lesson_plans.py:632-640 | a placement exists exactly when there are enough slots |
| LessonOrder.SortUnitsFacts | backend/routers/lesson_plans.py:556-560 | sorting the units by order and id keeps them all |
| LessonOrder.SortLessonsFacts | backend/routers/lesson_plans.py:556-560 | so does sorting a unit's lessons |
| LessonOrder.UnitsContiguous | backend/routers/lesson_plans.py:556-560 | a unit's lessons all come before those of later units |
| LessonOrder.FlattenDistinct | backend/routers/lesson_plans.py:556-560 | no lesson is listed twice |
| LessonOrder.TeachingOrder | backend/routers/lesson_plans.py:556-560 | units come by sequence order and then id, and in each its lessons by theirs |
| LessonOrder.WindowFirstLast | backend/routers/lesson_plans.py:667-685 | a unit's window runs from its first lesson's date to its last's |
| LessonOrder.WindowsNeverCross | backend/routers/lesson_plans.py:638-685 | the earlier of two units ends no later than the later one starts |
| LessonGeneration.GenerateLessonPlans | backend/routers/lesson_plans.py:541-702 | every refusal in order, and otherwise old plans replaced by one per lesson on the first slots, targets set to the windows, completion dates of the package's units right and all other rows kept |
| LessonGeneration.QualifyingIff | backend/routers/lesson_plans.py:618-630 | the slots to choose from are the classes of the package's subject on the open days from the year's start, or a later start asked for, to the year's end |
| LessonGeneration.RowsForIff | backend/routers/lesson_plans.py:601-612 | of the schedules those of the student and the school year count |
| LessonGeneration.StoredPlan | backend/routers/lesson_plans.py:638-652 | the plan of each lesson is planned and unstamped, on a date with a class of the package's subject on an open day of the span, and lasts as long as the lesson says or else as asked |
| LessonGeneration.KeptPlanIff | backend/routers/lesson_plans.py:564-599 | of the old plans exactly the student's for the package's units go |
| LessonGeneration.AcceptedIff | backend/routers/lesson_plans.py:541-640 | accepted exactly when package, student and year fit, there are lessons, plans in the way may be overwritten and have no assignments, and every lesson has a slot |
| LessonGeneration.RefusalKind | backend/routers/lesson_plans.py:541-640 | which kind of refusal otherwise |
| LessonGeneration.BuildRanges | backend/routers/lesson_plans.py:639-641 | the loop records for each unit exactly its lessons' dates |
| LessonGeneration.RangeIsWindow | backend/routers/lesson_plans.py:667-671 | their minimum and maximum are the unit's window |
| LessonGeneration.UpsertTargets | backend/routers/lesson_plans.py:655-685 | each unit's target is updated or inserted once and no other target changes |
| LessonGeneration.DatesAscend | backend/routers/lesson_plans.py:619-652 | the lessons' dates ascend in teaching order, inside the span |
| LessonGeneration.DatesEarliest | backend/routers/lesson_plans.py:619-640 | no placement that keeps the teaching order gives a lesson an earlier date than the one stored |
| LessonGeneration.DatesFinishFirst | backend/routers/lesson_plans.py:619-640 | no placement at all finishes before the last date stored |
| LessonGeneration.RefusedForSlotsIff | backend/routers/lesson_plans.py:632-636 | the slots are too few exactly when no placement exists |
| LessonGeneration.GeneratedWindowsOrdered | backend/routers/lesson_plans.py:638-685 | after generation the windows of two units never cross and contain every lesson date |
| PacingFacts.CountTestIsCoverage | backend/routers/lesson_plans.py:308-318 | as many finished plans as lessons means every lesson has one, because a student has one plan per lesson |
| PacingFacts.CompletionMeans | backend/routers/lesson_plans.py:304-318 | a unit is dated exactly when it has lessons and each has a finished plan of the student, by the latest of their stamps, a planned date standing in for a missing one |
| PacingFacts.CompletionOf | backend/routers/lesson_plans.py:308-318 | the answer is the latest completion date when the plans listed are as many as the lessons counted and all finished, and none otherwise |
| PacingFacts.AnswersRight | backend/routers/lesson_plans.py:308-318 | on a unit's own plans and lessons that is the right date |
| PacingFacts.GroupPlans | backend/routers/lesson_plans.py:304-306 | the grouping loop puts each plan the query returns once under the unit of the lesson loaded with it |
| PacingFacts.CompletionFrame | backend/routers/lesson_plans.py:267-318 | plans of other students and units do not matter |
| Pacing.PacingTables.RefreshPacingTargets | backend/routers/lesson_plans.py:267-318 | the named targets get the answer that the relationships as loaded give, which is the right one when they are up to date; all others and all other columns stay |
| Pacing.WrongAfter | backend/routers/lesson_plans.py:267-318 | after a change confined to some students' units exactly the targets already wrong elsewhere and those harmed inside are wrong |
| Pacing.StoredPlan | backend/routers/lesson_plans.py:321-323 | a written plan bears the day's stamp exactly when it is completed, counts as done that day, and has the payload's other columns |
| Pacing.BulkedPlan | backend/routers/lesson_plans.py:726-732 | a bulk change sets status and stamp, a date only when rescheduling to one, notes only when given, and nothing else |
| Pacing.CompletedToday | backend/routers/lesson_plans.py:304-323 | a target whose plans are completed today gets the latest of today and the days of the others |
| Pacing.FinishedByWrite | backend/routers/lesson_plans.py:304-323 | so does the target of a unit whose last open plan is written as completed |
| Pacing.PlanTakenIff | backend/routers/lesson_plans.py:197-214 | a plan is refused as taken exactly when the student would have two for the lesson |
| Pacing.TargetTakenIff | backend/routers/lesson_plans.py:217-234 | a target exactly when the student would have two for the unit |
| Pacing.PayloadErrorIff | backend/routers/lesson_plans.py:237-264 | a plan's references are accepted exactly when lesson, student and year are known and the lesson's package is of that year |
| Pacing.PacingTables.CreatePlan | backend/routers/lesson_plans.py:417-456 | every refusal, the new plan, its unit's target right and no other target's rightness changed |
| Pacing.PacingTables.UpdatePlan | backend/routers/lesson_plans.py:470-513 | the same when a plan changes, and after a move between units exactly which targets are wrong: the unit joined if it is finished, the unit left if it is finished or would be with the plan |
| Pacing.MovedHarmIff | backend/routers/lesson_plans.py:492-510 | a refreshed target of either unit is right exactly when it is not one of those |
| Pacing.MovedPlanKeepsDate | backend/routers/lesson_plans.py:304-318 | a one-lesson unit keeps its completion date although its only plan has moved away |
| Pacing.PacingTables.DeletePlan | backend/routers/lesson_plans.py:516-538 | the plan goes, its unit's target is right and no other target's rightness changes |
| Pacing.PacingTables.BulkStatus | backend/routers/lesson_plans.py:705-744 | the named plans change, their units' targets are right and no other target's rightness changes |
| Pacing.PacingTables.CreateTarget | backend/routers/lesson_plans.py:849-884 | a new target starts with the right completion date and the others keep theirs |
| Pacing.PacingTables.UpdateTarget | backend/routers/lesson_plans.py:898-934 | a changed target's date is right exactly when the old and the new unit have equally many lessons, or neither is the new unit finished nor are its plans, all finished, as many as the old unit's lessons |
| Pacing.MovedTargetDatedEarly | backend/routers/lesson_plans.py:308-318 | a target moved from a one-lesson unit takes one finished plan of two for all |
| Pacing.PacingTables.DeleteTarget | backend/routers/lesson_plans.py:937-947 | the target goes and the others keep their completion dates |
| PaceStatus.PaceGrowsWithProgress | backend/routers/lesson_plans.py:326-353 | more completed lessons never worsen the pace |
| PaceStatus.PaceFallsWithTime | backend/routers/lesson_plans.py:326-353 | from the start date on, time without progress never improves it |
| PaceStatus.PaceBeforeStartIff | backend/routers/lesson_plans.py:339-353 | from before the start date, letting time pass brings no improvement exactly when the window stays closed, is over with work left, or the work done is not ahead of the share elapsed |
| PaceStatus.NeverBehindWhenDone | backend/routers/lesson_plans.py:326-353 | with every lesson done a unit is never behind |
| PaceStatus.PaceInsideWindow | backend/routers/lesson_plans.py:343-353 | inside the window ahead and behind mean more than 15 points from the elapsed share |
| PaceStatus.PaceOnceCompleted | backend/routers/lesson_plans.py:335-338 | a completion date decides by itself: before the window's end ahead, after it behind, on it on track |
| PaceStatus.PaceAfterWindow | backend/routers/lesson_plans.py:339-353 | once the window is over a unit is behind exactly while lessons are missing |
| PaceStatus.PaceWithoutMeasure | backend/routers/lesson_plans.py:339-342 | without lessons, or before its window, a unit that is not finished is on track |
| PaceStatus.RemainingIs | backend/routers/lesson_plans.py:327-330 | what is left is what is missing to the total, never less than nothing |
| PaceStatus.RemainingComplements | backend/routers/lesson_plans.py:327-330 | remaining and completed lessons add up to the total |
| ChangeLog.FieldsBridge | backend/routers/assignments.py:191-211 | the field entries turn the old serialised fields into the new ones and back |
| ChangeLog.TargetsBridge | backend/routers/assignments.py:225-271 | the target entries turn the old student-to-target map into the one asked for and back |
| ChangeLog.BridgesReplayUndo | backend/routers/assignments.py:78-96 | such a log replays to the new state and undoes to the old |
| ChangeLog.SerializeRoundTrip | backend/routers/assignments.py:68-76 | a logged value reads back as the column's value, an instant in UTC |
| ChangeLog.SerializeIff | backend/routers/assignments.py:68-76 | the log tells two values of a column apart exactly when they differ in more than an instant's offset |
| TargetLists.ReplacedFacts | backend/routers/assignments.py:274-297 | replacing leaves exactly the targets asked for, each student once |
| TargetLists.ReplacedOrder | backend/routers/assignments.py:274-297 | the wanted targets keep their old order, and the new ones follow in the order asked for |
| TargetLists.AllStudents | backend/routers/assignments.py:225-271 | the log visits each student of either list once |
| AssignmentRoutes.UpdateBridges | backend/routers/assignments.py:469-474 | one update's entries replay to the state it writes and undo to the state before |
| AssignmentRoutes.LogsNothingIff | backend/routers/assignments.py:191-271 | an update logs nothing exactly when the serialised state does not change |
| AssignmentRoutes.ColumnLogged | backend/routers/assignments.py:191-211 | every column but the subject has exactly one entry, from its old to its new value, when it changes in more than an instant's offset, and none otherwise |
| AssignmentRoutes.StudentLogged | backend/routers/assignments.py:225-271 | for each student the log says that the target went or came, or its changed due date and then its changed status |
| AssignmentRoutes.NoTargetsLogged | backend/routers/assignments.py:225-228 | an update that sends no targets logs nothing of them |
| AssignmentRoutes.AllowedIff | backend/routers/assignments.py:42-56 | every change between known statuses is allowed but the one from graded to pending |
| AssignmentRoutes.TargetsErrorIs | backend/routers/assignments.py:149-167 | the first student that is repeated or unknown decides the refusal |
| AssignmentRoutes.UpdateAcceptedIff | backend/routers/assignments.py:455-468 | accepted exactly when subject, grading period and students are known, no student comes twice and the status may change that way |
| AssignmentRoutes.UpdateRefusedWith | backend/routers/assignments.py:455-468 | and what it is refused with otherwise |
| AssignmentRoutes.GradedToPendingPassesComplete | backend/routers/assignments.py:42-56 | a log from graded to pending passes through complete |
| AssignmentRoutes.TargetsError | backend/routers/assignments.py:149-167 | no error means known students, each once |
| AssignmentRoutes.Assignment.constructor | backend/routers/assignments.py:423-441 | a new assignment has an empty log that replays to it |
| AssignmentRoutes.Assignment.TrackAssignmentChanges | backend/routers/assignments.py:191-211 | one entry per tracked field whose serialised value changes |
| AssignmentRoutes.Assignment.TrackTargetChanges | backend/routers/assignments.py:225-271 | entries for removed, changed and added targets, existing students first |
| AssignmentRoutes.Assignment.ApplyAssignmentUpdates | backend/routers/assignments.py:170-188 | the setattr loop writes every column |
| AssignmentRoutes.Assignment.ReplaceTargets | backend/routers/assignments.py:274-297 | the in-place removal, assignment and append loops give the specified list |
| AssignmentRoutes.Assignment.UpdateAssignment | backend/routers/assignments.py:455-478 | every refusal in order; otherwise new columns, targets and entries, and the log still replays from creation to the current state and back |
| AssignmentRoutes.Assignment.UpdateStatus | backend/routers/assignments.py:481-497 | the same for a status change, refused when the transition is not allowed |
| AssignmentRoutes.Assignment.UnlinkLessonPlan | backend/routers/lesson_plans.py:524-528 | the log stays exact exactly for assignments that were not linked to the deleted plan |
| AcademicCalendar.FamilyCalendar.EnsureActiveState | backend/routers/calendar.py:102-109 | an active year switches the others off and touches nothing else |
| AcademicCalendar.FamilyCalendar.CreateYear | backend/routers/calendar.py:207-231 | a new year, refused when its name is taken; at most one year stays active |
| AcademicCalendar.FamilyCalendar.UpdateYear | backend/routers/calendar.py:243-285 | refused, with nothing changed, when a term or event would fall outside |
| AcademicCalendar.FamilyCalendar.DeleteYear | backend/routers/calendar.py:288-296 | the year goes with its terms, their grading periods and its events |
| AcademicCalendar.FamilyCalendar.CreateTerm | backend/routers/calendar.py:315-355 | a term inside its year and apart from its other terms, or the first refusal |
| AcademicCalendar.FamilyCalendar.UpdateTerm | backend/routers/calendar.py:367-416 | the same for new dates, which must also hold the term's grading periods |
| AcademicCalendar.FamilyCalendar.DeleteTerm | backend/routers/calendar.py:419-427 | the term goes with its grading periods |
| AcademicCalendar.FamilyCalendar.CreatePeriod | backend/routers/calendar.py:445-477 | a grading period inside its term, or the first refusal |
| AcademicCalendar.FamilyCalendar.UpdatePeriod | backend/routers/calendar.py:489-518 | the same for new dates |
| AcademicCalendar.FamilyCalendar.DeletePeriod | backend/routers/calendar.py:521-529 | exactly that grading period is gone |
| AcademicCalendar.FamilyCalendar.CreateEvent | backend/routers/calendar.py:547-571 | an event inside its year |
| AcademicCalendar.FamilyCalendar.UpdateEvent | backend/routers/calendar.py:583-604 | the same for a new date |
| AcademicCalendar.FamilyCalendar.DeleteEvent | backend/routers/calendar.py:607-615 | exactly that event is gone |
| AcademicCalendar.TermError | backend/routers/calendar.py:86-145 | no error means inside the year and disjoint from its other terms |
| AcademicCalendar.TermAcceptedIff | backend/routers/calendar.py:86-145 | a term goes through exactly when it lies in its year, its name is free there and it shares no day with another term |
| AcademicCalendar.TermRefusedWith | backend/routers/calendar.py:86-145 | what it is refused with otherwise; several terms in the way are more than the query expects |
| AcademicCalendar.PeriodErrorIs | backend/routers/calendar.py:86-164 | the same for a grading period, whose dates are compared with its term's only |
| AcademicCalendar.EventErrorIs | backend/routers/calendar.py:86-99 | an event goes through exactly when its date is in the year |
| AcademicCalendar.YearUnused | backend/models/calendar.py:36-47 | after a year is deleted nothing left belongs to it |
| AcademicCalendar.OneTermADay | backend/routers/calendar.py:127-145 | a date lies in at most one term of a year |
| AcademicCalendar.PeriodsNest | backend/routers/calendar.py:86-99 | grading periods lie in their year, and those of different terms never meet |
| AcademicCalendar.InsideOneConflicts | backend/routers/calendar.py:127-145 | a term inside an existing one conflicts with that one only, so the one-row query finds one row |
| AcademicCalendar.DeletedYear | backend/models/calendar.py:36-47 | the cascade leaves consistent tables |
| DayCount.CountInstructionalDays | backend/routers/calendar.py:167-195 | the counting loop counts exactly the days the lesson planner accepts |
| DayCount.IdentityIff | backend/routers/calendar.py:186-195 | instructional days are weekdays less removed plus added days exactly when the overrides outside the year balance |
| DayCount.CountsAddUp | backend/routers/calendar.py:167-195 | with the events the routes allow, the reported numbers add up |
| IssueText.FieldOfPrinted | scripts/security_automation.py:20-20 | a printed field line is read back with its label and value, whatever the value holds |
| IssueText.FieldIsWholeLine | scripts/security_automation.py:20-20 | what is read from a field line is all of it, with both parts non-empty |
| IssueText.StripBackticksIff | scripts/security_automation.py:33-40 | a value printed in backticks is recovered exactly when it is non-empty, unpadded and free of links |
| IssueText.StripBareIff | scripts/security_automation.py:33-40 | a bare value is kept exactly when it is plain and not in backticks, and otherwise gets shorter |
| IssueText.ReplaceLinksKeepsIff | scripts/security_automation.py:39-39 | link replacement changes a text exactly when it holds a link |
| IssueText.LocationRoundTrip | scripts/security_automation.py:21-21 | a location is recovered exactly when a line comes with a path and a bare path does not look like one with a line |
| IssueText.LinesOfJoin | scripts/security_issue_utils.py:317-351 | the lines of the joined body are the lines of its parts |
| IssueReading.LinesWhole | scripts/security_automation.py:20-20 | a text is the join of its lines |
| IssueReading.FieldOfIs | scripts/security_automation.py:20-20 | of the ways to take a line apart as a field the one with the shortest label is read, and none exactly when there is none |
| IssueReading.LinkReplaced | scripts/security_automation.py:39-39 | a link is replaced by its text, and text without a bracket is kept |
| IssueReading.LinkFound | scripts/security_automation.py:39-39 | what is taken for a link is one |
| IssueReading.LinkStripped | scripts/security_automation.py:33-40 | a value that is a link reads as the link's text, in backticks or not |
| Strings.TrimIs | scripts/security_automation.py:36-40 | stripping drops the whitespace at the ends and nothing else |
| IssueReading.SearchIs | scripts/security_automation.py:18-19 | a marker search gives the word of the first marker, and nothing exactly when there is none |
| IssueReading.AllowedIn | scripts/security_automation.py:18-19 | which characters a fingerprint and a scanner name are made of |
| IssueReading.PlaceWithLineIff | scripts/security_automation.py:21-21 | a location has a line exactly when a numeral follows its last colon and something precedes it |
| IssueReading.PlaceOtherwise | scripts/security_automation.py:107-114 | any other location is a path as it stands, and nothing or `n/a` is none |
| IssueBody.CollectFields | scripts/security_automation.py:103-105 | the dictionary loop keeps, for each key, the last line that writes it |
| IssueBody.ParseIssueBody | scripts/security_automation.py:101-120 | the parser's dictionary, location and markers |
| IssueReading.LastWriter | scripts/security_automation.py:103-105 | the last line that writes a key decides what it holds |
| IssueReading.SeverityAndScanner | scripts/security_automation.py:123-129 | the severity is the field's, else the first label's; the scanner the marker's, else the field's |
| IssueReading.SeverityLabelIs | scripts/security_automation.py:126-126 | the severity label that counts is the first one |
| IssueReading.ColumnsRead | scripts/security_automation.py:138-152 | which key each other column of an issue is read from |
| IssueWriting.BodyIs | scripts/security_issue_utils.py:302-351 | the body line by line, with every fallback |
| IssueWriting.OwnerIff | scripts/security_issue_utils.py:278-285 | which normal paths are routed to scanning, backend and frontend |
| IssueWriting.ToolingIff | scripts/security_issue_utils.py:286-287 | and which to tooling |
| IssueWriting.OwnerTextIs | scripts/security_issue_utils.py:278-288 | and the owner that is then printed |
| IssueWriting.OwnerSame | scripts/security_issue_utils.py:279-279 | slashes, case, and dots and slashes in front make no difference to the hint |
| Strings.CharCase | scripts/security_issue_utils.py:279-279 | lower and upper case pair the letters and leave anything else |
| IssueWriting.DotNamesUnclear | scripts/security_issue_utils.py:279-287 | the rules for `.github/` and `.trivyignore` never apply |
| IssueRoundTrip.RoundTrip | scripts/security_automation.py:101-153 | fingerprint and scanner are recovered; identifier, location, package and versions exactly when they are plain and readable |
| IssueRoundTrip.SeverityRoundTrip | scripts/security_automation.py:127-127 | a severity is recovered when it is lower-case, plain and not in backticks, and, unless a label supplies it, only then |
| IssueRoundTrip.FingerprintIff | scripts/security_automation.py:18-19 | the fingerprint is recovered exactly when it is a hexadecimal word |
| IssueRoundTrip.FieldRead | scripts/security_issue_utils.py:317-351 | what the parser finds under each recovered key is that field's printed value |
| IssueRoundTrip.BodyIsJoin | scripts/security_issue_utils.py:317-351 | stripping the body changes nothing |
| IssueRoundTrip.ImageTagReadAsLine | scripts/security_automation.py:21-21 | `python:3` without a line is read as path `python`, line `3` |
| RateLimit.RateLimiter.Check | backend/rate_limit.py:21-33 | admitted exactly when fewer than the limit in the deque are still in the window; the deque becomes those and what is admitted; a refusal says the whole seconds until the oldest expires, at least one, and with nothing to wait for it fails instead; other keys untouched |
| RateLimit.CheckBucket | backend/rate_limit.py:26-33 | the same for one bucket |
| RateLimit.VerdictIs | backend/rate_limit.py:28-33 | admitted exactly below the limit; a refusal says the whole seconds until the oldest entry may leave, and at least one |
| RateLimit.BoundedIffSpread | backend/rate_limit.py:21-33 | every window within the limit is the same as entries a limit apart being a window apart |
| RateLimit.BucketIsNewWindow | backend/rate_limit.py:26-33 | with a window of some length the deque left behind is the window of all admissions so far |
| RateLimit.LimitKept | backend/rate_limit.py:21-33 | in every run no window of any key holds more admissions than its rule allows |
| RateLimit.RetrySufficesIff | backend/rate_limit.py:29-31 | waiting as told suffices exactly when the wait was whole or at most a second |
| RateLimit.ToldTooEarly | backend/rate_limit.py:29-31 | a client told 59 seconds that is refused again after them |
| RateLimit.LiveIsWindow | backend/rate_limit.py:21-28 | for a rule that is the only one of its name, what the deque still holds of the window is all of it |
| UniqueNames.CandidatesDiffer | backend/routers/curriculum.py:388-391 | two numbered candidates with the same text have the same number |
| UniqueNames.TakenCount | backend/routers/curriculum.py:387-395 | no more candidates can be taken than there are names |
| UniqueNames.FirstNumbered | backend/routers/curriculum.py:387-395 | the loop ends within one more round than there are names, at the first free number |
| UniqueNames.NamePool.Allocate | backend/routers/curriculum.py:382-395 | the first free candidate is returned and added, and nothing else |
| UniqueNames.NamePool.AllocateAll | backend/routers/curriculum.py:665-747 | a whole activation gives each resource the first free candidate of its own, so pairwise distinct, new names, of at most 160 characters while the numbers have at most 156 digits |
| UniqueNames.CandidateFitsIff | backend/routers/curriculum.py:378-391 | a numbered name fits exactly when its number leaves room for a character, or leaves none and nothing of the name is kept |
| UniqueNames.TruncatedIs | backend/routers/curriculum.py:378-379 | a name that fits is kept; of a longer one everything within reach is kept but trailing whitespace |
| UniqueNames.CandidateIs | backend/routers/curriculum.py:388-391 | a later candidate ends in its number in brackets, after as much of the name as that leaves room for |
| UniqueNames.NameOf | backend/routers/curriculum.py:742-747 | a resource is called by its own name or after its lesson, unchanged when that fits and is free |
| SchemaExample.GenerateExample | backend/openapi.py:435-511 | the walker with its dictionary loops terminates on every component graph and equals the recursive specification, failures included |
| SchemaExample.ExampleOk | backend/openapi.py:464-467 | only an empty list of alternatives makes it fail |
| SchemaValues.PropertyShownIff | backend/openapi.py:479-494 | an object shows exactly those declared properties that belong in the body, have an example, and are required or find fewer than the limit shown before them; each with its example |
| SchemaValues.ObjectShown | backend/openapi.py:493-497 | such an object is the example; where nothing is shown an open object shows the placeholder, another none |
| SchemaValues.ArrayShown | backend/openapi.py:499-501 | an array shows its item's example, and is empty exactly when that has none |
| SchemaValues.TypeShown | backend/openapi.py:503-511 | the value for each plain type, by the field's name |
| SchemaValues.PartsShown | backend/openapi.py:457-463 | the last part to show a name decides what is merged under it |
| SchemaValues.MergedHasIff | backend/openapi.py:457-463 | a name is merged exactly when some part shows it |
| SchemaValues.OnlyPartsShown | backend/openapi.py:457-463 | and nothing is shown that no part shows |
| SchemaValues.AlternativeShown | backend/openapi.py:464-467 | of alternatives the first is shown |
| SchemaValues.LiteralShown | backend/openapi.py:447-451 | an example is shown as it stands, before the first of several |
| SchemaValues.ReferenceShown | backend/openapi.py:452-456 | a reference shows what its component shows under the component's name, once on the way down |
| SchemaValues.LateLiteralShown | backend/openapi.py:468-473 | a choice is shown before the fixed value and that before the default |
| SchemaSoundness.ExampleSound | backend/openapi.py:435-511 | whatever the references, an example has the type its schema asks for, or there is none |
| SchemaSoundness.MergedSoundIff | backend/openapi.py:457-463 | merged object parts have an example of the schema's type exactly when what stands beside them accepts it and no part's property is overwritten with a value it does not accept |
| SchemaSoundness.AlternativeSoundIff | backend/openapi.py:464-467 | an example taken from an alternative has its schema's type exactly when what stands beside the alternatives accepts it |
| SchemaSoundness.AcceptsIff | backend/openapi.py:435-511 | a value has a schema's type exactly when its own keys, every part and some alternative accept it |
| SchemaSoundness.PlaceholderIff | backend/openapi.py:495-496 | the placeholder has its schema's type exactly when every declared property it mentions accepts it |
| SchemaSoundness.OpenObjectSoundIff | backend/openapi.py:479-497 | so an open object with nothing else to show has an example of its type exactly then |
| SchemaSoundness.RequiredShown | backend/openapi.py:480-494 | a required property that belongs in the body is shown with its own example; without one its name appears only in the placeholder |
| SchemaSoundness.HiddenNotShown | backend/openapi.py:483-487 | a write-only property of a response or read-only one of a request appears in the example exactly where the placeholder shows its name |
| SchemaSoundness.OptionalLimited | backend/openapi.py:488-492 | no more optional properties than the limit are shown |
| SchemaSoundness.SelfReferenceHasNone | backend/openapi.py:452-456 | a component that only refers to itself has no example |
| SchemaSoundness.PlaceholderClash | backend/openapi.py:493-497 | a hidden property called key reappears as the placeholder with the wrong type |

## Left out

- Families, roles, sessions, audit events, notifications, caches and HTTP: one family's rows are modelled, with error kinds instead of responses.
- Dates are day numbers and times integers; instants in the change log keep their UTC value only; case folding, digits and white space are ASCII.
- The services behind the import routes (AI parsing, revalidation, creation of assignments) are parameters; of revalidation only the set of statuses it can return is used.
- Row locks, connection errors and process restarts: a request may stop between its accesses, and the worker may die, which covers their effect on the row.
- ORM caching beyond a plan's lesson and a target's unit, which stay loaded as they were while their row changes.
- Curriculum edits, and the weekly import that creates lesson plans through its own service: neither refreshes pacing targets.
- Moving a schedule to another student or year, which the source does without a conflict check, and renaming or deleting schedules.
- The database order of covering schedules is the order of the sequence; the agenda is proved independent of it only when its items do not overlap.
- Generating assignments from lesson plans, listings, pagination and averages.
- Pace arithmetic is over exact quotients, not floating point.
- Calendar names arrive stripped and date ranges ordered, as the request schemas make them.
- Term types, event types and notes of calendar rows, and the rows of other tables that a deleted year takes along.
- The rest of the security scripts: SARIF and Trivy parsing, deduplication, patch plans and triage comments.
- IssueBody.ParseIssueBody: the four entries the parser adds to its dictionary are kept beside it, because no label can change them.
- RateLimit.RateLimiter.Check: assumes non-decreasing clock readings, as the monotonic clock gives.
- SchemaSoundness.ExampleSound: merged parts that share property names and lists with keys beside them are outside it; SchemaSoundness.MergedSoundIff and SchemaSoundness.AlternativeSoundIff say when their examples have the schema's type, the former for parts that are object schemas or refer to one.
- SchemaExample.GenerateExample: the table of sample strings is a parameter, and `examples` is a mapping.
- AcademicCalendar.FamilyCalendar.CreateTerm: a query that finds several overlapping terms is an internal error, as in the source.
