# Harvoost: a model of the timesheet protocol and its neighbours

Harvoost keeps time entries per user, groups them into ISO weeks, and locks a week once it has been submitted and approved in two stages. The lock is a *stored rollup*: `timesheet_periods.status` is derived from the week's entries, but only some requests recompute it, while every write to the week consults it. This project models the handlers that write these tables, the database guards behind them, and five neighbouring pieces of logic, and proves what holds in every reachable state. Where the code does not keep a property its documentation suggests, there is a concrete run that breaks it and the exact condition under which it does hold.

## The parts

| file | what it is about |
|---|---|
| `Tables.dfy` | rows of `time_entries` (with their history), `timesheet_periods`, `idempotency_keys`; the CHECKs, unique indexes and the exclusion constraint |
| `Rollup.dfy`, `Periods.dfy` | the rule from entries to a week's status, the counting loop, the stored row and its stamps |
| `Requests.dfy` | every writing request as a function from database to database, with its error paths; runs of requests |
| `Contracts.dfy` | what each request answers and leaves, column by column: every refusal in the order of the checks, every row |
| `Effects.dfy`, `Outcomes.dfy` | what one request does to the tables, when it succeeds, what a second request undoes |
| `Batches.dfy` | approval batches: duplicates, missing ids, where they stop |
| `LockSoundness.dfy` | the lock over every run, and what a batch that stops half way does to it |
| `FrozenWeeks.dfy`, `Stamps.dfy`, `TwoStage.dfy`, `Hours.dfy` | further properties of every run |
| `Service.dfy` | the handlers themselves, as methods over mutable tables with the loops of the source, each proved equal to its function in `Requests.dfy` |
| `Interleaving.dfy` | the same requests split into lookup, check, update, commit and store, interleaved at will, with crashes |
| `WriteRaces.dfy`, `LockRaces.dfy` | what a write that was checked earlier can do to a locked entry, to a locked week, and to the lock itself |
| `Statements.dfy` | approvals, per-entry unlocks and every recompute statement by statement, submit and week unlock with their commit apart from their count, interleaved with each other and with everything above |
| `Steps.dfy` | what each of these steps and statements does, column by column |
| `StaleCounts.dfy` | the lock under those interleavings: what a store that comes late does to it |
| `ApprovalRaces.dfy` | the two approval stages under those interleavings |
| `Replays.dfy` | retries after a crash and after an answer |
| `CounterExamples.dfy` | runs that break what does not hold |
| `IsoWeeks.dfy` | calendar and week arithmetic, the client's week bounds and week token |
| `AuditChain.dfy`, `AuditRaces.dfy` | the audit log's hash chain, its append step and its two scans; inserts that overlap |
| `Rates.dfy` | effective-dated cost and billable rates |
| `ScheduleGrid.dfy` | the schedule dashboard |
| `WeeklyScheduler.dfy`, `SchedulerRaces.dfy` | trigger times and the weekly summary job; handlers that overlap |

## How to read the model

* The week of an instant is an arbitrary function `weekOf(user, instant)`. Everything about locks is proved for all such functions; `IsoWeeks.CalendarWeeks` is one of them, in any time zone.
* A run of `Requests` takes each request in one step. `Interleaving` takes timers and manual writes apart, `Statements` the requests that recompute; `UninterruptedTimer`, `UninterruptedWrite`, `AloneIsAtomic`, `UnlockAloneIsAtomic` and `TxAloneIsAtomic` prove that the pieces, with nothing in between, are the one step.
* Every request is told twice: in `Requests` as the source computes it, and in `Contracts` as a table of cases over the request and the columns, which names none of the functions that compute it. The lemmas of `Contracts` say that the two agree; those of `Steps` do the same for each step of `Interleaving` and `Statements`.
* An entry carries its history rows in insertion order (`log`), because the foreign key deletes them with it. `latest` means last inserted.
* `now` is the database's clock in a request; start and switch also read the server's clock (`appNow`) in their precheck.
* `Struct` is what the constraints on `time_entries` say; it is proved of every reachable state, not assumed.
* Hashes are terms of a datatype (`AuditChain.Hash`), so they are injective and well-founded: the usual ideal of a keyed hash.
* Dates are day numbers, counted from Monday, 1 January of year 1.
* `Service.Timesheets` has the source's mutable form. Its methods state the whole new state as the function in `Requests.dfy`, and those functions are what the properties are about.

## What the code does and its comments do not say

* A batch approval runs outside a transaction. An id with no row fails on the history row's foreign key, and a stage-2 conflict of interest stops the batch too: what was written before stays, and nothing is recomputed. The lock can then be wrong (`CounterExamples.StoppedBatchBreaksLock`); `LockSoundness.StoppedBatchKeepsExactIff` says exactly when.
* recomputePeriod counts a week in one statement and stores the status in a later one, and nothing holds the week in between. A whole unlockWeek fits there: the late store then locks the week again over its drafts (`CounterExamples.UnlockRacesRecompute`, from any such state `StaleCounts.LateStoreRelocks`). A submit has the same gap between its count and its commit, since a manual create still finds the week open (`CounterExamples.CreateRacesSubmit`). `StaleCounts.StoreRightIff` says exactly when a store is right, `UndisturbedStoreHolds` what a caller can rely on, and `FloorHoldsIff`, `DraftsHoldIff` and `ExactBreaksIff` which events break a lock.
* A per-entry unlock drafts the entry before it recomputes; if it dies in between, the draft stays under the lock (`StaleCounts.DraftsHoldIff`).
* Deleting or moving a draft out of a locked week, or stopping a timer in one, does not recompute. Such drafts exist: a timer may run on while its week is submitted. So "stored status = rollup" fails for locked weeks that hold a draft, and only for those (`LockSoundness.StoredIsRollupIff`). An edit checks only the week an entry goes to, so an entry can leave a locked week and not return (`Effects.EditUndoneIff`).
* The migration's CHECK ties `end_at` to the running status, so a per-entry unlock of a running timer, or a PATCH that gives one an end, fails with a database error instead of breaking that link.
* unlockWeek's comment promises an open week with `reopened_at` set. If a rejected entry stands in the week it ends `rejected`, and `reopened_at` is not set. Submitting skips rejected entries as already submitted.
* The per-entry unlock always logs `final_approved` as the prior status (`Effects.AdminUnlockLogsTruthIff`).
* Stage-1 approval writes its history row even where the UPDATE matched nothing. Two-stage separation is checked against that row, so a phantom row defeats it (`CounterExamples.PhantomRowDefeatsSeparation`).
* A stage-2 batch reads the stage-1 actor and updates the entry in two autocommitted statements, and an admin may call both stages. A stage-1 approval of their own in between goes unseen (`CounterExamples.ReadRacesApproval`), and so does one that dies before its row is written (`ApprovalRaces.DieFirstFinalizesOwn`). `ApprovalRaces.FinalizesOwnIff` says in terms of the order of reads, moves and history rows when somebody finalizes their own, `ApprovalRaces.TurnsSeparate` what keeps it from happening on an entry.
* DELETE, and a PATCH that keeps `start_at`, have no trigger behind them and race with a submit (`CounterExamples.DeleteRacesSubmit`, `EditRacesSubmit`). `WriteRaces.ChangesLockedEntryIff` and `DeletesFromLockedWeekIff` say exactly when.
* start and switch hash only the body, so a key stored by one is a hit for the other. A stop that uses the key of a start still to be stored keeps the key (`Replays.StopTakesKey`).
* A stop that dies between its UPDATE and its store cannot be retried to the same answer: the retry finds no timer, or ends one started since (`Replays.RetriedStop`).
* The audit trigger's `FOR UPDATE` locks the last row but does not look for a later one once it has the lock, and locks nothing on an empty table. Two records that overlap take the same previous hash, and the scan then reports a log nobody touched (`AuditRaces.PassesIffSerial`).
* A submit with a token for week 53 of a year that has 52 weeks stores a row for a week no instant belongs to (`IsoWeeks.PhantomWeek`).
* An open rate row counts as ending on 9999-12-31 in the exclusion constraint, so a rate from that very date is always accepted, and after a first one there any earlier date still is (`Rates.EndOfTimeTwice`). `Rates.AfterEveryStartIff` and `Rates.CoveredOnceIff` say exactly when this shows.
* The weekly scheduler relies on a uniqueness of `email_delivery_log` that no migration creates; `ON CONFLICT DO NOTHING` has nothing to conflict with. One handler at a time queues at most one summary; two that overlap can queue it twice (`SchedulerRaces.MeetingRepeats`), and only they can (`SchedulerRaces.TwiceIff`).

## Model

| member | source | states |
|---|---|---|
| `Rollup.Tally` | apps/api/src/timesheet-periods/period.service.ts:131-137 | the counting loop gives, for each status, how many rows of any order have it, and their total |
| `Rollup.CountsRefineRule` | apps/api/src/timesheet-periods/period.service.ts:238-250 | deciding on the counts gives, for every list, rejected if any is, open if empty or any draft, else the lowest stage |
| `Rollup.RollupIgnoresOrder` | apps/api/src/timesheet-periods/period.service.ts:131-150 | a permutation of the entries has the same rollup |
| `Rollup.AdvancingNeverLowers` | apps/api/src/timesheet-periods/period.service.ts:238-250 | moving one entry to a higher stage never lowers the week's stage |
| `Rollup.WeekCountsRefineRule` | apps/api/src/timesheet-periods/period.service.ts:119-150 | the same rule holds between the grouped counts and the entry table of a user-week |
| `Rollup.RollupFrame` | apps/api/src/timesheet-periods/period.service.ts:119-150 | weeks that hold the same statuses, however many entries of each, have the same rollup |
| `Rollup.LockMeaning` | apps/api/src/timesheet-periods/period.service.ts:238-250 | a week whose filed entries roll up to a locked status has some, none rejected, and the status is their lowest stage |
| `PeriodRows.RecomputeIsRollup` | apps/api/src/timesheet-periods/period.service.ts:107-208 | after a recompute the stored status (no row reads as open) is the rollup, and every other stored row is untouched |
| `PeriodRows.RecomputeOneMore` | apps/api/src/approvals/approvals.controller.ts:58-78 | recomputing weeks one after another, in any order, is recomputing the set |
| `PeriodRows.RecomputeIdempotent` | apps/api/src/timesheet-periods/period.service.ts:157-207 | a second, later recompute changes no row and no stamp |
| `Contracts.RollupIsGiven` | apps/api/src/timesheet-periods/period.service.ts:119-150 | the rollup is rejected iff a rejected entry is in the week, open iff none is and a draft is or nothing but timers, else the one stage that some entry has and none is below |
| `Contracts.RecomputeBringsUpToDate` | apps/api/src/timesheet-periods/period.service.ts:107-208 | a recomputed week's row is the one its entries ask for, each stamp kept, set or cleared by the status alone; an open week gets no row, no other row moves |
| `Contracts.StartContract` | apps/api/src/time-entries/time-entries.controller.ts:181-237 | start: refused without a key, replayed or in conflict under a stored one, refused in a locked week by either clock, by what cannot end or by a used key, in this order; otherwise exactly the row of the request is new, billable and running from now, what ran is a draft that ends now, and the reply is stored |
| `Contracts.SwitchContract` | apps/api/src/time-entries/time-entries.controller.ts:274-322 | switch is the same start without a mood |
| `Contracts.StopContract` | apps/api/src/time-entries/time-entries.controller.ts:240-271 | stop: the same refusals and replays; otherwise the user's running timer alone ends now with the notes given, and is the reply stored, or the reply says that none ran |
| `Contracts.CleanupContract` | packages/jobs/src/jobs/timer-stuck-cleanup.ts:12-19 | cleanup succeeds iff each timer left for a day can be closed where it was last touched, and then closes exactly those, with its note added |
| `Contracts.SubmitContract` | apps/api/src/time-entries/time-entries.controller.ts:332-444 | submit: exactly the drafts it is for are filed, the one entry or those of the token's or the entry's own week; that week's row is stamped and brought up to date, no other moves |
| `Contracts.CreateContract` | apps/api/src/time-entries/time-entries.controller.ts:467-512 | create: which refusal comes first, and otherwise exactly the row of the request is new |
| `Contracts.EditContract` | apps/api/src/time-entries/time-entries.controller.ts:515-587 | PATCH: which refusal comes first; otherwise exactly the fields given and `updated_at` change, and nothing if none is given |
| `Contracts.RemoveContract` | apps/api/src/time-entries/time-entries.controller.ts:590-619 | DELETE: which refusal comes first, and otherwise exactly that entry is gone |
| `Contracts.ReviewContract` | apps/api/src/approvals/approvals.controller.ts:216-309 | both approval stages: a moved entry is approved or rejected as the request says, dated now, and every naming logs the request's stages, actor and reason; the batch goes up to the first id without a row or, at stage 2, last approved by the actor, and only one that gets through brings the named weeks up to date |
| `Contracts.AdminUnlockContract` | apps/api/src/approvals/approvals.controller.ts:311-344 | the per-entry unlock: refused, or the entry is a draft with a row that says it was final_approved, and its week is up to date |
| `Contracts.UnlockWeekContract` | apps/api/src/timesheet-periods/timesheet-periods.controller.ts:136-202 | the week unlock: refused, or exactly the week's filed entries are drafts, each logged as what it was, and the week is up to date |
| `Effects.StartHandsOver` | apps/api/src/time-entries/time-entries.controller.ts:181-237 | a new timer begins where the one before ends, alone runs for its user, is the whole row the request asks for, billable and dated now; nothing else moves |
| `Effects.EndingIff` | packages/db/prisma/migrations/20260522000000_init/migration.sql:198-206 | the constraints let a timer end now iff it began by then and nothing booked lies in between |
| `Effects.StartSucceedsIff` | apps/api/src/time-entries/time-entries.controller.ts:187-236 | a first start under a key succeeds iff its week is writable by both clocks, what runs can end, and the key is unused by the user's entries |
| `Effects.StartThenStop` | apps/api/src/time-entries/time-entries.controller.ts:181-271 | start and stop together book one billable draft of the request between the two instants, next to the one that ended before |
| `Effects.CleanupTwice` | packages/jobs/src/jobs/timer-stuck-cleanup.ts:12-19 | a cleanup that went through has nothing left to do at that time or any before |
| `Effects.CreateSucceedsIff` | apps/api/src/time-entries/time-entries.controller.ts:467-512 | a create succeeds iff the span is positive and at most a day, free of the user's entries (a running one is endless), and its week writable; exactly that draft is new |
| `Effects.CreateThenRemove` | apps/api/src/time-entries/time-entries.controller.ts:467-619 | removing a just created entry always succeeds and restores the tables |
| `Effects.EditUndoneIff` | apps/api/src/time-entries/time-entries.controller.ts:515-587 | the reverse PATCH succeeds, and restores the table, iff no time was patched or the week the entry came from is writable |
| `Effects.EditTwice` | apps/api/src/time-entries/time-entries.controller.ts:515-587 | a PATCH that succeeded succeeds again, whatever the project check says by then, and moves only `updated_at` |
| `Effects.FailuresDropOut` | apps/api/src/time-entries/time-entries.controller.ts:181-619 | failed requests other than batches can be dropped from any run, which then ends in the same tables |
| `Effects.ApprovalSucceedsIff` | apps/api/src/approvals/approvals.controller.ts:216-309 | a batch succeeds iff it names something, a rejection has a reason of ten characters, every id has a row, and no stage-2 id was last taken through stage 1 by the actor |
| `Effects.SubmitStamps` | apps/api/src/time-entries/time-entries.controller.ts:419-440 | the week filed, the token's or the entry's own, keeps the time and user of its first submission; no other week's row moves |
| `Effects.AdminUnlockOpensWeek` | apps/api/src/approvals/approvals.controller.ts:311-344 | the entry is a draft, its whole week writable, open or rejected; no other lock moves |
| `Effects.AdminUnlockLogsTruthIff` | apps/api/src/approvals/approvals.controller.ts:311-344 | the logged prior status is the true one iff the entry was final_approved |
| `Batches.BatchClosedForm` | apps/api/src/approvals/approvals.controller.ts:216-253 | a batch that runs through touches each entry as often as it is named, whatever the order |
| `Batches.BatchStopsAt` | apps/api/src/approvals/approvals.controller.ts:257-309 | any batch is its longest passing prefix, and completes iff that is all of it |
| `Batches.BatchStatuses` | apps/api/src/approvals/approvals.controller.ts:216-309 | the statuses left depend only on the set of ids |
| `Batches.BatchTouches` | apps/api/src/approvals/approvals.controller.ts:216-309 | completed or stopped, a batch changes at most status, updated_at and history, the status only along its verdict |
| `Batches.BatchLogs` | apps/api/src/approvals/approvals.controller.ts:216-309 | a completed batch logs a row for each time an entry is named, moved or not, and dates exactly the moved ones |
| `Batches.ApprovalIgnoresOrder` | apps/api/src/approvals/approvals.controller.ts:58-78 | reordering a batch that runs through changes neither the entries nor the stored periods it leaves |
| `Batches.ApprovalRecomputes` | apps/api/src/approvals/approvals.controller.ts:58-78 | after a completed batch every week it names stores the rollup of its entries; all other rows are unchanged |
| `LockSoundness.StructStep` | packages/db/prisma/migrations/20260522000000_init/migration.sql:180-215 | every request keeps the CHECKs, both unique indexes and disjoint ranges |
| `LockSoundness.StepPeriods` | apps/api/src/timesheet-periods/period.service.ts:107-208 | a request recomputes some weeks from the entries it leaves and touches no other stored row |
| `LockSoundness.RunsKeepBase` | apps/api/src/timesheet-periods/period.service.ts:107-208 | in every run, stopped batches included, filed entries of a locked week are rejected or at or above its status, and its drafts were timers |
| `LockSoundness.LocksAreSound` | apps/api/src/timesheet-periods/period.service.ts:107-208 | in every run whose batches complete: a locked week has filed entries, none rejected, the stored status is their lowest stage, any draft was a timer |
| `LockSoundness.StoredIsRollupIff` | apps/api/src/timesheet-periods/period.service.ts:107-150 | the stored status of a locked week is its full rollup iff no draft sits in it |
| `LockSoundness.MovedKeepsExactIff` | apps/api/src/approvals/approvals.controller.ts:216-309 | moving named entries without a recompute keeps a lock exact iff the move is harmless, a test on the tables before |
| `LockSoundness.StoppedBatchKeepsExactIff` | apps/api/src/approvals/approvals.controller.ts:216-309 | a stopped batch leaves a week's lock exact iff the ids before its stop are harmless to it |
| `CounterExamples.StoppedBatchBreaksLock` | apps/api/src/approvals/approvals.controller.ts:216-253 | a run in which a stopped rejection leaves a submitted week with only a rejected entry |
| `FrozenWeeks.StepFreezes` | apps/api/src/time-entries/time-entries.controller.ts:466-619 | no request puts an entry into a locked week or deletes one from it, nor changes the content of a locked entry |
| `FrozenWeeks.LockedWeekTakesNothingIn` | apps/api/src/time-entries/time-entries.controller.ts:466-587 | while a week stays locked along any run, no entry joins it |
| `FrozenWeeks.LockedWeekLosesNothing` | apps/api/src/time-entries/time-entries.controller.ts:590-619 | while a week stays locked along any run, an entry that is not moved out of it is not deleted |
| `FrozenWeeks.LockedEntryKeepsContent` | apps/api/src/time-entries/time-entries.controller.ts:515-587 | as long as an entry is in a locked status it keeps start, end, project, task, notes and billable |
| `Stamps.StampStep` | apps/api/src/timesheet-periods/period.service.ts:157-207 | reopened_at changes exactly on locked to open, approval stamps only as the status moves; no row disappears |
| `Stamps.StampsOverRuns` | apps/api/src/timesheet-periods/period.service.ts:157-207 | in every run with an advancing clock, the approval stamps are set iff the status is that far, the first never later than the second |
| `Stamps.StampKeepsFirstValue` | apps/api/src/timesheet-periods/period.service.ts:185-207 | a stamp keeps its first value while the week stays at its stage |
| `TwoStage.BatchMoves` | apps/api/src/approvals/approvals.controller.ts:216-309 | a batch moves exactly the named entries that stand at its stage, and adds a stage-1 row for every stage-1 approval, moved or not |
| `TwoStage.FinalApprovalIsSomeoneElse` | apps/api/src/approvals/approvals.controller.ts:257-309 | in every run of batches taken as one step each, an entry becomes final_approved only by someone other than the actor of its latest stage-1 row, which exists |
| `TwoStage.PhantomRowIff` | apps/api/src/approvals/approvals.controller.ts:216-253 | after a stage-1 batch the latest row still names the real mover iff the batch did not reach the entry, rejects, or is the mover's own |
| `TwoStage.RowsNameMovers` | apps/api/src/approvals/approvals.controller.ts:216-309 | in runs whose stage-1 approvals name only submitted entries, the latest row always names the real mover |
| `TwoStage.TwoStageSeparation` | apps/api/src/approvals/approvals.controller.ts:216-306 | in such runs, batches taken as one step each, nobody finalizes what they took through stage 1, across unlock and resubmit rounds |
| `Statements.AloneIsAtomic` | apps/api/src/approvals/approvals.controller.ts:58-309 | the statements of a batch, its weeks' resolve, count, lookup and store included, with nothing in between, are the one-step batch: same tables, same answer |
| `Statements.UnlockAloneIsAtomic` | apps/api/src/approvals/approvals.controller.ts:311-344 | so are those of a per-entry unlock |
| `Statements.TxAloneIsAtomic` | apps/api/src/time-entries/time-entries.controller.ts:349-441 | a submit, or a week's unlock, with nothing between its count and its commit is the one-step request |
| `Steps.CheckContract` | apps/api/src/time-entries/time-entries.controller.ts:187-619 | the check of a timer or a manual write goes on iff none of its refusals holds, and says which comes first |
| `Steps.CommitContract` | apps/api/src/time-entries/time-entries.controller.ts:196-231 | a timer's insert, with the UPDATE before it: what the UPDATE saw running ends, the whole new row is there, or the call is refused, by which guard |
| `Steps.WriteContract` | apps/api/src/time-entries/time-entries.controller.ts:495-611 | the write of a checked create, PATCH or DELETE under the trigger and constraints of the moment, row by row |
| `Steps.BeginContract` | apps/api/src/approvals/approvals.controller.ts:216-344 | a review or unlock begins iff its request is valid, with the stages, actor and reason it says |
| `Steps.SelectContract` | apps/api/src/approvals/approvals.controller.ts:265-277 | stage 2's read refuses exactly the actor of the last stage-1 row |
| `Steps.MoveContract` | apps/api/src/approvals/approvals.controller.ts:224-229 | the UPDATE moves the entry iff it stands at the review's stage, for an unlock at any but running, to the stage the review says |
| `Steps.LogContract` | apps/api/src/approvals/approvals.controller.ts:230-239 | the INSERT adds the review's history row, moved or not, or fails without an entry |
| `Steps.CountContract` | apps/api/src/timesheet-periods/period.service.ts:119-150 | what a call has counted is the one status the week's entries give it at that moment |
| `Steps.StoreContract` | apps/api/src/timesheet-periods/period.service.ts:152-208 | the store leaves the counted status and its stamps by the row there and the status looked up before |
| `Steps.TransactContract` | apps/api/src/time-entries/time-entries.controller.ts:349-443 | a submit or week unlock that can commit takes exactly its rows, and has counted what its week would hold |
| `Steps.CommitTxContract` | apps/api/src/timesheet-periods/timesheet-periods.controller.ts:140-202 | its commit files or unlocks those rows that are still as they were taken, and stores what it had counted |
| `ApprovalRaces.EventMoves` | apps/api/src/approvals/approvals.controller.ts:216-309 | in every interleaving of statements an entry gets past stage 1, or to final_approved, only by the matching UPDATE, and its latest stage-1 row changes only by a stage-1 INSERT |
| `ApprovalRaces.RowNamesIff` | apps/api/src/approvals/approvals.controller.ts:267-272 | in every interleaving of statements the row that stage 2 goes by names an actor iff their stage-1 INSERT on the entry was the last |
| `ApprovalRaces.RowUntrueIff` | apps/api/src/approvals/approvals.controller.ts:224-239 | it fails to name the entry's last mover iff each INSERT of theirs, if any, has another actor's after it |
| `ApprovalRaces.ReadRefusedIff` | apps/api/src/approvals/approvals.controller.ts:265-277 | a stage-2 read is refused iff the reader's own INSERT was the last, and passes otherwise |
| `ApprovalRaces.FinalizesOwnIff` | apps/api/src/approvals/approvals.controller.ts:257-286 | in every interleaving, a call's update finalizes what its actor was the last to take through stage 1 iff the entry is at stage 1 then, that actor's stage-1 UPDATE was the last, and at the call's read their stage-1 INSERT was not |
| `ApprovalRaces.TurnsSeparate` | apps/api/src/approvals/approvals.controller.ts:257-309 | nobody finalizes an entry they took through stage 1, as long as approvals take turns on that entry, come to it at stage 1 only while it is submitted, and do not die between its update and its log |
| `ApprovalRaces.ReadFirstFinalizesOwn` | apps/api/src/approvals/approvals.controller.ts:265-286 | from any state with a submitted entry, a read, an own stage-1 approval and the update, in this order, finalize one's own with every row true |
| `ApprovalRaces.DieFirstFinalizesOwn` | apps/api/src/approvals/approvals.controller.ts:224-239 | so does an own stage-1 approval that dies before its row |
| `CounterExamples.PhantomRowDefeatsSeparation` | apps/api/src/approvals/approvals.controller.ts:216-309 | a run in which a phantom row lets one manager pass both stages |
| `CounterExamples.ReadRacesApproval` | apps/api/src/approvals/approvals.controller.ts:265-286 | a run from empty tables in which an admin finalizes what they took through stage 1 between read and update |
| `Outcomes.UnlockWeekReopens` | apps/api/src/timesheet-periods/timesheet-periods.controller.ts:136-202 | exactly the week's filed entries are drafts, each logged with its own prior status; the week ends open, or rejected if a rejected entry is in it; every instant of it is writable; other weeks keep row and lock |
| `Outcomes.SubmitThenUnlockWeek` | apps/api/src/timesheet-periods/timesheet-periods.controller.ts:136-202 | unlocking a week just submitted leaves every entry of it that is neither rejected nor running a draft with its content, and its history tells both; no other entry moves |
| `Outcomes.SubmitWeekLocksIff` | apps/api/src/time-entries/time-entries.controller.ts:349-443 | no draft is left in the week, and it is locked iff it holds a closed entry and no rejected one |
| `Outcomes.SecondSubmitChangesNothing` | apps/api/src/time-entries/time-entries.controller.ts:332-444 | submitting the week again, from any of its owner's entries, changes no row at all |
| `Outcomes.SubmitOneLocksIff` | apps/api/src/time-entries/time-entries.controller.ts:332-444 | submitting one entry locks its week iff it was the last draft there and nothing is rejected |
| `Hours.DisjointFits` | packages/db/prisma/migrations/20260522000000_init/migration.sql:198-201 | pairwise disjoint entries, clipped to a window, never sum to more than the window |
| `Hours.HoursBound` | packages/db/prisma/migrations/20260522000000_init/migration.sql:198-201 | in every run a user's closed time in any window is at most the window's length |
| `Hours.HoursBoundInterleaved` | packages/db/prisma/migrations/20260522000000_init/migration.sql:198-201 | and in every interleaving, statement by statement too |
| `Hours.ManualNeedsNoBackstop` | apps/api/src/time-entries/time-entries.controller.ts:467-512 | in every reachable state, a manual create that passes the prechecks violates no constraint |
| `Service.OrderByStart` | apps/api/src/time-entries/time-entries.controller.ts:372-384 | each entry of the set once, in order of start |
| `Service.FileDrafts` | apps/api/src/time-entries/time-entries.controller.ts:385-417 | the submit loop files exactly the drafts and lists them and the skipped, with reasons, in order |
| `Service.SubmitListsPartition` | apps/api/src/time-entries/time-entries.controller.ts:385-444 | every candidate is in exactly one of submitted_ids and skipped, as often as it was looked at |
| `Service.SubmitListsKeepOrder` | apps/api/src/time-entries/time-entries.controller.ts:385-444 | and both lists go in the order of the candidates |
| `Service.UnlockEach` | apps/api/src/timesheet-periods/timesheet-periods.controller.ts:152-187 | the unlock loop drafts each selected entry with its own prior status |
| `Service.CountByStatus` | apps/api/src/timesheet-periods/period.service.ts:119-137 | the grouped counts are the cardinalities of the week's entries by status |
| `Service.DeriveStatus` | apps/api/src/timesheet-periods/period.service.ts:107-150 | counting and deciding over the mutable table gives the rollup rule of the week |
| `Service.Timesheets.RecomputePeriod` | apps/api/src/timesheet-periods/period.service.ts:107-208 | the stored rows become the recompute of that one week |
| `Service.Timesheets.RecomputeAffectedPeriods` | apps/api/src/approvals/approvals.controller.ts:58-78 | each distinct week of the listed entries is recomputed, and visited once |
| `Service.Timesheets.Start` | apps/api/src/time-entries/time-entries.controller.ts:181-237 | new state and reply are those of the start request, error paths included; the guards stay |
| `Service.Timesheets.Switch` | apps/api/src/time-entries/time-entries.controller.ts:274-322 | the same for switch, which takes no mood |
| `Service.Timesheets.Stop` | apps/api/src/time-entries/time-entries.controller.ts:240-271 | the same for stop |
| `Service.Timesheets.CleanUp` | packages/jobs/src/jobs/timer-stuck-cleanup.ts:12-19 | the same for the cleanup job |
| `Service.Timesheets.SubmitEntry` | apps/api/src/time-entries/time-entries.controller.ts:332-444 | the same for submit, with the reply's two lists over the candidates in start order |
| `Service.Timesheets.Create` | apps/api/src/time-entries/time-entries.controller.ts:467-512 | the same for a manual create |
| `Service.Timesheets.EditEntry` | apps/api/src/time-entries/time-entries.controller.ts:515-587 | the same for a PATCH |
| `Service.Timesheets.RemoveEntry` | apps/api/src/time-entries/time-entries.controller.ts:590-619 | the same for a DELETE |
| `Service.Timesheets.ApplyEach` | apps/api/src/approvals/approvals.controller.ts:225-246 | the batch loop, run in place without a transaction, leaves what the batch function says, stop included |
| `Service.Timesheets.ManagerApproval` | apps/api/src/approvals/approvals.controller.ts:216-253 | the stage-1 handler leaves the state of the stage-1 request |
| `Service.Timesheets.FinalApproval` | apps/api/src/approvals/approvals.controller.ts:257-309 | the stage-2 handler leaves the state of the stage-2 request |
| `Service.Timesheets.AdminUnlockEntry` | apps/api/src/approvals/approvals.controller.ts:311-344 | the per-entry unlock leaves the state of its request |
| `Service.Timesheets.UnlockWholeWeek` | apps/api/src/timesheet-periods/timesheet-periods.controller.ts:136-202 | the week unlock leaves the state of its request and lists exactly the entries that held the lock, each once |
| `Interleaving.UninterruptedTimer` | apps/api/src/time-entries/time-entries.controller.ts:181-237 | the five steps of a timer call, with nothing in between, are the one atomic request: same tables, cache and answer |
| `Interleaving.UninterruptedWrite` | apps/api/src/time-entries/time-entries.controller.ts:467-619 | so are check and write of a manual create, PATCH or DELETE |
| `Interleaving.AtMostOneTimer` | packages/db/prisma/migrations/20260522000000_init/migration.sql:209-215 | in every interleaving: never two running entries of a user, never two entries of one (user, key) |
| `Interleaving.AbortedNeverWrote` | apps/api/src/time-entries/time-entries.controller.ts:187-236 | a call that ends aborted changed no entry at any point of the interleaving |
| `Interleaving.RaceIff` | packages/db/prisma/migrations/20260522000000_init/migration.sql:209-211 | with all other guards passed, the index refuses a commit iff a timer runs that the UPDATE did not see |
| `Interleaving.AtomicStartNeverRaces` | apps/api/src/time-entries/time-entries.controller.ts:187-236 | run in one step, only a reused key can turn the insert away |
| `Replays.RetryAfterCrash` | apps/api/src/time-entries/time-entries.controller.ts:187-236 | in every run in which a call commits and crashes before it stores, a later retry with its key commits nothing while the committed entry stands |
| `Replays.RetriedStop` | apps/api/src/time-entries/time-entries.controller.ts:240-271 | the retry of a stop that died between its UPDATE and its store, its key still unstored, is told that no timer runs iff none of the user's does by then, and otherwise ends one started since: never the reply the first would have given |
| `Replays.ReplayIsStable` | apps/api/src/common/idempotency/idempotency.service.ts:48-62 | once a row stands under a key, whatever happens, a request with it gets that reply for the same body and a conflict for another, touching no table |
| `Replays.OwnReplyReplaysIff` | apps/api/src/common/idempotency/idempotency.service.ts:48-76 | every later request with a finished call's key and body gets the call's own reply iff no row stood under the key when it came to store |
| `Replays.StopTakesKey` | apps/api/src/time-entries/time-entries.controller.ts:240-271 | a stop with the same key between commit and store turns every replay of the finished start into a conflict |
| `Interleaving.LockedWeekTakesNothingInConcurrently` | packages/db/prisma/migrations/20260524120000_timesheet_periods/migration.sql:69-124 | with check and write interleaved at will, no event puts an entry into a week locked at that moment |
| `WriteRaces.ChangesLockedEntryIff` | apps/api/src/time-entries/time-entries.controller.ts:515-619 | in every interleaving, an event changes the content of a locked entry, or deletes it, iff it is the write of a checked DELETE of it, or of a checked PATCH of it that passes the trigger and the constraints and gives a field another value |
| `WriteRaces.LockedSinceCheck` | apps/api/src/time-entries/time-entries.controller.ts:515-619 | and then the entry was taken into a locked status after that check |
| `WriteRaces.UndisturbedKeepsLocked` | apps/api/src/time-entries/time-entries.controller.ts:515-619 | so a call whose entry nobody locks between its check and its write changes no locked entry |
| `WriteRaces.DeletesFromLockedWeekIff` | apps/api/src/time-entries/time-entries.controller.ts:590-619 | an event deletes from a locked week iff it is the DELETE, of an entry in it now, of a call that checked before the week was locked |
| `WriteRaces.UndisturbedDeletesNothing` | apps/api/src/time-entries/time-entries.controller.ts:590-619 | so a DELETE whose week nobody locks between its check and its write deletes from no locked week |
| `LockRaces.InterleavingsKeepBase` | apps/api/src/timesheet-periods/period.service.ts:107-208 | in every interleaving of timers, manual writes and whole requests, filed entries of a locked week are rejected or at or above its status, and its drafts were timers |
| `LockRaces.EventBreaksExactIff` | apps/api/src/timesheet-periods/period.service.ts:107-208 | there an event makes an exact lock wrong iff it is the write of a checked DELETE or PATCH that takes out of the week its only entry at the stored stage, or a batch that stops after moving something not harmless |
| `StaleCounts.FloorHoldsIff` | apps/api/src/timesheet-periods/period.service.ts:119-207 | statement by statement, a locked week's filed entries stay rejected or at or above its status all along a run iff no event stores a locked status above one of them |
| `StaleCounts.DraftsHoldIff` | apps/api/src/approvals/approvals.controller.ts:311-344 | its drafts stay ones born as timers all along iff no event stores a lock over another, and no per-entry unlock makes one under the lock |
| `StaleCounts.StatementsKeepBaseIff` | apps/api/src/approvals/approvals.controller.ts:58-344 | so a run of statements keeps what every run of whole requests keeps iff none of its events is of these kinds |
| `StaleCounts.StoreRightIff` | apps/api/src/timesheet-periods/period.service.ts:119-207 | a store leaves the rollup in the row iff the rollup at its count is the rollup now; the lock it leaves holds iff what was counted was no lock, or is still the lowest stage filed, none rejected and no draft entered by hand |
| `StaleCounts.UndisturbedStoreHolds` | apps/api/src/timesheet-periods/period.service.ts:119-207 | a store leaves the rollup and a lock that holds if no event since its count changed which statuses the week holds |
| `StaleCounts.UndisturbedStoresKeepFloor` | apps/api/src/approvals/approvals.controller.ts:58-78 | a run in which every store into a week is like that keeps the week's floor throughout, whatever else runs or dies |
| `StaleCounts.ExactBreaksIff` | apps/api/src/timesheet-periods/period.service.ts:107-208 | in every interleaving of statements, an event makes an exact lock wrong iff it is a late store of a lock that is no longer what is filed, the commit of a week's unlock that writes no row and takes back all at the stored stage, an approval's update that is not harmless, or a per-entry unlock, DELETE or PATCH of the only entry at the stored stage |
| `StaleCounts.LateStoreRelocks` | apps/api/src/timesheet-periods/timesheet-periods.controller.ts:136-202 | from any state in which a call has a lock counted and still to store, for a week with a filed entry made by hand, the whole week's unlock and then the store leave the week locked with nothing filed in it and a draft entered by hand |
| `StaleCounts.UpdateHarmsIff` | apps/api/src/approvals/approvals.controller.ts:224-229 | an UPDATE makes an exact lock wrong iff, for an approval, it is not harmless to the week, for a per-entry unlock, the entry was the only one at the stored stage |
| `CounterExamples.IndexIsNeeded` | packages/db/prisma/migrations/20260522000000_init/migration.sql:209-211 | two starts that meet: only the index turns the second away |
| `CounterExamples.DeleteRacesSubmit` | apps/api/src/time-entries/time-entries.controller.ts:590-619 | a DELETE checked before and run after a submit takes a submitted entry out of a locked week |
| `CounterExamples.EditRacesSubmit` | apps/api/src/time-entries/time-entries.controller.ts:515-587 | a PATCH checked before and run after a submit changes a submitted entry |
| `CounterExamples.UnlockRacesRecompute` | apps/api/src/timesheet-periods/period.service.ts:119-207 | a run from empty tables in which a week unlocked between count and store is locked again, its one entry a draft |
| `CounterExamples.CreateRacesSubmit` | apps/api/src/time-entries/time-entries.controller.ts:349-441 | a run in which a create between a submit's count and its commit leaves a manual draft in the locked week |
| `IsoWeeks.WeekStartRoundTrip` | apps/api/src/timesheet-periods/period.service.ts:163-172 | for every date, Monday of 4 January plus 7 * (week - 1) is the Monday of the date that gave the week |
| `IsoWeeks.WeekNumbers` | packages/db/prisma/migrations/20260524120000_timesheet_periods/migration.sql:21-42 | week numbers of dates are 1..53, what the CHECK admits |
| `IsoWeeks.SameWeekIff` | apps/api/src/timesheet-periods/period.service.ts:50-68 | two dates have the same (year, week) iff they share their Monday |
| `IsoWeeks.WeekExistsIff` | apps/api/src/timesheet-periods/period.service.ts:163-172 | a (year, week) the CHECK admits is the week of its own start iff the year has that many weeks |
| `IsoWeeks.PhantomWeek` | apps/api/src/time-entries/time-entries.controller.ts:425-440 | week 53 of a 52-week year shares its start date with week 1 of the next year, and no date is in it |
| `IsoWeeks.OrdinalWeekAgrees` | apps/api/src/timesheet-periods/period.service.ts:50-68 | the ordinal-date computation agrees with the Thursday rule of ISO 8601:2004 (2.2.10) on every date |
| `IsoWeeks.NewYearIs` | apps/api/src/timesheet-periods/period.service.ts:50-68 | a year begins 365 days after the one before, and one more after a year divisible by 4, but not 100, or by 400 |
| `IsoWeeks.ParseIs` | apps/api/src/timesheet-periods/timesheet-periods.controller.ts:143-150 | a token is read iff it is four digits, -W and two digits, as the two numbers they write |
| `IsoWeeks.TokenRoundTripIff` | apps/web/src/lib/timesheet-periods.ts:29-46 | a printed week token reads back as that week iff the year has four digits |
| `IsoWeeks.BoundsAreTheWeek` | apps/web/src/lib/tz.ts:60-80 | in every zone the client's date bounds hold exactly what is filed under the week, and so do its instant bounds if the zone's calendar turns each date once |
| `IsoWeeks.FiledByWeekStart` | apps/api/src/timesheet-periods/period.service.ts:50-68 | in every zone, an entry is filed in an existing week iff its local date lies within seven days of the stored week start |
| `AuditChain.Scan` | packages/jobs/src/jobs/audit-log-integrity.ts:40-130 | for every batch size the cursor loop visits each row once in id order and returns exactly the wrong-hash ids and the first broken link |
| `AuditChain.ScanLinksOnly` | packages/jobs/src/jobs/audit-log-integrity.ts:154-183 | the fallback reports the same first break |
| `AuditChain.AuditLog.Record` | apps/api/src/common/audit/audit.service.ts:42-97 | a record appends one row with the call's own content, the last row's hash or the genesis hash before it, and the keyed hash of the two; or is refused for a short secret and changes nothing |
| `AuditChain.ReportIs` | packages/jobs/src/jobs/audit-log-integrity.ts:63-130 | the report lists exactly the ids whose hash is not that of their content under their previous hash, in order, and the first id that does not name a non-blank hash before it |
| `AuditChain.PassesIff` | packages/jobs/src/jobs/audit-log-integrity.ts:63-130 | the scan is clean iff every row's hash is right and names its predecessor's |
| `AuditChain.AppendsPass` | packages/db/prisma/migrations/20260522170000_audit_hmac/migration.sql:56-115 | every log built only by appends, one at a time, passes |
| `AuditChain.EndsDetermineLog` | packages/jobs/src/jobs/audit-log-integrity.ts:63-130 | two passing logs with the same first previous hash and the same last hash are identical row for row |
| `AuditChain.TamperingIsReported` | packages/jobs/src/jobs/audit-log-integrity.ts:63-130 | any other log between the two ends is reported |
| `AuditChain.DeletionIsReported` | packages/jobs/src/jobs/audit-log-integrity.ts:63-130 | deleting rows from the middle is reported |
| `AuditChain.SwapIsReported` | packages/jobs/src/jobs/audit-log-integrity.ts:63-130 | exchanging two different rows of the middle is reported |
| `AuditChain.StretchPasses` | packages/jobs/src/jobs/audit-log-integrity.ts:63-130 | rows cut off at either end go unreported |
| `AuditRaces.PassesIffSerial` | packages/db/prisma/migrations/20260522170000_audit_hmac/migration.sql:79-86 | in every interleaving of inserts, the log passes iff no insert commits between another's read of the last row and its own row |
| `AuditRaces.InsertAloneRecords` | packages/db/prisma/migrations/20260522170000_audit_hmac/migration.sql:79-111 | an insert with nothing between its read and its row puts its own content after the last row, as a record does |
| `AuditRaces.TwoFirstRecords` | packages/db/prisma/migrations/20260522170000_audit_hmac/migration.sql:79-90 | two first records at once both take the genesis hash, and the scan reports the second |
| `Rates.RateTable.Post` | apps/api/src/cost-rates/cost-rates.controller.ts:124-164 | the table becomes the create of the request: closed and extended, or unchanged when refused |
| `Rates.RateTable.Effective` | packages/db/prisma/migrations/20260522000000_init/migration.sql:571-580 | the lookup gives the covering row of the key that begins last, the last inserted of several, and none iff none covers |
| `Rates.RefusedIff` | apps/api/src/cost-rates/cost-rates.controller.ts:130-154 | in any table, a create is refused iff it is dated before 9999-12-31 and some row of its key reaches past its date, even ended there if it was open and began earlier |
| `Rates.AcceptedIff` | apps/api/src/cost-rates/cost-rates.controller.ts:130-154 | in a table that tiles, a create is accepted iff it is dated 9999-12-31, or lies after every earlier start of the key and none of its rows has been end-dated there |
| `Rates.AfterEveryStartIff` | apps/api/src/cost-rates/cost-rates.controller.ts:130-154 | so it is accepted iff it lies after every start of the key, exactly unless the key has a row from 9999-12-31 that the create is dated with or passes over |
| `Rates.TilesCover` | packages/db/prisma/migrations/20260522000000_init/migration.sql:172-175 | in such a table every date from the key's first on is covered, before 9999-12-31 by exactly one row, from then on by exactly those never end-dated |
| `Rates.CreateKeepsTiles` | apps/api/src/cost-rates/cost-rates.controller.ts:130-154 | a create of any date up to 9999-12-31, accepted or not, keeps every key's tiling |
| `Rates.CreateIsStep` | apps/api/src/cost-rates/cost-rates.controller.ts:130-154 | an accepted create changes exactly its key's lookups from its date on, short of those a later-dated row answers; a refused one changes none |
| `Rates.OvershadowedIff` | packages/db/prisma/migrations/20260522000000_init/migration.sql:571-580 | such a row answers iff the lookup is for 9999-12-31 or later, the key has a row from there, and the create is dated earlier |
| `Rates.RunsTile` | apps/api/src/cost-rates/cost-rates.controller.ts:124-164 | in every run from an empty table each key's rows tile |
| `Rates.AcceptedOverRuns` | apps/api/src/cost-rates/cost-rates.controller.ts:124-164 | in every run a create is accepted iff the dates of the requests before it alone say so |
| `Rates.TableRefinesStepFunction` | apps/api/src/billable-rates/billable-rates.controller.ts:126-172 | in every run, for every date, the lookup gives what the step function of the requests gives |
| `Rates.CoveredOnceIff` | packages/db/prisma/migrations/20260522000000_init/migration.sql:154-175 | in every run no date of a key has two rows iff the key has at most one request dated 9999-12-31 and that is not the first of several |
| `Rates.EndOfTimeTwice` | packages/db/prisma/migrations/20260522000000_init/migration.sql:172-175 | a first rate from 9999-12-31 and any other after it are both accepted and both cover that date |
| `Rates.RateOnIs` | packages/db/prisma/migrations/20260522000000_init/migration.sql:571-580 | where one row covers the date, it is the one in force, whatever the order |
| `Rates.BillableIs` | packages/db/prisma/migrations/20260522000000_init/migration.sql:582-603 | the rate billed is that of the task's winning row, without a valid one that of the project's row for no task, without either none |
| `Rates.BillableAfterCreate` | packages/db/prisma/migrations/20260522000000_init/migration.sql:582-603 | a new project default shows exactly where no task-specific rate is in force; a task-specific rate shows for its own key alone |
| `ScheduleGrid.EnumerateDates` | apps/api/src/schedules/schedules.controller.ts:66-74 | every date of the inclusive range once, in order |
| `ScheduleGrid.IsoWeekdayIs` | apps/api/src/schedules/schedules.controller.ts:77-80 | the weekday, 1..7, counts from the Monday of the date's week |
| `ScheduleGrid.HoursInRange` | apps/api/src/schedules/schedules.controller.ts:112-131 | hours lie in 0..24, are the rounded worked minutes, and leave out exactly a lunch inside the shift |
| `ScheduleGrid.OverrideReplacesTemplate` | apps/api/src/schedules/schedules.controller.ts:375-404 | under an override the block's times and hours are its own, lunch included, whatever the template, and none if it lacks a time |
| `ScheduleGrid.TemplateStands` | apps/api/src/schedules/schedules.controller.ts:356-382 | without one they are the template's, less its lunch; nine hours from eight if there is none |
| `ScheduleGrid.Index` | apps/api/src/schedules/schedules.controller.ts:331-343 | the loop splits the overrides by user and organisation, order kept |
| `ScheduleGrid.Dashboard` | apps/api/src/schedules/schedules.controller.ts:208-427 | refused iff the tab, the range or the requester is not admitted, in the order of the checks; otherwise a grid of right blocks only, in order, exactly one for each visible user and working day, each with the times and hours of what prevails that day |
| `ScheduleGrid.GridShowsVisible` | apps/api/src/schedules/schedules.controller.ts:237-271 | a grid shows only the requester and users they may see, unless an admin or finance manager asks for the company |
| `ScheduleGrid.OneBlockEach` | apps/api/src/schedules/schedules.controller.ts:356-418 | one block for each user and date of the range whose weekday is among the user's days, Monday to Friday without a template; none elsewhere, none repeated |
| `ScheduleGrid.GridShowsPrevailing` | apps/api/src/schedules/schedules.controller.ts:375-417 | each block shows the user's override, else the organisation's, else the template, judged on the stored overrides |
| `ScheduleGrid.GridIgnoresOverrideOrder` | packages/db/prisma/migrations/20260522000000_init/migration.sql:296-301 | while same-scope windows do not overlap, the order the overrides come back in does not matter |
| `ScheduleGrid.OverlapShowsOrder` | apps/api/src/schedules/schedules.controller.ts:383-385 | with overlapping windows it does |
| `WeeklyScheduler.NextDailyIsLeast` | packages/shared/src/tz/clock.ts:35-56 | a time of day that exists has a trigger, the least later instant that shows it, at most a day off; no other has |
| `WeeklyScheduler.NextWeekdayIsLeast` | packages/shared/src/tz/clock.ts:60-83 | the next weekday trigger is the least later instant that shows weekday and time; next - 7 days <= from < next |
| `WeeklyScheduler.RangeHoldsIff` | packages/shared/src/tz/clock.ts:88-105 | a week range holds its instant iff it starts on Monday or the instant is not on a Sunday |
| `WeeklyScheduler.DeliveryLog.Tick` | packages/jobs/src/jobs/weekly-summary-scheduler.ts:17-60 | the loop adds one row per recipient whose period has none, and counts them |
| `WeeklyScheduler.RowIsDue` | packages/jobs/src/jobs/weekly-summary-scheduler.ts:27-57 | the row of a recipient is queued and covers the seven days before the last Monday whose eighth hour has come on their clock |
| `WeeklyScheduler.TickContract` | packages/jobs/src/jobs/weekly-summary-scheduler.ts:17-60 | a tick adds only rows that are due for a recipient, each the first of its user and period, and afterwards every recipient has theirs |
| `WeeklyScheduler.LastMondayHasCome` | packages/jobs/src/jobs/weekly-summary-scheduler.ts:30-34 | the `hasn't arrived yet` branch is never taken |
| `WeeklyScheduler.PeriodIs` | packages/jobs/src/jobs/weekly-summary-scheduler.ts:33-37 | the period is the Monday-to-Sunday week before the current one by a clock set back eight hours, and is over |
| `WeeklyScheduler.PeriodsTile` | packages/jobs/src/jobs/weekly-summary-scheduler.ts:33-55 | within a week's time the period stays or moves to the one beginning where it ends |
| `WeeklyScheduler.OneSummaryPerPeriod` | packages/jobs/src/jobs/weekly-summary-scheduler.ts:38-57 | over any run of ticks, at most one summary per user and period, and one iff some tick fell due for it |
| `WeeklyScheduler.SummariesTile` | packages/jobs/src/jobs/weekly-summary-scheduler.ts:27-58 | under ticks no more than a week apart, a user's summaries are for consecutive weeks, none skipped or repeated |
| `SchedulerRaces.AloneIsTick` | packages/jobs/src/jobs/weekly-summary-scheduler.ts:17-60 | the reads and inserts of one handler, with nothing in between, are the tick |
| `SchedulerRaces.TwiceIff` | packages/jobs/src/jobs/weekly-summary-scheduler.ts:38-57 | over every interleaving of handlers, a user has two summaries of a period iff two handlers both read that there was none before either inserted one |
| `SchedulerRaces.MeetingRepeats` | packages/db/prisma/migrations/20260522000000_init/migration.sql:365-379 | two ticks that both read before either inserts queue the same summary twice |

## Left out

- Changing a user's time zone: it files entries under other weeks without recomputing them, so zones are fixed throughout.
- WeeklyScheduler.NextDailyIsLeast: zones of fixed offset; daylight-saving changes are not modelled.
- WeeklyScheduler.NextWeekdayIsLeast: zones of fixed offset, as above.
- WeeklyScheduler.RangeHoldsIff: zones of fixed offset, as above.
- WeeklyScheduler.LastMondayHasCome: zones of fixed offset; in a week that is an hour longer the branch can be taken, for that hour.
- WeeklyScheduler.PeriodIs: zones of fixed offset, as above.
- WeeklyScheduler.PeriodsTile: zones of fixed offset, as above.
- WeeklyScheduler.SummariesTile: zones of fixed offset, as above.
- WeeklyScheduler.DeliveryLog.Tick: only the rows' key, period and status are modelled; sending is not.
- TwoStage.FinalApprovalIsSomeoneElse: takes a batch as one step, which the handlers are not; `ApprovalRaces.FinalizesOwnIff` takes its statements apart.
- TwoStage.TwoStageSeparation: takes a batch as one step, likewise; `ApprovalRaces.TurnsSeparate` says what the statements need.
- AuditChain.AppendsPass: takes appends one at a time; `AuditRaces.PassesIffSerial` covers those that overlap, with ids in the order of the rows.
- AuditChain.AuditLog.Record: the folding of `metadata` into `after`, and the JSON text that is hashed, are one opaque content value; the id of a row is not hashed, as in the trigger.
- LockRaces.InterleavingsKeepBase: takes each request that recomputes as one event; `StaleCounts.FloorHoldsIff` and `DraftsHoldIff` take them apart, and neither half holds then without their conditions.
- LockRaces.EventBreaksExactIff: takes each request that recomputes as one event; `StaleCounts.ExactBreaksIff` takes them apart.
- Statements.TxAloneIsAtomic: what a submit or a week's unlock reads and writes up to its count is one step, and so is the lookup of an entry with its owner's zone and week; only the commit is apart from the count.
- Row locks are not modelled: a run may take events in orders that a lock held until a commit would delay, so what is proved of every run holds of those the database admits.
- Stamps.StampsOverRuns: assumes that the database clock does not run backwards, and takes requests one at a time; a recompute's INSERT that meets a row made since sets only its status, so stamps can lag behind it.
- Rates.TableRefinesStepFunction: where two rows of one key begin on 9999-12-31 the query may give either, and the model gives the last inserted; dates after it are not requested, the endpoints take four-digit years; currency and amount are carried but not interpreted.
- ScheduleGrid.Dashboard: what a requester may see arrives as a set, users in display-name order; dates that pass the pattern but name no day of the calendar are not modelled.
- The user interface, desktop and tray programs, event streams, mail, blobs, spreadsheets, language models and chat tools: calls into code that is not visible, or no hard property.
- Sign-in, sessions, throttling and role checks: the verdict on a project or user is a parameter where a handler branches on it.
- Foreign keys to users, projects and tasks, and request parsing: requests arrive well typed and name existing rows.
- Listing, queue and report endpoints, entryCounts' reply shape, the mail retry counter and the quote picker: reads with no effect, easy members.
- Audit writes made by the timesheet handlers: they run in their own transaction and do not touch these tables.
- Two request bodies hash alike iff they are equal: the body itself stands for its SHA-256 in the idempotency table.
- The time between a BEFORE INSERT trigger on time_entries and the commit is taken as one step.
- Ids are fresh but leave no gaps: a sequence that skips after a rollback is not modelled.
- The text of error messages, and mapPeriodLockDbError's parsing of them: each failure is one value of `Error`.
