# ScopeX control plane, verified

ScopeX runs investigations with an external agent.  Around the agent it owns what must not go
wrong: which task runs when, what survives a crash, when a schedule fires, which evidence backs a
claim, and how much of a model budget a turn may use.  This project models that control plane in
Dafny and proves what it keeps over whole runs and for all inputs.

| files | what they model |
|---|---|
| `Admission*.dfy`, `Lifecycle.dfy` | bounded execution slots, the waiting line, workers, cancel, delete, shutdown |
| `Journal*.dfy` | one assessment record kept in three places, saves that stop half way, restart |
| `Schedule*.dfy` | interval, daily and one-shot schedules, offline catch-up, firing |
| `DataPackage*.dfy` | budgeted copying, window merging, the hour-bucket image scan |
| `Transcript*.dfy`, `Observer.dfy` | last-wins transcript dictionaries, aggregation, exactly-once progress events |
| `Evidence*.dfy`, `Projector*.dfy`, `TraceProjection*.dfy` | evidence identity and replay, the bounded projection of command output, which calls of a growing trace are projected |
| `Proxy*.dfy` | model-request budget, request hook, stop and no-data answers under concurrent handlers |
| `Controller.dfy` | the lifecycle controller and its event log |
| `PagedRead*.dfy`, `CriticalEvidence*.dfy` | the paged-read checker and the critical evidence selection |

Code that updates fields is a class here, and each of its methods is proved equal to a step of a
specification; the theorems are about those specifications, over any sequence or interleaving of
steps.  Every section under a lock is one atomic step.  Clocks, thread-start failures, model and
agent behaviour, digests and timestamps read from text are parameters, so the theorems hold for
every choice of them.  `Sequences.dfy` holds shared facts about sequences.

`dafny verify dfyconfig.toml` checks the whole project.

## What does not hold in the code

Each of these is proved as stated: a concrete input on which the expected property fails, and the
exact condition under which it holds.

- Daily catch-up counts calendar dates.  Restarted before the planned time of day it records one
  miss too many, puts `last_missed_at` in the future and skips a firing that is still to come
  (`DailyCatchUpSkipsAFiring`, `DailyCatchUpAgreesIff`).
- When the shutdown event is set inside a `create_task` section, that section can still start its
  task, ahead of a waiting one if a failed start has left a slot idle (`RacedStartOvertakes`,
  `RacedStartOvertakesIff`).
- A label stored before revisions existed gets revision 1 on restart and wins the tie against a new
  record of revision 1 whose save stopped after its first write (`OldLabelWinsTie`,
  `SaveSurvivesCrashIff`).  The product reconciles when it starts (`scripts/runtime_api.py:202`), and a
  completed reconciliation leaves no such label (`ReconciledLosesNoSave`): the store arises only with
  `reconcile_interrupted=False`, or for a task whose reconciliation was skipped by an error.
- The truncation flag stored with projected command lines covers cut lines only; when the loop stops
  because a budget is used up exactly, nothing stored says that output was left out
  (`StoredFlagsCanMissTheStop`, `SilentlyIncompleteIff`).
- A command output line that starts with more blanks than a line may have characters, or than the
  character budget has left, is cut to blanks, which the catalog refuses (`IndentedLineIsRefused`,
  `BlankPieceIff`).  The projection raises, its call is never marked as processed, and no later call of
  the trace is ever projected (`StuckAtTheSameCall`).
- `cancel` can arrive after the streaming loop has tested for it and close the connection that the loop
  then reads as ended: the response of a stopped turn is recorded as complete
  (`StoppedResponseIsComplete`, `CompleteIff`).
- The controller accepts `start` for a paused task, after which stop, safe stop and resume events no
  longer rotate (`StartWhilePausedBreaksRotation`, `ControlsRotateIff`).
- The paged-read checker does not count a complete capped page when the source line after it equals
  the first line of the page's tail, for instance when both are blank, so a complete transcript can be
  refused (`BlankAtPageBoundaryIsRefused`, `PartitionVerifiedIff`).

## Model

| member | source | states |
|---|---|---|
| `AdmissionTheorems.EveryRunKeepsTheInvariant` | scopex/api/service.py:1130-1163 | After any run: active and queue within their limits, the queue without repeats and disjoint from the active set, waiting exactly when QUEUED, every unfinished task in exactly one of the two, at most one unfinished run per schedule and one unfinished or live run per agent |
| `AdmissionTheorems.StepKeepsInv` | scopex/api/service.py:186-243 | Each lock section, worker step and user action keeps that invariant, also when a worker thread cannot be started |
| `AdmissionTheorems.NoOvertaking` | scopex/api/service.py:186-243 | Over any run, whatever the interleaving, tasks start in creation order |
| `AdmissionTheorems.WaitersCameLater` | scopex/api/service.py:186-243 | Everyone still waiting was created after everyone who has started: at every point before shutdown, and at every point of a run in which the shutdown event is never set inside a `create_task` section |
| `AdmissionTheorems.RacedStartOvertakesIff` | scopex/api/service.py:188-243 | A `create_task` section during which the event is set skips its dispatch and may still start its task; that passes the waiting line if and only if there is one, which takes a slot left idle by a failed start |
| `AdmissionTheorems.CreateMeaning` | scopex/api/service.py:188-243 | What each answer of `create_task` means, in terms of the handles, the slots and the line after its dispatch: refused for its schedule exactly when an unfinished run has it, then for capacity exactly when both limits are reached, then for its agent exactly when an unfinished task or a live thread has it, then as malformed; otherwise it waits exactly when every slot is taken, and else starts or fails as its thread does; the new handle, the line and the slots after each |
| `AdmissionRace.RacedStartOvertakes` | scopex/api/service.py:188-243 | A run of six steps after which task 4 has started while task 3, created before it, still waits |
| `AdmissionTheorems.NothingLostOrDuplicated` | scopex/api/service.py:1116-1163 | Every created task has been launched, is waiting, or was dropped, and exactly one of these, once |
| `AdmissionTheorems.StartsAtOnceOnlyWhenNobodyWaits` | scopex/api/service.py:189-243 | A `create_task` during which the shutdown event is not set (the other case is `RacedStartOvertakesIff`) starts the new task at once only when the queue is empty |
| `AdmissionTheorems.DispatchOutcome` | scopex/api/service.py:1130-1143 | After a dispatch nobody overdue waits, the overdue were cancelled without a slot, and tasks wait only while every slot is taken |
| `AdmissionTheorems.DispatchMeaning` | scopex/api/service.py:1130-1143 | What a dispatch leaves: exactly the waiting tasks whose time is up are cancelled, the first k of the others, in order, have a slot and a working thread, a task whose start failed has failed without a slot and ends the dispatch, the rest waits; every other handle is as it was |
| `AdmissionTheorems.AdmitMeaning` | scopex/api/service.py:1139-1143 | The launch loop starts exactly a prefix of the queue, in order; if a start fails, the task that failed is dropped and the rest stays |
| `AdmissionTheorems.NoIdleSlot` | scopex/api/service.py:1090-1095 | While worker threads start, no run ever leaves a slot idle with a task waiting for it |
| `AdmissionTheorems.SlotFreedOnlyAfterCleanup` | scopex/api/service.py:1088-1095 | A slot is given back only by its worker after cleanup, or by shutdown, which cleans up as well |
| `AdmissionTheorems.ShutdownIsFinal` | scopex/api/service.py:812-845 | Once the event is set and every lock section that tested it before (a `create_task`, a tick or a worker release) has ended, in every run nobody is created or launched and no slot is taken |
| `AdmissionSteps.ProgressMeaning` | scopex/runtime/task.py:73-88 | A running worker moves its task along any edge of the table but back to the line or the start, and that is all that changes |
| `AdmissionSteps.StopMeaning` | scopex/api/service.py:275-281 | Exactly a running task is stopped, and only its state changes |
| `AdmissionSteps.ExitMeaning` | scopex/api/service.py:1092-1099 | The end of a thread is seen in its handle and nowhere else |
| `AdmissionSteps.BeginMeaning` | scopex/api/service.py:815 | Setting the shutdown event changes nothing else |
| `AdmissionSteps.RefusedSteps` | scopex/api/service.py:1156-1160 | A step that does not fit what it meets (a worker in another phase, a task that does not wait, a shutdown section before the event) does nothing |
| `AdmissionSteps.DoneMeaning` | scopex/api/service.py:1076-1091 | When its target ends, an unfinished task has failed if the target raised and keeps its state otherwise; an ended task is cleaned before the lock is taken; slot, line and every other handle stay |
| `AdmissionSteps.ReleaseMeaning` | scopex/api/service.py:1092-1095 | The last section of a worker: an ended task gives its slot back, a paused one keeps it, then a dispatch runs from exactly that state |
| `AdmissionSteps.CancelMeaning` | scopex/api/service.py:1156-1163 | Cancelling a waiting task takes it out of the line at its place; the order of the others, the slots and every other handle stay |
| `AdmissionSteps.DeleteMeaning` | scopex/api/service.py:393-402 | Exactly a task that has ended and has no live thread is deleted, and no other handle changes |
| `AdmissionSteps.ResumeMeaning` | scopex/api/service.py:292-301 | Exactly a paused task without a live thread is resumed; only its thread changes |
| `AdmissionSteps.DrainMeaning` | scopex/api/service.py:818-821 | Shutdown cancels exactly the waiting tasks and nobody else |
| `AdmissionSteps.SweepMeaning` | scopex/api/service.py:835-844 | The last section cancels, cleans and releases exactly the unfinished tasks without a thread whose coordinator was built |
| `AdmissionService.TaskService.LaunchLocked` | scopex/api/service.py:1116-1128 | The whole new state after a launch, and after a failed thread start |
| `AdmissionService.TaskService.ExpireLocked` | scopex/api/service.py:1133-1138 | Removing overdue tasks one by one while walking a snapshot of the queue equals removing exactly the overdue ones |
| `AdmissionService.TaskService.AdmitLocked` | scopex/api/service.py:1139-1143 | The launch loop takes the specified steps and keeps the invariant |
| `AdmissionService.TaskService.DispatchLocked` | scopex/api/service.py:1130-1143 | Expiry, then launches; nothing after shutdown has begun |
| `AdmissionService.TaskService.CreateTask` | scopex/api/service.py:186-243 | Both reads of the shutdown flag, which may differ; dispatch, then the busy tests, then register and wait or start; every refusal in the order of the code; what each answer means is `CreateMeaning` |
| `AdmissionService.TaskService.QueueWatchTick` | scopex/api/service.py:1145-1148 | A tick is a dispatch |
| `AdmissionService.TaskService.TargetDone` | scopex/api/service.py:1076-1091 | The end of the worker target: an exception fails the task, a finished task is cleaned up before the lock is taken |
| `AdmissionService.TaskService.Release` | scopex/api/service.py:1092-1095 | The final lock section gives the slot of a finished task back and dispatches |
| `AdmissionService.TaskService.CancelQueued` | scopex/api/service.py:1156-1163 | Only a queued task is cancelled; it leaves the line and keeps the order of the others |
| `AdmissionService.TaskService.DeleteTask` | scopex/api/service.py:393-402 | Only a finished task without a live thread is deleted, and then it is in no collection |
| `AdmissionService.TaskService.Resume` | scopex/api/service.py:292-301 | A resumed task holds the slot it kept while paused; no slot is taken |
| `AdmissionService.TaskService.Drain` | scopex/api/service.py:818-821 | Shutdown cancels everything that waits |
| `AdmissionService.TaskService.Sweep` | scopex/api/service.py:835-844 | Shutdown cancels, cleans and releases unfinished tasks whose worker has ended and whose coordinator was built; any other keeps its state and its slot |
| `JournalTheorems.ReconcileConverges` | scopex/api/service.py:654-702 | From any store a crash can leave, reconciling makes both copies the same finished record, no older than either, logged exactly once if required; a pending label becomes the next revision with its call total kept |
| `JournalTheorems.ReconcileIsIdempotent` | scopex/api/service.py:654-702 | A second reconciliation changes nothing |
| `JournalTheorems.RepairAgrees` | scopex/api/service.py:678-696 | The repair writes alone make both copies equal to the current record and log it at most once |
| `JournalTheorems.CurrentIsGreatest` | scopex/api/service.py:668-679 | The record chosen is one of the two readable or upgraded copies, with the greatest revision, task.json winning a tie, and there is one whenever a copy can be read or upgraded |
| `JournalTheorems.UpgradeMeaning` | scopex/api/service.py:664-677 | What the upgrade of a pending or unversioned label keeps and what it sets, field by field, and which labels are upgraded |
| `JournalRestart.InterruptedReconcileConverges` | scopex/api/service.py:654-702 | A reconciliation stopped after any number of its writes, from any store, still converges at the next one |
| `JournalRuns.EveryRunRecovers` | scopex/api/service.py:497-525 | After any history of partial saves, crashes and interrupted restarts a complete restart settles the task on the record of assessment.json, or on its expiry if that was pending |
| `JournalRuns.StepKeepsInv` | scopex/api/service.py:497-525 | Every partial save, publication, crash and interrupted restart keeps: file not older than task.json, totals covered, history strictly increasing |
| `JournalRuns.StepMeaning` | scopex/api/service.py:497-525 | What each step of a run does to each copy: the published label, a save cut after any write, a label kept in memory only, the crash that loses memory, a complete restart; a step that cannot take place does nothing |
| `JournalRuns.PublishMeaning` | scopex/runtime/investigation.py:325-342 | The label of a native answer, field by field, in each copy whose write succeeds; if the file could not be written the others ask for a review |
| `JournalRuns.RunInTurn` | scopex/api/service.py:497-525 | A run is its steps one after the other |
| `JournalRuns.SavedIsNewest` | scopex/assessment.py:103-119 | Every save stores a revision above both readable copies, a new identity, and a call total covering all earlier calls and its own |
| `JournalRuns.SavedMeaning` | scopex/assessment.py:103-119 | Every save stores the status, origin, text, calls and version it was given, field by field, under the new identity, with the next revision and the summed total, and asks for its history entry |
| `JournalRuns.HistoryRevisionsIncrease` | scopex/api/service.py:514-515 | In every run the revisions in the history strictly increase and no identity repeats |
| `JournalAccounts.TotalNeverFalls` | scopex/api/service.py:506-512 | The call total never falls, whatever fails and however often the service restarts |
| `JournalAccounts.ClassifierRunCountsOnce` | scopex/api/service.py:599-643 | A classifier run of m calls adds exactly m if any write of either save succeeds, never twice when the verdict reached the file before its save failed, and nothing only if neither save wrote at all |
| `JournalAccounts.ClassifierRunStores` | scopex/api/service.py:599-643 | What a classifier run leaves in each copy, for every cut of its two saves: the verdict with its status, text, origin and calls if it reached the file and no failure record followed, otherwise the failure record needing review |
| `JournalAccounts.SaveSurvivesCrash` | scopex/api/service.py:514-515 | Once the first write of a save is on disk, a restart finds exactly that record |
| `JournalAccounts.SaveSurvivesCrashIff` | scopex/api/service.py:668-679 | In any store this holds exactly unless task.json still carries a label without a revision and no copy has one |
| `JournalAccounts.TieGoesToOldLabel` | scopex/api/service.py:679 | In that case the restart takes the old label, whatever the new record says |
| `JournalAccounts.OldLabelWinsTie` | scopex/api/service.py:679 | A concrete store on which a saved abnormal verdict is replaced by an old normal label everywhere |
| `JournalAccounts.ReconciledLosesNoSave` | scopex/api/service.py:654-702 | A completed reconciliation leaves no upgradable label in either copy, so whatever is saved next and cut off after its first or second write is what the next restart finds |
| `JournalService.AssessmentFiles.SaveAssessmentLocked` | scopex/api/service.py:497-525 | The whole store after a save that stops after any number of writes, and field by field what the written copies hold |
| `JournalService.AssessmentFiles.RunClassifier` | scopex/api/service.py:599-643 | Pending label, verdict, failure record on a storage error; the call total grows by exactly the calls made; the verdict of the classifier is what is stored, in each copy as far as its writes got |
| `JournalService.AssessmentFiles.WriteRepairs` | scopex/api/service.py:681-696 | The repair writes, cut after any number of them |
| `JournalService.AssessmentFiles.ReconcileAssessment` | scopex/api/service.py:654-702 | The reconciliation of one task, cut after any number of writes |
| `ScheduleTheorems.IntervalCatchUp` | scopex/api/schedules.py:278-282 | Floor division counts exactly the passed grid points; last missed <= now < next run; the row is where iterating the rule would put it |
| `ScheduleTheorems.DailyCatchUpAgreesIff` | scopex/api/schedules.py:283-286 | The daily closed form equals the iterated rule if and only if the current time of day is not before the planned one |
| `ScheduleTheorems.DailyCatchUp` | scopex/api/schedules.py:283-286 | The new time is always after now; in the other case one miss too many is counted, the last miss lies in the future, and exactly one firing is skipped |
| `ScheduleTheorems.DailyCatchUpSkipsAFiring` | scopex/api/schedules.py:283-286 | Planned day 1 10:00, restarted day 2 09:00: two misses recorded, day 2 10:00 skipped |
| `ScheduleTheorems.OnceCatchUp` | scopex/api/schedules.py:273-277 | An overdue one-shot is counted once and never due again |
| `ScheduleTheorems.IterationInClosedForm` | scopex/api/schedules.py:342-353 | On a regular grid iterating the rule is one multiplication: misses, next and last passed time |
| `ScheduleTheorems.NextMeaning` | scopex/api/schedules.py:342-353 | The rules in microseconds: an interval of m minutes comes m * 60 seconds later, a daily rule at its time on the next day, a one-shot never |
| `ScheduleTheorems.FiresIff` | scopex/api/schedules.py:183-258 | A tick fires a row exactly when it is switched on and its planned time has come |
| `ScheduleTheorems.TriggeredMeaning` | scopex/api/schedules.py:196-258 | A trigger records when it ran, in whole seconds, and what came of it, leaves the miss counters alone, and moves the plan only when it was planned: a one-shot is then over, any other row goes on |
| `ScheduleTheorems.ReconciledMeaning` | scopex/api/schedules.py:260-303 | A restart leaves a row that is not overdue alone; an overdue one is marked as missed, keeps its last-run fields, and is planned ahead of the clock or, if a one-shot, over |
| `ScheduleTheorems.SwitchedMeaning` | scopex/api/schedules.py:132-147 | Switching off leaves nothing due, ever; switching on plans the next time of the rule, in whole seconds and still ahead; it is refused only for a one-shot that is over, and nothing else of the row changes |
| `ScheduleTheorems.SwitchedOffStaysQuiet` | scopex/api/schedules.py:132-194 | A row that is switched off fires in no run until it is switched on again |
| `ScheduleTheorems.FirstAfterIsFirst` | scopex/api/schedules.py:251-255 | The advance loop stops at the first grid point after the trigger: the point before it has passed, and the cadence is not shifted |
| `ScheduleTheorems.PlannedTimesFireInOrder` | scopex/api/schedules.py:180-258 | With a clock that does not run backwards, planned times fire in strictly increasing order through any mix of ticks, manual runs, switching and restarts; a one-shot fires at most once |
| `ScheduleTheorems.EventKeepsInv` | scopex/api/schedules.py:180-310 | Each tick, manual run, switch and restart keeps: fired times increase, lie in the past and precede the plan |
| `ScheduleTheorems.EventMeaning` | scopex/api/schedules.py:132-303 | What a tick, a manual run, a switch and a restart do to a row and to the last clock reading |
| `ScheduleTheorems.RunInTurn` | scopex/api/schedules.py:180-194 | A run is its events one after the other |
| `ScheduleTheorems.RunNowKeepsPlan` | scopex/api/schedules.py:168-174 | A manual run moves neither the plan nor the switch nor the miss counters |
| `Schedules.NextAdvances` | scopex/api/schedules.py:342-353 | Each application of the rule moves forward, an interval by at least one minute, a daily rule to its time of day within a day: the loop measure |
| `ScheduleService.ScheduleRows.Trigger` | scopex/api/schedules.py:196-258 | The row and the run log after one trigger, with the advance loop |
| `ScheduleService.ScheduleRows.CollectDue` | scopex/api/schedules.py:183-192 | The due list of a tick |
| `ScheduleService.DueListMeaning` | scopex/api/schedules.py:183-192 | The due list names each due schedule exactly once, with its planned time, in stored order, and no other |
| `ScheduleService.FiredRowsMeaning` | scopex/api/schedules.py:229-238 | The log of a tick has one entry per fired schedule, in the order of firing, with planned time, clock reading and answer |
| `ScheduleService.MissedRowsMeaning` | scopex/api/schedules.py:292-309 | The log of a restart has one entry per overdue schedule, in stored order, with the misses counted for it and the first and last missed time |
| `ScheduleService.ScheduleRows.Tick` | scopex/api/schedules.py:180-194 | Exactly the due rows are triggered, each once for its planned time; all others stay; the log gains one entry per trigger |
| `ScheduleService.ScheduleRows.FireDue` | scopex/api/schedules.py:193-194 | Triggering the collected list one by one gives every row its own outcome |
| `ScheduleService.ScheduleRows.RunNow` | scopex/api/schedules.py:168-174 | Unknown schedules are refused; otherwise only the last-run fields of that row change |
| `ScheduleService.ScheduleRows.SetEnabled` | scopex/api/schedules.py:132-147 | The switched row; an unknown schedule or an expired one-shot is refused and nothing changes |
| `ScheduleService.ScheduleRows.ReconcileOffline` | scopex/api/schedules.py:260-309 | Every overdue row is moved on, no row is due afterwards, the log grows by one entry per overdue row and by no task |
| `ScheduleService.MoveOn` | scopex/api/schedules.py:273-303 | The row afterwards is not due at the current time, stays valid, keeps its rule, and is where iterating the rule would put it except for the early daily restart; misses and the log entry agree with that |
| `DataPackageTheorems.AnySequenceKeepsTheBudget` | scopex/api/data_packages.py:191-256 | For any sequence of calls: bytes and files within their limits, manifest sizes sum to the total, archive names unique, sizes and digests describe the archive entry by entry |
| `DataPackageTheorems.WholeFileIsVerbatim` | scopex/api/data_packages.py:206-256 | A whole file enters the archive if and only if its name is new, the limits leave room, it is as long as announced and no read fault comes before its last block; then it is a verbatim copy, and the partial-log note is never made for it |
| `DataPackageTheorems.WindowedLogIsSelection` | scopex/api/data_packages.py:214-245 | A windowed log is the in-order selection of the blocks whose first 32 bytes carry a stamp t with start <= t < end for one of the windows; if the byte limit cuts it, it is the longest prefix that fits and the cut is noted |
| `DataPackageTheorems.WindowedLogIsComplete` | scopex/api/data_packages.py:214-245 | When nothing fails and the selection of the blocks stamped inside a window fits, all of it is stored |
| `DataPackageTheorems.BlocksAreLines` | scopex/api/data_packages.py:214-219 | Successive reads lose nothing, and are exactly the lines when no line exceeds the chunk size |
| `DataPackageTheorems.LineEndsAtNewline` | scopex/api/data_packages.py:215 | A line holds no newline before its end |
| `DataPackageTheorems.SilentIff` | scopex/api/data_packages.py:191-245 | A call leaves no trace if and only if the archive name is already written, or a windowed log was read to its end without one block stamped inside a window |
| `DataPackageTheorems.AddOutcome` | scopex/api/data_packages.py:191-256 | The refusals in their order, each noted under its own reason with nothing else changed; a shortened source, a read error or a partial log is noted only for one; otherwise the manifest row, the bytes, the totals and the notes of the new entry |
| `DataPackageTheorems.AddedInTurn` | scopex/api/data_packages.py:191-294 | A list of calls is its parts served in turn |
| `DataPackageTheorems.MergePreservesMeaning` | scopex/api/data_packages.py:288-293 | A stamp lies in a merged window if and only if it lies in a recorded one, inverted windows included; merged neighbours never touch |
| `DataPackageTheorems.MergedWindowsAreApart` | scopex/api/data_packages.py:288-293 | For windows that are not inverted any two merged windows are strictly apart and in order |
| `DataPackageTheorems.MergingKeepsThePackage` | scopex/api/data_packages.py:286-294 | Scanning a log with the merged windows gives the same package, notes included, as with the recorded ones |
| `DataPackageTheorems.HourScanIsFullScan` | scopex/api/data_packages.py:148-167 | If every image is filed under its own hour, the bucket scan finds exactly the images stamped in the window |
| `DataPackageService.PackageBuilder.AddFile` | scopex/api/data_packages.py:191-256 | The staging loop and what it leaves, for every read fault, short file, limit and mismatch; whole files cannot reach the partial-log branch |
| `DataPackageService.PackageBuilder.Store` | scopex/api/data_packages.py:243-256 | A new name with bytes that fit keeps both budgets and the agreement of manifest and archive; a written name has its row and its bytes last; a digest that differs is noted and the bytes are stored all the same |
| `DataPackageService.PackageBuilder.AddLogs` | scopex/api/data_packages.py:282-294 | The log part of a build, which scans with merged windows, gives the package the recorded windows would give |
| `DataPackageService.LogRequestsMeaning` | scopex/api/data_packages.py:282-294 | The logs are asked for one after the other, each as a whole file before its windows, as the modes say |
| `DataPackageService.MergeWindows` | scopex/api/data_packages.py:288-293 | The loop that rewrites the last merged window in place keeps the stamps covered |
| `DataPackageService.ScanWindow` | scopex/api/data_packages.py:148-167 | The cursor visits consecutive hours, each once, up to the end, and finds the bucket scan of the window |
| `DataPackageService.WindowImages` | scopex/api/data_packages.py:138-168 | Over all recorded windows, with images filed by hour, exactly the images stamped in some window |
| `TranscriptTheorems.AggregationIsParsing` | scopex/agent/trace.py:101-116 | Aggregating the requests of a turn equals parsing all their messages as one transcript |
| `TranscriptTheorems.ParsedMeaning` | scopex/agent/trace.py:62-98 | A parsed dictionary holds each written id once, in order of first occurrence, with the value written last |
| `TranscriptTheorems.ParseMeaning` | scopex/agent/trace.py:62-98 | Over the messages themselves: a parse holds an id exactly when some assistant message has a well-formed row with it, or some tool message answers it, and under it the last such row or message |
| `TranscriptTheorems.AggregateKnows` | scopex/agent/trace.py:101-116 | The aggregate knows exactly the ids of the well-formed calls and of the results in the requests that can be read |
| `TranscriptTheorems.FoldThenWrite` | scopex/agent/trace.py:111-115 | Writing a parsed dictionary into another gives what writing its updates directly gives |
| `Observer.ParseMessages` | scopex/agent/trace.py:62-98 | The nested loops over messages and rows, malformed ones skipped |
| `Observer.LoadAuditTrace` | scopex/agent/trace.py:101-116 | The loop over recorded requests, unreadable ones skipped, equals one parse of everything |
| `Observer.EveryCallShownOnce` | scopex/events/observer.py:83-116 | From any starting state and over any sequence of requests, each call id gets exactly one call or progress event if it occurs and was not seen before, and none otherwise |
| `Observer.ResultShownAtMostOnce` | scopex/events/observer.py:118-133 | From any starting state, each result id gets at most one result event: exactly when it was not seen before and the request where it first appears holds no progress-card call of that id |
| `Observer.EventsAreRight` | scopex/events/observer.py:83-133 | Over any run every event added shows what one of the requests holds: a call as progress exactly if it is one to the progress card, a result with its text and the call it answers, never the result of a progress card |
| `Observer.ObserveCounts` | scopex/events/observer.py:83-133 | What one request adds to the counts and to the seen sets |
| `Observer.AgentProgressObserver.ObserveRequest` | scopex/events/observer.py:83-133 | The events of one request in order, and the new seen sets |
| `Observer.AgentProgressObserver.Seed` | scopex/events/observer.py:79-81 | After seeding, no sequence of requests ever emits an event for a seeded call or result id, and the seeding itself emits none |
| `EvidenceTheorems.RunKeepsInv` | scopex/evidence/catalog.py:63-94 | Over any run of adds the references are 1..n in order, keys are distinct, and no item is moved or changed |
| `EvidenceTheorems.ReAddIsNoOp` | scopex/evidence/catalog.py:76-79 | Adding what is there changes nothing and answers the item already there |
| `EvidenceTheorems.SameRefIffSameKey` | scopex/evidence/catalog.py:51-94 | Two adds, with any others between them, answer the same reference if and only if their keys agree, that is, for the same source, if they are the same image by digest, or else the same raw text at the same positive line number or both without one |
| `EvidenceTheorems.CatalogIsComplete` | scopex/evidence/catalog.py:63-94 | Over any run the catalog holds exactly the keys it held and those of the rows whose source and raw text are not blank |
| `EvidenceTheorems.SpaceMeaning` | scopex/evidence/catalog.py:72-75 | The code points that count as blank when a source or a raw text is tested |
| `EvidenceTheorems.SnapshotReplays` | scripts/replay_text_report.py:53-56 | The snapshot of any catalog loads again with every reference and row unchanged |
| `EvidenceTheorems.ReplayIsExact` | scopex/storage/runtime_audit.py:140-152 | A load that succeeds has one item per reference 1..n: the first saved row under a reference is stored itself, unchanged, every later one has the same key, and nothing else is stored |
| `EvidenceTheorems.LoadedRefsIdentifyKeys` | scopex/storage/runtime_audit.py:140-152 | A list loads only if its references tell its rows apart exactly as their keys do |
| `EvidenceService.EvidenceCatalog.Add` | scopex/evidence/catalog.py:63-94 | Both dictionary indexes keep agreeing with a linear search; blank text is refused and changes nothing |
| `EvidenceService.EvidenceCatalog.Get` | scopex/evidence/catalog.py:96-100 | Finds exactly the item with the reference, or none |
| `EvidenceService.EvidenceCatalog.Load` | scripts/replay_text_report.py:53-56 | The loading loop: succeeds exactly when every row is accepted under its own reference |
| `Projector.ProjectionMeaning` | scopex/evidence/projector.py:265-306 | Pieces are starts of their own lines in order, within the line and character budgets; the loop stops only at a used-up budget; a flag covers the cuts so far |
| `Projector.ContentMeaning` | scopex/evidence/projector.py:269-271 | Projected line numbers strictly increase and no line is blank or a control line |
| `Projector.ContentMissesNothing` | scopex/evidence/projector.py:269-271 | Every line that is neither blank nor a control line is offered to the loop |
| `Projector.NotTruncatedIffComplete` | scopex/evidence/projector.py:268-285 | The loop flag stays false if and only if every content line is projected verbatim |
| `Projector.StoredFlagsSeeOnlyCuts` | scopex/evidence/projector.py:286-305 | Some piece carries the stored flag if and only if some line was cut |
| `Projector.SilentlyIncompleteIff` | scopex/evidence/projector.py:272-305 | Output is left out with no stored flag if and only if leading lines fit uncut and use up a budget exactly while content follows |
| `Projector.StoredFlagsCanMissTheStop` | scopex/evidence/projector.py:272-274 | Two short lines under a one-line limit: one unflagged piece, output incomplete |
| `Projector.BlankPieceIff` | scopex/evidence/projector.py:272-287 | Some piece is blank, which the catalog refuses, if and only if some content line is reached while both budgets have room and its first min(line limit, remaining) characters are all blank |
| `Projector.IndentedLineIsRefused` | scopex/evidence/projector.py:281-282 | A line that starts with two blanks, under a limit of two characters |
| `ProjectorService.Projecting.ProjectLines` | scopex/evidence/projector.py:265-306 | The loop files exactly the projected pieces, each with its line number and both truncation flags, up to the first whose cut text is blank; it raises exactly if some line is reached whose cut leaves only blanks; the second capacity test is never taken |
| `ProjectorService.EveryPieceGetsItsOwnRef` | scopex/evidence/projector.py:286-305 | The pieces of a call not yet in the catalog are never merged: each becomes an item with its own consecutive reference |
| `ProjectorService.FiledFlagsSilentIff` | scopex/evidence/projector.py:286-305 | In the catalog itself, output is left out while no filed item carries `result_projection_truncated` if and only if leading lines use up a budget uncut and content follows |
| `TraceProjection.EachCallProjectedOnce` | scopex/evidence/projector.py:157-171 | Over any sequence of traces each call is projected to its end at most once; if no projection raises, exactly those calls are that some trace shows together with their result |
| `TraceProjection.RaisesIff` | scopex/evidence/projector.py:157-171 | Processing a trace raises if and only if some call in it has a result, was not processed before, and raises by itself: a cut of its lines leaves only blanks, one of its rows has no text, or it fails after its rows |
| `TraceProjection.AttemptMeaning` | scopex/evidence/projector.py:173-263 | A projection ends without an exception exactly if no cut leaves only blanks, no row lacks text and it does not fail; of the rows of a read, of images or of a result those before the first refused one are filed |
| `TraceProjection.StuckAtTheSameCall` | scopex/evidence/projector.py:160-170 | A call whose projection raises is never marked as processed: however the trace grows and however often it is processed, each attempt raises and no call after it is ever projected to its end |
| `TraceProjection.ProcessedAgain` | scopex/evidence/projector.py:157-171 | Processing a trace a second time, whether it raised or not, ends the same way and changes nothing, catalog included |
| `TraceProjection.FirstTimeFilesEveryPiece` | scopex/evidence/projector.py:157-171 | After any sequence of traces, the first time a command is come to, its pieces become items of their own with consecutive references; all of them if no line is cut to blanks |
| `TraceProjectionService.TraceProjector.ProcessTrace` | scopex/evidence/projector.py:157-171 | The loop over the calls takes the specified steps; if a projection raises, what it filed stays and the call is not marked |
| `TraceProjectionService.TraceProjector.VisitCall` | scopex/evidence/projector.py:160-170 | One call: skipped, projected by its tool, marked only when the projection ended |
| `ProxyTheorems.EveryRunKeepsTheBudget` | scopex/agent/model_proxy.py:222-241 | In every interleaving at most `max_requests` records, numbered 1..n; a forwarded request passed the hook and was registered; one stopped or answered locally was not forwarded |
| `ProxyTheorems.StepKeepsInv` | scopex/agent/model_proxy.py:201-356 | Each step of each handler keeps that, and the connection set holds exactly the registered, undiscarded connections |
| `ProxyTheorems.StoppingForwardsNothingNew` | scopex/agent/model_proxy.py:154-160 | After `cancel` nothing is accepted and a request not registered before is never forwarded |
| `ProxyTheorems.EndedIsNeverForwarded` | scopex/agent/model_proxy.py:322-350 | A request refused by the hook, or ended for any reason, keeps its outcome and is never forwarded afterwards |
| `ProxyTheorems.NoDataLetsNothingThrough` | scopex/agent/proxy_control.py:37-75 | The no-data answer is sticky: whatever is forwarded later had passed the hook before |
| `ProxyTheorems.FindingStopsItsRequest` | scopex/agent/proxy_control.py:37-76 | Over any run: if the scan of a request that began with nothing known finds something, an answer is known from there on and that request is never forwarded |
| `ProxyTheorems.RequestedStopIsHonoured` | scopex/runtime/stop.py:27-42 | Over any run: once a stop is requested, or a boundary reached, every valid request that comes to the gate ends there as a safe stop and is never forwarded |
| `ProxyTheorems.GateMeaning` | scopex/agent/proxy_control.py:31-36 | An invalid request is refused; a valid one is stopped exactly if a stop is requested or was reached, and the first one stopped is the boundary |
| `ProxyTheorems.HookMeaning` | scopex/agent/proxy_control.py:37-76 | A finding becomes the known answer exactly if nothing was known when its scan began; a known answer ends the request locally, and otherwise it passes |
| `ProxyTheorems.ReserveMeaning` | scopex/agent/model_proxy.py:222-241 | Which refusal comes when and what it stores, and the new record otherwise |
| `ProxyTheorems.HandlerMeaning` | scopex/agent/model_proxy.py:242-297 | The second look at the deadline refuses a late request and sets a missing reason; a stopping proxy registers nobody; otherwise the handler goes on |
| `ProxyTheorems.EndMeaning` | scopex/agent/model_proxy.py:298-356 | How a response ends, and that only a deadline met while streaming sets the reason; what is saved of a record |
| `ProxyTheorems.SafeStopLetsNothingThrough` | scopex/runtime/stop.py:35-42 | The first boundary stays, and whatever is forwarded later was past the gate before |
| `ProxyTheorems.ReasonIsWrittenOnce` | scopex/agent/model_proxy.py:225-232 | The limit reason is write-once, each stored copy equals it, and the request-budget reason means that the budget is used up |
| `ProxyTheorems.StepIsLater` | scopex/agent/model_proxy.py:201-356 | What a single step never takes back: flags, outcomes, saved reasons, boundaries |
| `ProxyTheorems.StreamKeepsInv` | scopex/agent/model_proxy.py:277-297 | A whole response stream, with any steps of other handlers before and between its tests and while it waits for each read, keeps the invariant and takes nothing back |
| `ProxyTheorems.CompleteIff` | scopex/agent/model_proxy.py:276-298 | A response is recorded as complete if and only if some round reads the end of the data and no stop came before the stop test of that round; it is complete while the proxy is stopping if and only if a stop came after that test |
| `ProxyTheorems.StoppedResponseIsComplete` | scopex/agent/model_proxy.py:154-166 | A run in which the turn is cancelled while the handler waits for the upstream, after which the response is recorded as complete |
| `ProxyTheorems.StopEndsTheStream` | scopex/agent/model_proxy.py:277-281 | If the proxy is stopping when the loop comes to its next read, the response ends as a proxy error, whatever would still arrive |
| `ProxyService.ModelProxy.ReserveRecord` | scopex/agent/model_proxy.py:222-241 | Refuse for stop, deadline or budget, in this order, or append the next index; earlier records stay |
| `ProxyService.ModelProxy.HookGate` | scopex/agent/proxy_control.py:31-36 | Opens if and only if the request is valid and no stop is requested or reached; the boundary is set exactly when a requested stop meets a valid request, and kept from then on |
| `ProxyService.ModelProxy.HookScanEnd` | scopex/agent/proxy_control.py:37-68 | The finding of the scan is kept if nothing was known when the scan began, and exactly then the known answer changes |
| `ProxyService.ModelProxy.RequestSafeStop` | scopex/runtime/stop.py:27-33 | A stop is requested unless a boundary was reached before |
| `ProxyService.ModelProxy.HookDecide` | scopex/agent/proxy_control.py:69-76 | Returns exactly when no no-data answer is known |
| `ProxyService.ModelProxy.RecheckDeadline` | scopex/agent/model_proxy.py:248-253 | A late request is refused and sets the reason if there is none |
| `ProxyService.ModelProxy.RegisterConnection` | scopex/agent/model_proxy.py:255-258 | Registers exactly when the proxy is not stopping |
| `ProxyService.ModelProxy.MarkForwarded` | scopex/agent/model_proxy.py:263 | The record says forwarded only for a request that passed the hook and whose connection is registered |
| `ProxyService.ModelProxy.StreamResponse` | scopex/agent/model_proxy.py:277-297 | The streaming loop, with other handlers running around its tests and during its reads: more bytes than the audit limit end it as a policy refusal, a stop seen at a test, the deadline or an error as a proxy error; when it is complete, and when it is so in spite of a stop, exactly; a deadline sets the reason if there is none |
| `ProxyService.ModelProxy.DiscardConnection` | scopex/agent/model_proxy.py:351-356 | Afterwards the connection is not registered |
| `ProxyService.ModelProxy.PersistRecord` | scopex/agent/model_proxy.py:201-209 | However often it is called, only the first call saves |
| `ProxyService.ModelProxy.CancelTurn` | scopex/agent/model_proxy.py:154-160 | Stops the proxy and returns exactly the connections still registered |
| `Controller.LogReplaysToState` | scopex/runtime/controller.py:33-130 | After any calls the emitted events alone, folded from the start, give the current state and the session turns |
| `Controller.OneTerminalEvent` | scopex/runtime/controller.py:111-130 | At most one terminal event is ever emitted, exactly when the task has ended |
| `Controller.NothingAfterTheEnd` | scopex/runtime/controller.py:33-130 | After the end state and turns never change and only TASK_CREATED can still be logged |
| `Controller.ControlsRotateIff` | scopex/runtime/controller.py:54-91 | USER_STOP, SAFE_STOP, USER_RESUME rotate strictly if and only if no task started while paused is stopped again before it is resumed |
| `Controller.ControlsRotate` | scopex/runtime/controller.py:54-91 | They rotate in every run that never starts a paused task |
| `Controller.StartWhilePausedBreaksRotation` | scopex/runtime/controller.py:37-40 | A run of five accepted calls after which they do not |
| `Controller.LateCallbacksChangeNothing` | scopex/runtime/controller.py:68-78 | A run ends exactly as it does without the late and repeated `safe_stop_if_pausing` calls, and every call that is not late has logged its own safe stop |
| `Lifecycle.TableMeaning` | scopex/runtime/task.py:36-52 | The transition table as an explicit set of moves; exactly three states allow none |
| `Controller.TaskController.Transition` | scopex/runtime/task.py:73-88 | Moves exactly along the table; staying is silent; anything else raises and changes nothing |
| `Controller.TaskController.StartTask` | scopex/runtime/controller.py:37-40 | Accepted exactly from the states that may run; then RUNNING with its event, otherwise nothing |
| `Controller.TaskController.SteerTask` | scopex/runtime/controller.py:42-52 | Accepted exactly in RUNNING or PAUSED; appends a turn and its event |
| `Controller.TaskController.RequestStopTask` | scopex/runtime/controller.py:54-60 | Accepted exactly in RUNNING; appends a turn, pauses, logs |
| `Controller.TaskController.SafeStopIfPausingTask` | scopex/runtime/controller.py:68-78 | True exactly for the callback that pauses the task |
| `Controller.TaskController.ResumeTask` | scopex/runtime/controller.py:80-91 | Accepted exactly in PAUSED; appends a turn, runs, logs |
| `Controller.TaskController.BeginFinalizationOfTask` | scopex/runtime/controller.py:93-103 | Accepted exactly in RUNNING; two events around the move; like every method it keeps `Valid`: the log so far replays to the state and the turns |
| `Controller.TaskController.FinalizationCompletedOfTask` | scopex/runtime/controller.py:105-109 | Accepted exactly in FINALIZING; logs and moves nothing |
| `Controller.TaskController.CompleteTask` | scopex/runtime/controller.py:111-116 | Accepted exactly in RUNNING or FINALIZING |
| `Controller.TaskController.FailTask` | scopex/runtime/controller.py:118-123 | An unfinished task ends FAILED with the terminal event; a finished one is untouched |
| `Controller.TaskController.CancelTask` | scopex/runtime/controller.py:125-130 | An unfinished task ends CANCELLED with the terminal event; a finished one is untouched |
| `PagedReadTheorems.VerifiedReturnsEveryLine` | scripts/poc02_run.py:372-427 | A verified transcript returned every source line verbatim at its own position by a linked read, and no other reply to that read differs |
| `PagedReadTheorems.VerifiedIff` | scripts/poc02_run.py:422 | The verdict, which compares two counts, says that there is no conflict and every line is covered by some page |
| `PagedReadTheorems.VerdictIff` | scripts/poc02_run.py:372-427 | The verdict over the transcript itself: given if and only if the source is not empty, no id is used for two different calls or answered by two different replies, and every line lies on the page of some call and its reply |
| `PagedReadTheorems.ConflictMeaning` | scripts/poc02_run.py:380-394 | No conflict is counted if and only if no id is used for two different things, and then the dictionaries hold exactly the calls and replies of the transcript |
| `PagedReadTheorems.RefusedIff` | scripts/poc02_run.py:380-394 | A transcript raises exactly when it holds something that is no message or no call |
| `PagedReadTheorems.TailMeaning` | scripts/poc02_run.py:408-421 | The tail of a page is accepted if and only if it is all white space, or one footer naming the next line with white space around it |
| `PagedReadTheorems.SeenIsFromTranscript` | scripts/poc02_run.py:380-394 | The dictionaries hold only what was in the transcript, and without conflicts all replies |
| `PagedReadComplete.PageCounts` | scripts/poc02_run.py:396-421 | How many lines every well-formed page counts for, capped or last: all of them, none, or its tail as well |
| `PagedReadComplete.CompleteTranscriptIsVerified` | scripts/poc02_run.py:372-427 | Without conflicts, if every source line lies on a last page, or on a capped page after which the source goes on differently from the tail, the verdict is given |
| `PagedReadComplete.PagesVerifiedIff` | scripts/poc02_run.py:372-427 | For any transcript of well-formed pages the verdict is given if and only if there is no conflict and the counts of its pages reach every line |
| `PagedReadComplete.PartitionVerifiedIff` | scripts/poc02_run.py:372-427 | When the pages cut the source into parts and no tail runs on into it, the verdict is given if and only if there is no conflict and after every capped page the source goes on differently from the tail |
| `PagedReadComplete.CappedPageCountsIff` | scripts/poc02_run.py:408-421 | A capped page of k lines counts for exactly k if and only if the source line after it differs from the first line of its tail |
| `PagedReadComplete.BlankAtPageBoundaryIsRefused` | scripts/poc02_run.py:408-421 | A concrete transcript that returns every line, without a conflict, and is not verified |
| `PagedReadService.ReadTranscript` | scripts/poc02_run.py:380-394 | Filling the two dictionaries and counting conflicts; a malformed message raises |
| `PagedReadService.ReadPage` | scripts/poc02_run.py:401-421 | The counting loop and the tail test of one read |
| `PagedReadService.ReadCoverage` | scripts/poc02_run.py:372-427 | The verdict, and that it is given only when every line was returned |
| `CriticalEvidenceTheorems.CriticalMeaning` | scripts/poc03_finalize.py:143-171 | The focus is the observed line naming it with the greatest score, the first of them; the trigger the nearest observed negative line before, the recovery the first after it, of the same operation if there is one |
| `CriticalEvidenceTheorems.CatalogMeaning` | scripts/poc03_finalize.py:174-215 | min(max, observed) rows, numbered, in source order, all observed; every critical line is there under its reasons; a row chosen by score has a score at least that of every line passed over, and comes first on a tie |
| `CriticalEvidenceTheorems.BuildRefusedIff` | scripts/poc03_finalize.py:177-182 | Raises exactly for a limit outside 4..40 or when no source line was observed |
| `CriticalEvidenceTheorems.RankedMeaning` | scripts/poc03_finalize.py:193-198 | The ranking holds every observed line once, by score from high to low and by position among equals |
| `CriticalEvidenceTheorems.ScoreMeaning` | scripts/poc03_finalize.py:107-124 | The score is the sum of the marker weights and of max(0, 48 - 4 d), where d is the least distance to an anchor line, attained by one anchor and exceeded by none |
| `CriticalEvidenceTheorems.ExpansionKeepsCritical` | scripts/poc03_finalize.py:319-342 | Whatever the model answered, the expansion starts with the critical rows, keeps each, repeats none and has at most four entries |
| `CriticalEvidenceTheorems.CriticalReachesTheAnswer` | scripts/poc03_finalize.py:174-342 | From source to answer: each critical line is in the final evidence |
| `CriticalEvidenceTheorems.AnswerMeaning` | scripts/poc03_finalize.py:319-342 | The final evidence: the trigger, failure and recovery slots that there are, in this order and in these roles, then the first pick of the model that names a row of another line, and nothing else |
| `CriticalEvidenceTheorems.BestMeaning` | scripts/poc03_finalize.py:127-130 | The best line has the greatest score of all, and is the first with it |
| `CriticalEvidenceService.BuildCatalog` | scripts/poc03_finalize.py:174-215 | The filling loop stops at the limit and loses no critical line |
| `CriticalEvidenceService.ExpandCompact` | scripts/poc03_finalize.py:319-342 | The two loops over slots and picks; at most four entries, none repeated |

## Left out

- Agent, model, containers, HTTP, SSE, sockets and threads as operating-system objects: replaced by steps and parameters.
- Storage: each JSON write is atomic and each append durable; a file that exists but cannot be read, and storage errors while a task is admitted or cleaned up, are not modelled.
- `create_task` payload checks (session key, metadata) are one flag of the request; identifiers generated by the service are new.
- The joins of `shutdown` between its two lock sections are not modelled.
- `active` and `queue` limits: the ranges 1..4 and 0..64 the constructor enforces are not needed by any theorem.
- `request_assessment` before the classifier starts (reuse of a saved label, request checks), `task_summary`, `parse_footer` and `from_native`: one-branch decisions.
- `_drive_after_turn`, convergence, finalization and report validation.
- Schedules: wall-clock time is a whole number of microseconds with 24-hour days, so no daylight-saving change; malformed stored times, `create`, `delete` and the file format are left out.
- A tick collects and triggers without another thread in between, so a row disabled or deleted between the two is not modelled; neither is an error of `create_task` other than busy, after which the row is not advanced.
- Data packages: paths, digests and the timestamp pattern are parameters; ZIP, symbolic links, the per-task busy guard, a full destination disk (which aborts the build) and which files a request names are left out.
- DataPackageTheorems.HourScanIsFullScan: an hour directory is its list of entries; linked directories count as absent.
- Transcripts: JSON and argument parsing are done before the model; a message is what the parser tests of it.  Event previews and targets are the call and the content themselves.
- The projection of `read` results, of images and of structured JSON results: which rows a call gives is a parameter, and an image file does not change between two attempts.
- TraceProjection.FirstTimeFilesEveryPiece: no read, image or structured result names a source spelled like the `exec:<id>` of a command; a source with that spelling could share its items.
- Evidence events of the collector, and `observed_at`, which only records a clock.
- Proxy: request parsing and response contents are outcomes; writing audit files can only fail a handler, and `PersistRecord` does not fail.  The gate is reset only between turns, each of which has its own proxy.
- `continue_pending_steering` and the coordinator around the controller.
- Paged read: `splitlines`, the footer pattern and the argument parsing are parameters; equal calls and replies are equal values.
- Critical evidence: substring tests on lines are given as flags; prompts and the checks of `validate_compact` are left out.
