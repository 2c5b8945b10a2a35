# Chimpbase, verified

Chimpbase runs queue jobs, cron schedules, workflows and subscriptions as rows of one database, driven by
one engine class. This project models that engine, its adapters' table semantics, and the parts of the
runtime package that compare workflow contracts, validate values and resolve plugins, and proves what they
keep over all inputs and over all runs. `dafny verify dfyconfig.toml` checks it.

| module | models |
|---|---|
| Calendar, CronExpression, CronSearch | day-number arithmetic, the expression parser with its cache, the next-fire search and the execution window |
| CronRule | what an expression means: which numbers a field lists and which instants of the calendar a schedule fires at |
| CronStore, CronProtocol, CronExamples | the schedules table and the engine's cron step; any number of workers, lease expiries, crashes and re-syncs; two runs worked out |
| WorkflowModel, WorkflowEngine | workflows in steps mode: one turn, a bounded run, one job in its transaction; the engine object that does this in place |
| WorkflowSignals, WorkflowRefinement, WorkflowRuns, WorkflowProtocol | signals as streams, the one-pass execution that every row is a resting point of, and the whole system of workers |
| WorkflowTiming | what a step does, until when a resting workflow rests, and what its wake-up time is, of every run and every reachable state |
| Transactions, Subscriptions | the depth counter, event buffering, commit and roll-back; idempotent delivery |
| Validators, ValidatorRules, SchemaCompatibility, Contracts | the validators of `v`, what they accept and return, their schemas, and the compatibility verdict |
| QueueTable, QueueProtocol | single and batch claims, retries, the dead-letter queue |
| Plugins, PluginScan, PluginSources | the name scan, the expansion of plugins into registrations, and how what is emitted stands in the sources |
| Drain | running cron schedules and queue jobs in turn until idle or a limit |
| Pagination, GroupedPagination | blob listing, page by page, without and with a delimiter |
| Json, Names, Wrappers | values, the order of text columns, options |

How the model reads the system:

- One queue job is one root transaction, so each run of a workflow, each cron commit and each delivery is
  one atomic step on the tables, and so is a start or signal made inside a transaction. A lifecycle hook has
  none: there each statement of a start or signal is a step of its own, and can be the last.
- Methods of a class are the code on mutable state; each is tied to a function of the tables. What those functions
  do is said a second time without them, by the lemmas named `...Exactly` and by CronRule, WorkflowTiming,
  ValidatorRules and PluginSources; the other lemmas are about runs made of them.
- Lease tokens and ids are fresh numbers. The clock is a sequence of readings; where an order of readings
  matters it is required to be monotone. Callbacks, actions and validators are pure functions that may throw.
- Storage and event bus fail as an oracle tells, commit and fan-out separately.
- A lease hypothesis is used for the queue alone: its updates go by job id, without a token. Cron and
  workflow results need none.

What the code does that its documentation or its shape might not suggest:

- `docs/cron.md` says that after an outage from 10:05 to 10:25 a quarter-hourly schedule fires once, at 10:30.
  The window loop fires the missed 10:15 slot at 10:25 and then the 10:30 one (`OutageFiresTheMissedSlot`);
  the model follows the code.
- The status `failed` that a throwing steps-mode run writes is rolled back with the job's transaction. No
  committed row is ever failed (`CommittedRows`), and `onTimeout: "fail"` only makes the job be retried.
- From 1024 immediate steps on, a workflow never completes: every run is cut off and rolled back (`LimitExact`,
  `LongOnesNeverMove`).
- A start hook that is stopped between the two statements of `startWorkflow` leaves a running workflow that no
  job will ever run, and whose id is taken (`CutStartStrands`); a signal stopped likewise leaves its workflow
  waiting beside it (`CutSignalStrands`). `NoLostWakeup` and `CutExactly` say exactly when.
- A fan-out that fails after the commit reports an error for work that was committed (`RootCallOutcome`).
- A re-sync that writes a fire time computed from an old clock reading can make fire times go back
  (`StaleSyncGoesBack`). No slot is ever enqueued twice even so (`EachSlotAtMostOnce`). Fire times increase if
  what a re-sync writes is later than the schedule's recorded runs (`FireTimesIncrease`); at the next fire the
  order is kept exactly if the slot then due is newer than those, or recorded (`ResyncThenFire`). A write that
  is not late enough does no harm when a newer slot is due by the time the schedule is next claimed.
- Widening an enum is breaking (`WiderEnumIsBreaking`), and a value parsed twice by a union may lose fields
  (`ReparseMayDropFields`); `ReparseUnchangedExactly` says exactly when it does not.
- An additive change can reject an input that was accepted before (`RawInputsExactly`).
- A failure is reported in two statements outside any transaction (`CrashSendsTwoEnvelopes`), so a job can have
  a second envelope, exactly as `OneEnvelopeExactly` says.
- The deletion of an unregistered schedule goes by name, whoever holds its lease by then (`DeletionTakesLease`).
- A job that throws leaves the rest of its claimed batch to run out of its leases, at the cost of an attempt
  each (`AbandonedCostsAnAttempt`).
- A second subscriber of the same name on one event shares the first one's marker, so only one of the two is
  run (`SameNameIsSkipped`).
- A step that meets a schedule no longer registered deletes it and reports nothing run, though another may be
  due (`NothingRunThoughDue`).
- A job that throws ends a whole drain, not only its own turn.
- Listing with a delimiter can lose a key (`DelimiterMayLoseKeys`), exactly as `PageLosesExactly` says, and can
  list one twice, exactly as `ListedTwiceExactly` says.

## Model

| member | source | states |
|---|---|---|
| Calendar.DayFromYearFormula | packages/core/cron.ts:45-46 | Counting year lengths from 1970 gives the closed day-number formula of section 21.4.1.3 of ECMA-262, on which `Date.UTC` rests |
| Calendar.CivilOfMakeDay | packages/core/cron.ts:45-46 | A calendar date has one day number and a day number one date, with month and date overflow carried over; the two conversions are inverse for every date |
| Calendar.LastDayOfMonth | packages/core/cron.ts:41-42 | Day 0 of the next month is the last day of this one, so the day loop visits exactly the dates of the month, February 29 included |
| Calendar.WeekdayInMonth | packages/core/cron.ts:218-235 | Every month contains each weekday, so a restricted weekday always has a date |
| Calendar.LeapYearAmongEight | packages/core/cron.ts:2 | Any eight consecutive years contain a leap year, even around a century that is not one: what the lookahead constant relies on |
| CronExpression.ParseCronField | packages/core/cron.ts:98-146 | The parser fails exactly on an illegal token; otherwise the field is what its text denotes: the values reachable by some token's start, end and stride, ascending, 7 folded to 0, with the wildcard flag |
| CronExpression.AddToken | packages/core/cron.ts:116-136 | The stepping loop of one token adds precisely the values its base, range and step select |
| CronExpression.VisitedAll | packages/core/cron.ts:128-135 | When the stepping loop stops it has visited every selected value and nothing else |
| CronExpression.DenotesUnique | packages/core/cron.ts:98-146 | A field text has one meaning: any two fields it denotes are equal, so a cached result is as good as a parsed one |
| CronExpression.CronParser.ParseCronExpression | packages/core/cron.ts:71-96 | With or without a cache hit, the result is the schedule the five fields denote, or an error exactly for an illegal expression; the cache stays right |
| CronRule.SelectsExactly | packages/core/cron.ts:116-136 | Without the stepping: a legal token selects exactly the numbers from its lower to its upper end that lie a multiple of the step above the lower end |
| CronRule.LegalExactly | packages/core/cron.ts:98-146 | A token is an error exactly unless it lists numbers of the field's own range, in order, with a positive step |
| CronRule.Ranges | packages/core/cron.ts:83-92 | The ranges: minutes 0 to 59, hours 0 to 23, dates 1 to 31, months 1 to 12, weekdays 0 to 7 where 7 is read as 0, Sunday |
| CronRule.FieldLists | packages/core/cron.ts:98-146 | The values of a parsed field are the numbers its tokens list, and among weekdays 0 whenever they list 7 |
| CronRule.StarField | packages/core/cron.ts:98-146 | A lone star lists the whole range and makes the field a wildcard |
| CronRule.WeekdaysGoRound | packages/core/cron.ts:46 | Weekday numbers follow one another from day to day; 1970-01-01 was a Thursday, 4, and 2000-01-01 a Saturday, 6 |
| CronRule.MonthTable | packages/core/cron.ts:45-46 | The day of the year on which each month begins, month by month, in common and leap years |
| CronRule.FiresAtInstants | packages/core/cron.ts:20-69 | A schedule fires at whole minutes only: each of its instants is one minute of one calendar date |
| CronRule.AnyDay | packages/core/cron.ts:222-224 | With both day fields wildcards, every date of a listed month fires at the listed times, and no other |
| CronRule.ListedDates | packages/core/cron.ts:230-232 | With the weekday a wildcard, exactly the listed dates of the listed months fire at the listed times |
| CronRule.ListedWeekdays | packages/core/cron.ts:226-228 | With the date a wildcard, exactly the dates of the listed months that fall on a listed weekday do |
| CronRule.EitherDay | packages/core/cron.ts:234 | With both day fields restricted a schedule fires at an instant if and only if the schedule of its dates alone or the schedule of its weekdays alone does |
| CronRule.HalvesAreValid | packages/core/cron.ts:218-235 | Those two schedules are valid ones, so all results hold of them |
| CronRule.FiveFields | packages/core/cron.ts:71-96 | From the text to the instants: four numbers and a star fire at that minute of that date, in every year that has the date, and at no other time |
| CronSearch.ComputeNextCronFireTime | packages/core/cron.ts:20-69 | The nested search returns the least whole minute strictly after `afterMs` at which the schedule fires, and throws exactly for a schedule that never fires |
| CronSearch.SearchYear | packages/core/cron.ts:32-39 | One year of the search: the first match not before the starting minute, or no minute of the year matches, though past months are skipped |
| CronSearch.SearchMonth | packages/core/cron.ts:39-49 | One month of the search, entered at the start date in the start month: the first match or the month is clear |
| CronSearch.SearchDay | packages/core/cron.ts:49-57 | One day of the search, with the hours before the start skipped on the start day only |
| CronSearch.SearchHour | packages/core/cron.ts:57-65 | One hour of the search, with the minutes before the start skipped in the start hour only |
| CronSearch.FiresWithinEightYears | packages/core/cron.ts:2 | A schedule that can fire at all has a firing day in any eight consecutive years |
| CronSearch.NeverFiresMeansNoInstant | packages/core/cron.ts:68 | The condition a caller can read off the fields (weekday a wildcard, dates restricted, every listed date beyond every listed month) holds if and only if no instant fires |
| CronSearch.ExhaustedMeansNever | packages/core/cron.ts:68 | A search that ran through its whole lookahead proves that the schedule never fires |
| CronSearch.ResolveNextCronExecutionWindow | packages/core/engine.ts:622-636 | From a due slot the loop ends with the greatest slot not after now and that slot's successor, or throws exactly when the expression never fires |
| CronSearch.WindowUnique | packages/core/engine.ts:622-636 | Slot and clock determine the window: two windows for the same claim are equal |
| CronExamples.OutageFiresTheMissedSlot | packages/core/engine.ts:622-636 | The outage of docs/cron.md, on any day: a quarter-hourly schedule down from 10:05 to 10:25 fires its 10:15 slot at 10:25, and the 10:30 slot as well |
| CronExamples.EveryHourFires | packages/core/cron.ts:218-235 | A schedule of given minutes of every hour fires at exactly those whole minutes |
| CronStore.Store.ClaimNextCronSchedule | packages/bun/src/sqlite_adapter.ts:359-424 | Claims the due, unleased schedule that comes first by fire time and name, under a fresh token, and nothing else changes; returns none exactly when there is no such schedule |
| CronStore.CandidateExists | packages/bun/src/sqlite_adapter.ts:359-424 | Whenever some schedule is claimable there is a first one for the query to return |
| CronStore.CandidateUnique | packages/bun/src/sqlite_adapter.ts:359-424 | The order of the query leaves exactly one candidate |
| CronStore.NothingRunThoughDue | packages/core/engine.ts:571-583 | A step that only deletes an unregistered schedule, and reports nothing run, can leave another schedule due |
| CronStore.CandidateExactly | packages/bun/src/sqlite_adapter.ts:359-424 | The claim query selects the schedule that is due and under no running lease, such that every other one like that has a later fire time, or the same and a name that comes later character by character |
| CronStore.CommitExactly | packages/core/engine.ts:584-607 | A commit records the run, gives it a job unless it was recorded before, and moves the schedule on and frees it, if slot and token are still those claimed; else no table changes |
| CronStore.ReleaseExactly | packages/bun/src/sqlite_adapter.ts:703-714 | A release clears the lease of its own schedule if the token is its own, and nothing else ever |
| Names.LessExactly | packages/bun/src/sqlite_adapter.ts:359-424 | The order of names: a proper prefix comes first, otherwise the first character that differs decides |
| CronStore.Store.ReleaseCronScheduleLease | packages/bun/src/sqlite_adapter.ts:703-714 | Frees the lease only of the schedule that still carries this token |
| CronStore.Store.DeleteCronSchedule | packages/bun/src/sqlite_adapter.ts:568-572 | Removes the one schedule |
| CronStore.Store.UpsertCronSchedule | packages/bun/src/sqlite_adapter.ts:772-790 | Writes expression and next fire time and drops any lease |
| CronStore.Store.InsertCronRun | packages/bun/src/sqlite_adapter.ts:579-590 | Reports whether the slot was new; afterwards it is recorded either way |
| CronStore.Store.EnqueueCronJob | packages/core/engine.ts:593-598 | Appends one job for the slot |
| CronStore.Store.AdvanceCronSchedule | packages/bun/src/sqlite_adapter.ts:332-355 | Compare-and-swap on slot and token: succeeds exactly when both still match, and otherwise leaves the table alone |
| CronStore.Store.CommitWindow | packages/core/engine.ts:584-607 | Record, enqueue and advance together: all of it when the advance succeeds, nothing when it does not |
| CronStore.Store.ProcessNextCronSchedule | packages/core/engine.ts:571-620 | A whole engine step on the tables: the window of the first due schedule is recorded, enqueued once and advanced past; a schedule no longer registered is deleted and nothing reported; one that never fires throws and keeps its lease |
| CronStore.Store.SyncRegisteredCrons | packages/core/engine.ts:638-658 | Afterwards exactly the registered schedules are stored; those whose stored text is the registered one keep slot and lease, others, respelled ones included, restart at their next fire time; it throws exactly when a changed expression never fires |
| CronStore.Store.SyncOne | packages/core/engine.ts:643-653 | One turn of the sync: skip a schedule whose text is unchanged, write any other |
| CronStore.SyncTurn | packages/core/engine.ts:643-653 | A turn of the sync settles its own name and disturbs no other |
| CronProtocol.EachSlotAtMostOnce | packages/core/engine.ts:571-620 | Over every interleaving of workers, lease expiries, aborts, crashes and re-syncs (stale ones too), cron jobs and recorded runs correspond one to one: no slot gets two jobs |
| CronProtocol.StepKeepsOneJobPerRun | packages/core/engine.ts:584-607 | Every single step keeps that correspondence |
| CronProtocol.LostStaysLost | packages/bun/src/sqlite_adapter.ts:359-424 | Once nothing is leased under a token, nothing ever is again |
| CronProtocol.TakenOver | packages/bun/src/sqlite_adapter.ts:359-424 | A claim of the same schedule by another worker makes the old token lost |
| CronProtocol.NotHeldIsLost | packages/bun/src/sqlite_adapter.ts:359-424 | A worker whose schedule no longer carries its token has lost it everywhere |
| CronProtocol.TokensReachable | packages/bun/src/sqlite_adapter.ts:359-424 | In every state any interleaving reaches, stale re-syncs included, tokens are fresh and each names one schedule and slot |
| CronProtocol.LeaseExcludes | packages/bun/src/sqlite_adapter.ts:359-424 | Through any interleaving, until its lease runs out, and unless its holder commits or lets go or the schedule is synced or deleted, a leased schedule stays exactly as it is and no worker can claim it |
| CronProtocol.ClaimLeases | packages/bun/src/sqlite_adapter.ts:359-424 | A claim only ever takes a schedule that is due and under no running lease, and leases it from that instant for as long as it asks |
| CronProtocol.DueIsClaimable | packages/bun/src/sqlite_adapter.ts:359-424 | A schedule that is due and under no running lease lets every free worker claim it or one that comes before it |
| CronProtocol.LostLeaseCommitsNothing | packages/core/engine.ts:578-608 | From the empty system on: once another claim, a re-sync or a deletion has taken a worker's schedule from it, the worker changes no table at whatever later time it commits or releases; deleting the schedule as unregistered, which goes by name, changes one exactly if it is there |
| CronProtocol.LostTokenChangesNothing | packages/bun/src/sqlite_adapter.ts:332-355 | The same from any state in which a token is lost, for whatever reason |
| CronProtocol.DeletionTakesLease | packages/core/engine.ts:578-582 | A worker that deletes an unregistered schedule takes it from whoever has claimed it since: that worker's token is lost |
| CronProtocol.StepKeepsTokens | packages/bun/src/sqlite_adapter.ts:359-424 | Tokens stay below the next fresh one and each names one schedule and slot |
| CronProtocol.SkippedSlotsSuperseded | packages/core/engine.ts:584-607 | No slot is lost: from the moment a schedule is written, through any interleaving until it is synced again, every slot up to its present position has been run, or superseded by a recorded later slot that was already due |
| CronProtocol.StepCovers | packages/core/engine.ts:622-636 | Every step keeps all slots covered; a commit covers exactly those its window passes over |
| CronProtocol.FireTimesIncrease | packages/core/engine.ts:584-607 | If every re-sync writes a slot later than the schedule's recorded runs, the jobs of each schedule are enqueued in strictly increasing fire time; without re-syncs always |
| CronProtocol.ReadLateEnough | packages/core/engine.ts:638-653 | A re-sync does write late enough if it read the clock no earlier than the schedule's last recorded fire time |
| CronProtocol.ResyncThenFire | packages/core/engine.ts:584-607 | How sharp that is: a re-sync followed by the schedule's next fire keeps the order if and only if the slot then due was recorded before or is newer than every recorded one |
| CronProtocol.CommitAscends | packages/core/engine.ts:584-607 | Recording a run keeps the order exactly if it was recorded before or is newer than all of its schedule's |
| CronExamples.StaleSyncGoesBack | packages/core/engine.ts:638-653 | From the empty system, a re-sync that writes what it read long before makes fire times go back: 1:00 is enqueued, then 0:30 |
| WorkflowEngine.Engine.Start | packages/core/engine.ts:1217-1263 | Throws exactly for an unknown workflow, an id in use or an initial state that throws; otherwise one row at the first step and one job available at once |
| WorkflowEngine.Engine.Send | packages/core/engine.ts:1265-1296 | Throws exactly for a missing or terminal instance; otherwise one unconsumed signal and one job |
| WorkflowEngine.Engine.Turn | packages/core/engine.ts:1351-1601 | One turn of the run loop, for each kind of step and each resting status, is the step function of the protocol |
| WorkflowEngine.Engine.Sleep | packages/core/engine.ts:1458-1507 | A sleep step either passes, keeps resting or rests with its wake-up time and its job |
| WorkflowEngine.Engine.Wait | packages/core/engine.ts:1509-1599 | A wait takes the oldest unconsumed signal, times out when its deadline is due, or rests with the deadline's job |
| WorkflowEngine.Engine.RunWorkflowInstanceUntilSuspended | packages/core/engine.ts:1346-1603 | The bounded loop is the recursive run: it finishes with the same tables and clock, or fails in the same cases |
| WorkflowEngine.Engine.ProcessWorkflowQueuePayload | packages/core/engine.ts:1325-1344 | Lease, run and release as one transaction; after an exception all tables are as before, the row just marked failed included |
| WorkflowEngine.Engine.ReleaseWorkflowLease | packages/core/engine.ts:2059-2071 | Frees the lease only if the row still carries this token |
| WorkflowEngine.Engine.FailWorkflowInstance | packages/core/engine.ts:2073-2088 | Marks one row failed and clears its wake-up and lease |
| WorkflowEngine.Engine.QueueEnqueue | packages/bun/src/sqlite_adapter.ts:689-702 | Appends one pending job, never available before now |
| WorkflowEngine.JobShifts | packages/core/engine.ts:1325-1344 | The engine's job on a running clock is the protocol's job with the clock counted from the job's own start, so the protocol's results hold of the engine |
| WorkflowTiming.EarlySleepRun | packages/core/engine.ts:1357-1360 | A run that comes before a sleeping workflow's wake-up returns and changes nothing, whatever its job was for |
| WorkflowTiming.DueSleepRun | packages/core/engine.ts:1357-1373 | From the wake-up on it runs exactly as the running workflow it was before it slept |
| WorkflowTiming.EarlyWaitRun | packages/core/engine.ts:1555-1569 | Without a signal, a run that comes before a wait's deadline, or at any time if it has none, changes nothing; it throws only if computing the timeout throws |
| WorkflowTiming.DueWaitTurn | packages/core/engine.ts:1563-1567 | Without a signal, and from the deadline on, the wait is passed with no table touched but the row, its state as the timeout clause says; a failing clause throws |
| WorkflowTiming.ActionTurn | packages/core/engine.ts:1423-1456 | An action step goes to a new state exactly if its arguments, the registered action on them, and the continuation on input, result and old state, in this order, give it; it throws exactly if there is no such state |
| WorkflowTiming.JobExactly | packages/core/engine.ts:2032-2057 | A job leaves a workflow that is missing, has ended, or is under a lease that has not run out; every other it leases from now on and runs, to the same signals, jobs, rows and clock, but for its own lease, which is gone |
| WorkflowTiming.EndedRun | packages/core/engine.ts:1351-1356 | A run of a completed or failed workflow changes nothing |
| WorkflowTiming.LastTurn | packages/core/engine.ts:1399-1420 | After the last step the row is completed and keeps input and state, without step, wake-up or lease |
| WorkflowTiming.RunRests | packages/core/engine.ts:1483-1507 | A run that brings its workflow to rest took one clock reading, and the wake-up is that reading plus the greater of 0 and the delay or timeout its step asked for; the job it enqueued is available that much after a later reading; a wait without timeout has neither |
| WorkflowTiming.JobRestsAsAsked | packages/core/engine.ts:1325-1344 | The same of a whole job: only its own workflow comes to rest, with the wake-up it asked for counted from a reading of this job |
| WorkflowTiming.SleepsUntilDue | packages/core/engine.ts:1357-1360 | Over any interleaving from any state that can be reached, a sleeping workflow's row stays exactly as it is until the clock has reached its wake-up |
| WorkflowTiming.SleepStays | packages/core/engine.ts:1357-1360 | A sleeping row moves only in a run of its own workflow that reads the clock at or after the wake-up |
| WorkflowTiming.WaitsUntilDue | packages/core/engine.ts:1555-1569 | Over any interleaving, a workflow that waits without a signal stays exactly as it is as long as none of that name is sent to it and the clock has not reached its deadline |
| WorkflowTiming.RestsFromNow | packages/core/engine.ts:1483-1507 | A run that brings its workflow to rest counts the wake-up from a reading between the state it ran in and the state it left, and its pending job is not available before the wake-up |
| WorkflowTiming.WakeUpsAreAsked | packages/core/engine.ts:1483-1507 | In every reachable state each resting row's wake-up is what its step asked for after some time up to now |
| WorkflowTiming.SignalExactly | packages/core/engine.ts:1265-1296 | A signal appends one unconsumed row and one job available at once, for every workflow that is there and neither completed nor failed; for any other it throws |
| WorkflowTiming.StartExactly | packages/core/engine.ts:1217-1263 | A start writes one running row at the first step, with the input as given and the initial state computed from it, and one job available at once; it throws exactly if the id is taken, the workflow unknown or the initial state throws |
| WorkflowTiming.CalledIsClaimable | packages/bun/src/sqlite_adapter.ts:425-484 | The job of a start or signal can be claimed in the same instant |
| WorkflowTiming.ClaimExactly | packages/bun/src/sqlite_adapter.ts:425-484 | A worker can claim a job that is pending and available, or processing under a lease that has run out, and no other |
| WorkflowTiming.AbandonedIsClaimable | packages/bun/src/sqlite_adapter.ts:425-484 | The job of a worker that died is claimable again exactly from the end of its lease on |
| WorkflowSignals.PendingIsNext | packages/core/engine.ts:2090-2110 | The signal a wait finds is the one its stream owes it: the k-th wait gets the k-th payload sent under that name |
| WorkflowSignals.ConsumeAdvances | packages/core/engine.ts:2090-2110 | Taking a signal moves its own stream on by exactly one |
| WorkflowSignals.ConsumeKeepsOthers | packages/core/engine.ts:2090-2110 | Taking a signal moves no other stream, of this or any other workflow |
| WorkflowSignals.SendAppends | packages/core/engine.ts:1265-1296 | A new signal joins the end of its own stream, unconsumed, and changes no other |
| WorkflowRefinement.TurnKeepsRow | packages/core/engine.ts:1351-1601 | Each turn leads from a resting point of a one-pass execution to another: the row's state is always what the steps before its index give |
| WorkflowRefinement.TurnTookOrTimedOut | packages/core/engine.ts:1926-1969 | A turn that passes a wait took the oldest pending signal, or found the wait's own timeout due |
| WorkflowRefinement.PassKeepsUp | packages/core/engine.ts:1346-1603 | Signals sent later and choices made later never change what the earlier steps gave |
| WorkflowRuns.RunKeepsRows | packages/core/engine.ts:1346-1603 | However far a run gets, every row of every workflow stays explained by a one-pass execution |
| WorkflowRuns.RunSettles | packages/core/engine.ts:1483-1507 | A run that returns left its workflow completed, or resting with a wake-up job that this run enqueued and that is not available early; or it came too early and changed nothing |
| WorkflowRuns.RunFrame | packages/core/engine.ts:1346-1603 | A run only appends jobs for its own workflow and changes no other row |
| WorkflowRuns.RunKeepsPending | packages/core/engine.ts:2090-2110 | A run of one workflow leaves the pending signals of all others pending |
| WorkflowRuns.JobKeepsRows | packages/core/engine.ts:1325-1344 | A whole job keeps all rows explained and leaves no lease behind |
| WorkflowRuns.JobRests | packages/core/engine.ts:1325-1344 | A whole job completes its workflow or brings it to rest with what will wake it |
| WorkflowRuns.RunMovesForward | packages/core/engine.ts:1346-1603 | In a run the step index never decreases, workflow and input never change, and a terminal row is left as it is |
| WorkflowRuns.LimitNeverReached | packages/core/engine.ts:1347-1351 | With at most 1023 steps no run is cut off by the loop guard, from whatever row it starts |
| WorkflowRuns.LimitExact | packages/core/engine.ts:1347-1351 | The guard is exact: a run of immediate steps is cut off if and only if at least as many steps are left as turns |
| WorkflowProtocol.LongOnesNeverMove | packages/core/engine.ts:1347-1351 | In every reachable state of the whole system each workflow of 1024 or more immediate steps is as it was started: no run of it ever commits anything |
| WorkflowProtocol.ImmediateRun | packages/core/engine.ts:1347-1351 | A job of a workflow of immediate steps that was just started returns if and only if the workflow has fewer than 1024 steps |
| WorkflowProtocol.ActionKeepsInv | packages/core/engine.ts:710-764 | Starts and signals, in a transaction or statement by statement, claims, runs, throws, roll-backs, retries, crashes and clock ticks of any number of workers and callers keep the invariant behind the results below |
| WorkflowProtocol.ReachableInv | packages/core/engine.ts:710-764 | That invariant holds in every state that any interleaving of those actions reaches |
| WorkflowProtocol.RowsKeepMovingForward | packages/core/engine.ts:1346-1603 | Over any further interleaving the step index never decreases, workflow and input never change, and a terminal row stays as it is |
| WorkflowProtocol.NoLostWakeup | packages/core/engine.ts:1217-1296 | In every reachable state, as long as none of its jobs was given up on, a workflow that is running, sleeping, waiting with a deadline or waiting beside its signal has a job that will be run, for a timer not before the wake-up, if and only if it is not unanswered: written to, outside a transaction, when none of its jobs was left to run, with no job enqueued, run or handed back since |
| WorkflowProtocol.WakeupIsQueued | packages/core/engine.ts:1217-1296 | The same without that hypothesis, for a job that may have been given up on |
| WorkflowProtocol.LostOnlyByACut | packages/core/engine.ts:950-957 | Over any run a workflow is unanswered only while a call on it stands between its row and its job, or after one was cut off there |
| WorkflowProtocol.TransactionsLoseNothing | packages/core/engine.ts:1217-1296 | When every start and signal is made inside a transaction no workflow is ever unanswered, so no wake-up is lost |
| WorkflowProtocol.CutExactly | packages/core/engine.ts:1227-1255 | A start or signal cut off between its row and its job leaves the workflow with a job to run if and only if it had one before; a start never had |
| WorkflowProtocol.CutSignalStrands | packages/core/engine.ts:1279-1295 | A signal cut off leaves the workflow that waits for it, if it had no job, waiting beside it |
| WorkflowProtocol.CutStartStrands | packages/core/engine.ts:1217-1263 | A start cut off strands the workflow: through any continuation without a signal to it, it stays running at its first step without a job, and its id cannot be started again |
| WorkflowProtocol.CutStartReachable | packages/core/engine.ts:950-957 | From the empty system this takes two steps with any registered workflow: a needed wake-up and no job at all |
| WorkflowProtocol.CutThenSignalled | packages/core/engine.ts:1265-1296 | A cut-off start is answered by the next complete signal, so that a call was cut off does not by itself mean a lost wake-up |
| WorkflowProtocol.CommittedRows | packages/core/engine.ts:1325-1344 | Every committed row: no lease, never failed, step id as at its index, a wake-up only while sleeping or waiting, completed only at the end |
| WorkflowProtocol.RowsMoveForward | packages/core/engine.ts:1346-1603 | No action takes a workflow back, changes its input or touches it once terminal |
| WorkflowProtocol.SegmentationIndependence | packages/core/engine.ts:1346-1603 | Without timeouts, however sleeps, early signals, spurious jobs, throws, retries and crashes cut the execution up, a workflow rests where one pass over its steps gets and completes where it ends |
| WorkflowProtocol.SignalsConsumedInOrder | packages/core/engine.ts:2090-2110 | In every reachable state each stream is consumed as a prefix, oldest first, each signal at most once, and without timeouts exactly as far as the waits already passed |
| WorkflowProtocol.HistoriesAgree | packages/core/engine.ts:1346-1603 | Two histories that complete the same workflow on equal input and equal signal streams agree on the final state |
| Transactions.Engine.Run | packages/core/engine.ts:1009-1021 | User code on the engine object does what the depth-counting semantics says, on normal and on exceptional exit |
| Transactions.Engine.RunInTransaction | packages/core/engine.ts:2219-2250 | The same for a call: begin at depth 0 only, count up and down, commit or roll back at the root |
| Transactions.Engine.CommitTransaction | packages/core/engine.ts:2230-2247 | Persist, commit, hand over and fan out; a commit that fails is rolled back, a fan-out that fails is not |
| Transactions.Engine.PersistEvents | packages/bun/src/sqlite_adapter.ts:1086-1098 | Rows are appended in order and each event gets the id of its row |
| Transactions.Engine.RollbackTransaction | packages/bun/src/sqlite_adapter.ts:715-720 | Restores the tables of the open transaction; without one nothing happens |
| Transactions.NestedIsFlat | packages/core/engine.ts:2219-2250 | At depth above 0 any program, nested calls and caught failures included, only moves its own view of the key-value table and the pending list, and the depth comes back |
| Transactions.NestingRefinesFlat | packages/core/engine.ts:2219-2250 | From an idle engine any tree of calls ends idle (depth 0, nothing pending, no open transaction) and what lasts is what the semantics without a depth counter gives |
| Transactions.EventsCommitTogether | packages/core/engine.ts:1009-1021 | The committed list gains exactly the events the table gained, in publish order, with fresh consecutive ids; no other event on it has an id |
| Transactions.RootCallStores | packages/core/engine.ts:1009-1021 | After a root call that is kept, the rows and the committed list go on with exactly what the body published: the i-th event with its own name and payload and the id that follows the i rows before it; fan-out gets the same unless it fails |
| Transactions.EventsInPublishOrder | packages/core/engine.ts:1009-1021 | For any tree of calls the committed list grows by exactly what its kept parts published, in publish order, and the table by those of them published in a transaction, in that order and numbered on |
| Transactions.UnsetExactly | packages/core/engine.ts:2163 | A marker counts as not set exactly if it is missing, null, false, zero or the empty text |
| Transactions.RootCallOutcome | packages/core/engine.ts:2230-2247 | A root call keeps its effects if and only if its body finishes and the commit goes through; it reports success only if the fan-out works too |
| Transactions.PersistedAppend | packages/core/engine.ts:2306-2308 | Events with ids and events without are told apart however the committed list was put together |
| Subscriptions.MarkerKeyInjective | packages/core/engine.ts:2162 | Equal marker keys mean equal event and equal subscriber, for all names, colons and digits included |
| Subscriptions.DispatchSubscriptions | packages/core/engine.ts:2156-2176 | The two loops deliver every event to its subscribers in order, each in its own transaction, and stop at the first that throws |
| Subscriptions.DeliveriesInOrder | packages/core/engine.ts:2156-2160 | Deliveries go event by event, and for each event through its subscribers in registration order; there are as many as the events have subscribers |
| Subscriptions.DispatchStates | packages/core/engine.ts:2156-2176 | A dispatch is one root transaction for each delivery in turn, each on what the one before left; it ends after the first that throws, and what that left stays |
| Subscriptions.DeliveryExactly | packages/core/engine.ts:2160-2173 | A subscriber that is not idempotent, or an event without an id, gets its handler and nothing else; otherwise a set marker skips the handler, and a handler that finishes sets it, one that throws does not |
| Subscriptions.DecimalReads | packages/core/engine.ts:2162 | The id in a marker key is its decimal text: read as a number it is the id again |
| Subscriptions.DispatchAppend | packages/core/engine.ts:2156-2176 | Delivering two batches in a row is delivering their concatenation |
| Subscriptions.DeliveryMarks | packages/core/engine.ts:2160-2173 | A delivery that finishes marks its own pair and no other |
| Subscriptions.SameNameIsSkipped | packages/core/engine.ts:2162 | A second subscriber of the same name on the same event is not run once the first one was |
| Subscriptions.MarkersStay | packages/core/engine.ts:2160-2173 | Code that writes no marker key leaves every marker as it was, on whatever path it takes |
| Subscriptions.TransactionMarks | packages/core/engine.ts:2156-2176 | A transaction over any deliveries runs each unmarked pair at most once, no marked one, and marks exactly what it ran |
| Subscriptions.CommittedAtMostOnce | packages/core/engine.ts:2156-2176 | Over any history of deliveries, re-deliveries, failures and other code, each pair of event and subscriber has its effects committed at most once, and exactly if its marker is set |
| Subscriptions.DeliveredMeansCommitted | packages/core/engine.ts:2156-2176 | A delivery that reported success has its effects committed, by itself or before |
| Validators.SchemaDetermines | packages/runtime/index.ts:1890-2108 | What a validator accepts and returns is a function of its schema alone: `parse` equals the schema read as a parser, for every nesting of unions, nullables, optionals, arrays and objects |
| ValidatorRules.ParseExactly | packages/runtime/index.ts:1890-2108 | For every validator and value: it throws exactly if the value does not conform, place by place; otherwise it returns the value without the fields its shapes do not list, at a union as its first conforming branch does |
| Validators.ShapeDetermines | packages/runtime/index.ts:1946-1987 | The same for one object: required keys, dropped keys and optional ones are all in the schema |
| Validators.Reparse | packages/runtime/index.ts:1946-2009 | What a validator returns, it accepts again, even where an earlier branch of a union takes over |
| Validators.ReparseIsIdempotent | packages/runtime/index.ts:1890-2009 | A second parse returns the very same value for every schema in which at most one branch of each union holds an object, as in every `nullable`, or those that do are told apart by a constant |
| Validators.UnchangedExactly | packages/runtime/index.ts:1946-2009 | A parse returns its input as it is if and only if the schema lists every field of it, at each union for the branch that takes the value |
| Validators.ReparseUnchangedExactly | packages/runtime/index.ts:1946-2009 | For every schema and value: a second parse changes nothing if and only if the schema lists every field of what the first one returned |
| Validators.ReparseMayDropFields | packages/runtime/index.ts:1989-2009 | With a union it need not: a concrete union and value whose second parse drops a field |
| Validators.NullParsesToNull | packages/runtime/index.ts:1911-1924 | A validator that accepts null returns null, so the order of `nullable` and its inner validator does not show |
| Validators.FirstSomeExists | packages/runtime/index.ts:1989-2009 | A union accepts exactly if a branch does, and returns that branch's value |
| SchemaCompatibility.CompareSchemaShape | packages/runtime/index.ts:2506-2585 | The recursive comparison with its early returns gives the declarative verdict, whatever the order of keys |
| SchemaCompatibility.CompareProperties | packages/runtime/index.ts:2542-2576 | The first pass over the old keys, handed on to the second, gives the gravest verdict of any key |
| SchemaCompatibility.CompareNewProperties | packages/runtime/index.ts:2564-2573 | The second pass over the new keys completes it |
| SchemaCompatibility.CompatibleAccepts | packages/runtime/index.ts:2506-2585 | Soundness: if the verdict is identical or additive, the new schema accepts everything the old one returns |
| SchemaCompatibility.CompatibleValidators | packages/runtime/index.ts:2506-2585 | The same for the validators behind the schemas |
| SchemaCompatibility.RawInputsExactly | packages/runtime/index.ts:2542-2576 | An input the old schema took is taken by a compatible new one if and only if every field that is new, at any depth, parses |
| SchemaCompatibility.RawInputsMayBreak | packages/runtime/index.ts:2564-2573 | One that is not: a field that was dropped before is read now |
| SchemaCompatibility.VerdictHasAPlace | packages/runtime/index.ts:2506-2585 | The verdict is the gravest local change: no path through the two schemas is judged worse and some path just so, hence a change is breaking exactly if at some path a property went or became required, or anything but an object or array changed |
| SchemaCompatibility.WiderEnumIsBreaking | packages/runtime/index.ts:2530-2585 | A widened enum accepts all the old values and yet always counts as breaking: the merged `additive` is never returned |
| SchemaCompatibility.SchemasNeverMigrate | packages/runtime/index.ts:2506-2585 | No schema change is ever classified as requiring a migration |
| SchemaCompatibility.SchemaTriangle | packages/runtime/index.ts:2506-2585 | Two changes in a row are no worse than the worse of the two, at any depth of nesting |
| Contracts.CompareWorkflowSteps | packages/runtime/index.ts:2435-2478 | The two loops compute the verdict of the greedy scan, duplicate ids included |
| Contracts.StepsVerdictExact | packages/runtime/index.ts:2435-2478 | With unique ids: identical iff equal, additive iff a proper prefix, migration iff a subsequence but no prefix, breaking iff no subsequence of steps with the same kind, action and signal |
| Contracts.ScanExact | packages/runtime/index.ts:2452-2478 | The greedy scan finds the one embedding if there is one, and flags an insertion exactly if the rest is no prefix |
| Contracts.StepsReflexive | packages/runtime/index.ts:2435-2478 | A step list is identical to itself if and only if no two different steps share an id |
| Contracts.StepsTriangle | packages/runtime/index.ts:2435-2478 | The step verdict of two changes is no worse than the worse one |
| Contracts.CompareRecordSchemas | packages/runtime/index.ts:2480-2504 | The loop with its running verdict gives the gravest verdict of any signal name |
| Contracts.CompareNewRecords | packages/runtime/index.ts:2497-2501 | Signal names that are new add `additive` and nothing graver |
| Contracts.CompareOptionalSchemas | packages/runtime/index.ts:2507-2513 | An absent schema is only compatible with an absent one |
| Contracts.CompareWorkflowContracts | packages/runtime/index.ts:1357-1392 | Name and mode must agree; otherwise the verdict is the gravest of steps, signals, input and state |
| Contracts.ContractReflexive | packages/runtime/index.ts:1357-1392 | A contract is identical to itself if and only if no two different steps share an id |
| Contracts.ContractTriangle | packages/runtime/index.ts:1357-1392 | Skipping a version is no worse than the worse of the two changes |
| Contracts.HistoryIsGraded | packages/runtime/index.ts:1298-1355 | A history whose every change is at most that bad is, from first to last version, at most that bad |
| Contracts.VerdictIsSound | packages/runtime/index.ts:1357-1392 | Short of breaking, all old steps are there in order (at the same index unless a migration is required) and the new version accepts every input, state and signal payload the old one returned |
| Contracts.RecordsExactly | packages/runtime/index.ts:2480-2504 | Signals: breaking exactly if one is gone or its schema breaks, identical exactly if the same names have identical schemas, additive for all else, a new name included |
| Contracts.ContractExactly | packages/runtime/index.ts:1357-1392 | The whole verdict: breaking exactly if name or mode differs, the old steps are no subsequence of the new, a signal is gone, input or state comes or goes, or some schema breaks; else a migration exactly if the old steps are no prefix; identical exactly if nothing differs; additive for the rest |
| QueueTable.Queue.ClaimNextQueueJob | packages/bun/src/sqlite_adapter.ts:425-484 | Takes the first claimable row by id, counts the attempt, sets the lease, and changes no other row |
| QueueTable.Queue.ClaimNextQueueJobs | packages/postgres/src/index.ts:435-481 | Takes the first rows that are claimable, as many as the clamped limit, in one statement and in id order |
| QueueTable.ClaimTakesFirstReady | packages/bun/src/sqlite_adapter.ts:425-484 | A claim hands out the first row, by id, of a listed queue that is pending with its time come or processing under a lease run out, and none exactly if there is no such row; it counts the attempt, leases from now on and keeps queue, payload and availability |
| QueueTable.BatchTakesFirstReady | packages/postgres/src/index.ts:435-481 | A batch takes such rows in id order, no more than its limit, and leaves one out only when full with earlier ones |
| QueueTable.BatchIsRepeatedClaims | packages/postgres/src/index.ts:399-481 | A batch claim gives the same jobs, order and table as so many single claims at that instant if and only if the lease is positive, or the limit is at most one, or nothing is claimable |
| QueueTable.SameJobTwice | packages/postgres/src/index.ts:399-434 | With a lease that ends at once, repeated single claims hand out the same job again |
| QueueTable.Queue.QueueEnqueue | packages/bun/src/sqlite_adapter.ts:689-702 | Appends one pending row with no attempts, available no earlier than now |
| QueueTable.Queue.CompleteQueueJob | packages/bun/src/sqlite_adapter.ts:555-567 | Completes the row with this id, whoever holds it |
| QueueTable.Queue.MarkQueueJobFailure | packages/bun/src/sqlite_adapter.ts:642-660 | Sets status and availability of the row with this id, whoever holds it |
| QueueTable.Queue.FailQueueJob | packages/core/engine.ts:2252-2279 | Envelope first, if a dead-letter queue is configured and the attempts are used up, then the job's own status |
| QueueTable.FailureExactly | packages/core/engine.ts:2252-2279 | Short of the last attempt a failed job is pending again after the retry delay; with the attempts used up it has failed, or it is in the dead-letter state and its envelope is pending, at once, in the dead-letter queue of its own queue; no other row changes |
| QueueTable.CompleteExactly | packages/bun/src/sqlite_adapter.ts:555-567 | Completing settles one row, frees its lease and leaves attempts, payload and every other row alone |
| QueueTable.EnvelopeHolds | packages/core/engine.ts:2262-2272 | An envelope carries the payload, queue and attempts of the failed job, the error and the time, and nothing else |
| QueueProtocol.StepKeeps | packages/core/engine.ts:710-764 | Every timely action of any worker keeps holders, attempts and envelopes in order |
| QueueProtocol.StepAbsorbs | packages/bun/src/sqlite_adapter.ts:555-567 | Under the lease hypothesis a completed, failed or dead-letter row never changes again, and no row ever changes queue or payload |
| QueueProtocol.RunKeeps | packages/core/engine.ts:710-764 | The same over any timely run |
| QueueProtocol.AttemptsAreBounded | packages/core/engine.ts:710-764 | When every handler ends before its own lease does, over any run of any number of workers: a job is tried at most max(1, maxAttempts) times, and every job in process is held by somebody |
| QueueProtocol.LeftUntilAvailable | packages/bun/src/sqlite_adapter.ts:425-484 | Over any timely run of any number of workers a pending job is left exactly as it is until the clock reaches the time it is available at |
| QueueProtocol.SentIsDelayed | packages/bun/src/sqlite_adapter.ts:689-702 | A job sent with a delay is ready from just when the delay, if positive, is over, and over any timely run no worker takes it before |
| QueueProtocol.RetryIsDelayed | packages/core/engine.ts:2271-2278 | A job marked for retry is ready from just when the retry delay is over, if it has attempts left and never if not, and over any timely run no worker takes it before |
| QueueProtocol.AttemptsAreClaims | packages/bun/src/sqlite_adapter.ts:425-484 | Over any run at all a job's attempts are the number of claims that took it |
| QueueProtocol.Accounting | packages/core/engine.ts:2252-2279 | In any run in which workers report before their lease ends or crash, at any point: no two hold a job at once; a claim that was never reported on costs one more attempt and nothing else does; a job that failed for good has an envelope with its payload and attempt count; every row is sent, a latest envelope or an earlier one of a job whose report was cut off, and never two of these |
| QueueProtocol.OneEnvelopeExactly | packages/core/engine.ts:2252-2279 | A dead job has exactly one envelope if and only if it did not fail again after a report of it was cut off between envelope and mark |
| QueueProtocol.NoExtraEnvelopesExactly | packages/core/engine.ts:2252-2279 | Rows exceed sends by one for each job with an envelope, and by no more, if and only if no job fails again after such a cut |
| QueueProtocol.RunSplits | packages/core/engine.ts:2252-2279 | Rows are counted: over any timely run the rows gained are the sends plus the envelopes, earlier ones included, and the two are disjoint |
| QueueProtocol.AbandonedCostsAnAttempt | packages/core/engine.ts:665-681 | A claimed job that is given up unreported, by a crash or because an earlier job of its batch threw, is claimable again after its lease with the attempt counted |
| QueueProtocol.LateReportReopens | packages/bun/src/sqlite_adapter.ts:642-660 | Without the lease hypothesis it fails: a late failure report reopens a job another worker completed |
| QueueProtocol.CrashSendsTwoEnvelopes | packages/core/engine.ts:2263-2278 | The envelope and the mark are two statements: after a crash between them one send makes three rows, two of them envelopes of one job |
| Plugins.Resolver.Expand | packages/runtime/index.ts:1612-1642 | The recursive expansion on the mutable state gives the functional one: same order, same stack afterwards, same error and cycle |
| Plugins.ExpansionIsTopological | packages/runtime/index.ts:1612-1642 | On success exactly the reachable plugins are expanded, each of their own entries is emitted exactly once and nothing else, and each after the entries of all that its plugin visits before it, however indirectly |
| Plugins.DependenciesComeFirst | packages/runtime/index.ts:1631-1637 | All that a dependency brings in comes before any own entry of the plugin that named it |
| Plugins.CircularExactly | packages/runtime/index.ts:1620-1626 | When all names resolve, the circular error is raised if and only if a cycle of dependencies and nesting can be reached |
| Plugins.PluginCycle | packages/runtime/index.ts:1620-1626 | The cycle in the error is a cycle and can be reached from what was registered |
| Plugins.PluginNotMissing | packages/runtime/index.ts:1644-1661 | When all names resolve there is no missing-dependency error |
| Plugins.PluginKeeps | packages/runtime/index.ts:1612-1642 | Each expansion keeps the order, finishes plugins after all they visit, and leaves the stack's plugins unfinished |
| Plugins.SucceedsExactly | packages/runtime/index.ts:1612-1661 | The expansion succeeds if and only if nothing reachable is part of a cycle and no reachable plugin depends on a name that is not there |
| PluginSources.FlattenInOrder | packages/runtime/index.ts:1568-1611 | The items of a source list are the leaves of its tree, one for one, groups in place and in document order: registrations and nested plugins alike, and nothing else |
| PluginSources.DependenciesInOrder | packages/runtime/index.ts:1631-1661 | Before them come the plugin's dependencies, in order: the plugin given, the plugin of that name, or a missing one |
| PluginSources.BroughtExactly | packages/runtime/index.ts:1542-1566 | A plugin brings in exactly the plugins it depends on directly and those nested anywhere in its sources |
| PluginSources.EntriesAreRegistrations | packages/runtime/index.ts:1600-1642 | When the expansion succeeds, the entries emitted for each plugin reached are its registration leaves: each once, in document order, and nothing else |
| PluginSources.ResolutionEmits | packages/runtime/index.ts:1394-1415 | The same of a whole registration, names and all |
| PluginScan.Scanner.ScanRegistration | packages/runtime/index.ts:1542-1566 | The recursive scan on the mutable state gives the functional one: same plugins, same names, same duplicate |
| PluginScan.ScanExactly | packages/runtime/index.ts:1542-1566 | The scan fails if and only if two different plugins that are brought in share a name; otherwise it has seen exactly what is brought in, and the names it collected are exactly theirs |
| PluginScan.ScanPluginKeeps | packages/runtime/index.ts:1542-1566 | At every point of the scan the names collected are those of the plugins seen, one plugin each, and finished plugins have brought in theirs, cycles or not |
| PluginScan.ResolveChimpbaseEntries | packages/runtime/index.ts:1394-1415 | Scan, then expand: the outcome is the list of entries or one of the three errors |
| PluginScan.RegistrationSucceedsExactly | packages/runtime/index.ts:1394-1415 | Registration succeeds if and only if names are unique, no reachable cycle exists and every name that something reachable depends on is registered; the duplicate error is raised exactly for a clash |
| PluginScan.GraphGrounded | packages/runtime/index.ts:1644-1661 | Whatever a plugin refers to, directly, nested or by a registered name, exists |
| Drain.Engine.DrainInPriorityOrder | packages/core/engine.ts:824-849 | One turn asks the preferred source first and the other only if the first is empty |
| Drain.Engine.Drain | packages/core/engine.ts:766-822 | Whatever tables the probes find: cron is asked first, counts are the items run, never above maxRuns, nothing starts after the deadline, two runs in a row from one source have the other answer empty in between, a job that throws ends it, and idle means that when last asked neither source had anything to run |
| Drain.Engine.ProcessNext | packages/core/engine.ts:571-585 | A source answers empty exactly when the tables it finds have nothing to run: no claimable job, or no due schedule but a first one no longer registered; and throws exactly when what it takes fails, or is a schedule that is not valid or never fires |
| Drain.CronEmptyExactly | packages/core/engine.ts:571-585 | Idle on the cron side means exactly that no schedule is due, or that the first one due had lost its registration; then others may be due |
| Drain.AfterTurn | packages/core/engine.ts:799-803 | Switching the preference after each run keeps the drain fair, and the counts right |
| Pagination.SliceBlobList | packages/postgres/src/index.ts:1122-1154 | The slicing loop gives entries, groups and cursor of the page, with or without a delimiter |
| Pagination.BlobListMetadata | packages/postgres/src/index.ts:870-913 | One page: matching keys after the cursor, one more row than the clamped limit, sliced |
| Pagination.SliceExactly | packages/postgres/src/index.ts:1122-1154 | What a page shows: the least number of rows that fill it, each as an entry or by its group, and where it goes on: its last entry, else the row it could not take, else the last row asked for |
| Pagination.CommonPrefixExactly | packages/postgres/src/index.ts:1136-1143 | A key's group is its shortest beginning that ends with a delimiter after the prefix; a key without one has no group |
| Pagination.IndexOfExactly | packages/postgres/src/index.ts:1138 | The first place at which the delimiter occurs, and none exactly if it occurs nowhere |
| Pagination.ClampLimit | packages/postgres/src/index.ts:876 | A page without a limit has 1000 rows; otherwise the limit, but at least 1 and at most 1000 |
| Pagination.PagesAreExact | packages/postgres/src/index.ts:870-913 | Without a delimiter, or with an empty one, following the cursor ends and lists every non-empty key exactly once in order, for all limits, even varying from page to page |
| GroupedPagination.PageLosesExactly | packages/postgres/src/index.ts:1122-1154 | With a delimiter, a page passes over a row it does not show if and only if its rows begin with as many groups as its limit and no entry, and the next row is in none of them |
| GroupedPagination.LosingPage | packages/postgres/src/index.ts:1122-1154 | That row is the cursor of the page, so the next page starts after it |
| GroupedPagination.EveryPageShowsAllExactly | packages/postgres/src/index.ts:1122-1154 | A whole listing, with whatever limits, shows every key in its turn if and only if no page of it is such a page |
| GroupedPagination.EveryKeyShownExactly | packages/postgres/src/index.ts:1122-1154 | It shows every key on some page, as an entry or in a group, if and only if each row so lost belongs to a group that some page shows |
| GroupedPagination.NextKeyShowsGroup | packages/postgres/src/index.ts:1122-1154 | A row lost by a page is shown after all, in its group on the next page, when the key right after it falls into the same group |
| GroupedPagination.ListedTwiceExactly | packages/postgres/src/index.ts:1122-1154 | A listing gives a key as an entry twice if and only if some page takes it as the row beyond its limit, because rows before share a group and leave the page unfilled; the next page then begins with it |
| GroupedPagination.RepeatingPage | packages/postgres/src/index.ts:1122-1154 | The cursor of such a page falls back to the row before the key |
| Pagination.DelimiterMayLoseKeys | packages/postgres/src/index.ts:1122-1154 | With a delimiter completeness fails: a concrete listing that never shows a key |

## Left out

- CronSearch.ComputeNextCronFireTime: the start lies in year 100 or later, because `Date.UTC` reads smaller years as years of the twentieth century; the bound on representable dates of section 21.4.1.1 of ECMA-262 is not modelled.
- CronExpression.ParseCronField: starts from parsed tokens (star, value, range, step); the lenient reading of number texts and the splitting of the expression are not part of this model. Tables and registry hold a text together with the schedule it parses to.
- QueueProtocol.Accounting: rests on every worker reporting before its own lease ends, if it reports at all; `LateReportReopens` shows that this is needed. Crashes are allowed at any point. A worker with a batch is so many holders with one job each, and the jobs it abandons are given up like those of a worker that crashed.
- Plugins.ExpansionIsTopological: arrays and maps of registrations are flattened in order first, and what is registered at the top is a graph node that nothing refers to; names inferred from the keys of a map are given as names, and the order in which a map hands them out is not modelled.
- WorkflowProtocol.SegmentationIndependence: for waits without timeout; with timeouts the outcome depends on the clock, and the rows are explained by the choices made (`RunKeepsRows`).
- GroupedPagination.EveryKeyShownExactly: the second half of its condition speaks of the groups that the pages show; `EveryPageShowsAllExactly` is the condition on the rows alone.
- Pagination.PagesAreExact: the LIKE pattern is the given list of matching keys; keys are sorted by code unit, and groups are a set rather than a sorted list.
- Validators.SchemaDetermines: values are JSON with real numbers, so there is no `undefined`, NaN or infinity, and no user-written schema outside what `v` builds; error texts are one failure.
- Contracts.VerdictIsSound: contract hashes and the version numbers around the comparison are not modelled; equality of serializations is structural equality.
- Drain.Engine.Drain: what handlers and other processes do to the tables between two probes is arbitrary, and whether the item a probe takes fails is given; the tables found are a finite list and empty after it, because with endless work and no limit the loop does not end. Idle speaks of the tables each source found when it was last asked, not of one instant.
- WorkflowEngine.Engine.Start: a workflow is given by its registered name and version. A name alone, which means the latest version, and a definition passed as an object without being registered, whose instance is stored and then fails in every run, are not modelled.
- Workflows in run mode, and workflow callbacks or actions that themselves write workflow tables, start workflows or send signals: callbacks are pure here.
- Isolation of concurrent SQL transactions: transactions are serial, as the adapters take them one at a time or lock the rows they claim.
- The order in which the queue hands out workflow jobs: the protocol lets any claimable job be taken next.
- Bookkeeping columns (last error, timestamps), telemetry, expiry and cleanup of key-value entries and markers.
- The event bus itself, polling and notification, asynchronous subscription jobs beyond their being one transaction.
- Routes, authentication, webhooks, blobs other than listing, streams, collections, secrets, command line and host: input and output, or glue without a hard property of its own.
