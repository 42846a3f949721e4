# Kagzi: durable execution, schedules and paging

A model of the Kagzi workflow engine and proofs about it. A table of runs is queue, lease table and
schedule store at once; a table of step attempts is a memo; workers replay user code from the start
after every crash, sleep or retry. Every repository call is one atomic step on in-memory tables, with
the value of `NOW()` passed in. `dafny verify dfyconfig.toml` checks everything.

## How it is laid out

| files | what they hold |
|---|---|
| `Basics`, `RetryPolicies` | shared types; retry policies and their layering |
| `StepLog`, `StepTable` | the attempt log as a sequence; the flagged rows of `step_runs`, the repository over them, and the refinement between the two |
| `Runs`, `RunRepository`, `Workers` | the statements on `workflow_runs` as functions, the repository that executes them in place, the worker table |
| `Leases`, `Queueing`, `Liveness`, `Fencing` | traces of the whole store: row and status history, exclusive lease, sleep and retry barrier, bounded overtaking, worker liveness, one executor at a time |
| `Programs`, `Replay`, `Termination`, `ClaimBound`, `DurableSleep` | workflow code, the replay protocol of one run, and its theorems |
| `WorkerService`, `SdkContext`, `SdkRefinement`, `Lives`, `Execution` | the handlers, the SDK calls and that they are runs of the replay protocol, what an execution is made of, and executions on the tables, request by request |
| `CronSlots`, `Catchup`, `Coordinator`, `Instances`, `ScheduleService` | cron slots, the catch-up state machine and its histories, the tick, what became of each slot on the tables, and the other writers of a template |
| `Paging`, `TokenText`, `CursorToken` | keyset pages and walks, the texts in a page token, and walks that hold tokens |

A class with methods stands for each repository, service and SDK object that changes state. Its methods
are proved against functions on values; the lemmas are about those functions.

## What the proofs assume

- One executor is live per run, and a lost executor sends nothing more: steps and completions are keyed
  by run and step name, not by `locked_by`. `Fencing.OneLiveExecutor` shows when the lease guarantees the
  first half: every executor's first heartbeat arrives within the visibility timeout, later gaps stay
  below the extension and the stale threshold, its worker does not deregister, and it ends when it has
  reported or paused the run.
- User code is deterministic, propagates the errors of its steps, and uses no step name that begins with
  `__lifecycle:`. The claim bound also wants a name not to serve both as a sleep and as a function step,
  and one positive `maximum_attempts` per step name.
- JSON text is never empty, and values survive the payload codec.
- The clock does not go back. Timestamps are whole microseconds.
- In the histories of the store, schedule statements name template rows. Creating a schedule and
  processing one template are atomic, and a template's creation time is the instant behind its first fire.
- The unique index of `workflow_runs` is what the `ON CONFLICT` clause names: (schedule_id, available_at).

## Where code and promise differ

- A fail, and nothing else, can overwrite a COMPLETED step (`StepLog.FailOverwritesCompletion`,
  `StepLog.CompletionLostExactlyByFail`); the replay protocol never sends such a fail
  (`Replay.EventKeepsMemo`). FailStep also rewrites the steps of terminal runs
  (`WorkerServices.WorkerService.FailStep`, `StepLog.FailRewritesUnlessRepeated`).
- Completing a run that is neither RUNNING nor COMPLETED still writes its output
  (`Runs.CompleteWritesOutput`, `Runs.OutputWithoutCompletion`).
- CompleteStep means to show the latest attempt and shows the oldest, which is the latest only if there
  was one attempt and it had not failed (`StepLog.CompleteReplyIsLatest`,
  `StepLog.CompleteReplyShowsFailure`).
- The error of a run whose step closure panicked is no result of its code (`Programs.OpenStepHasNoResult`).
- Between beginning a sleep and scheduling it, the sleep is sure to last only if the lease lasts as long;
  an executor lost there shortens a longer sleep to the rest of the lease
  (`DurableSleeps.SleepLastsIffLeaseDoes`). A sleep below one second schedules nothing, so the code rests
  until the lease is over (`DurableSleeps.ShortSleepWaitsForLease`), and every heartbeat of its worker
  makes that later.
- A heartbeat in time extends the lease beyond one extension from now (`Leases.ExtensionOvershoots`), so a
  punctual execution's lease runs ever further ahead (`Leases.LeaseRunsAhead`).
- A worker that shuts down, also when it is told to drain, stops its heartbeats and lets its executions
  go on. Such an execution is exclusive only if it ends before its lease
  (`Fencing.DrainIsSafeIffLeaseOutlasts`); one that does not breaks what `Fencing.OneLiveExecutor` asks for.
- An instance keeps its slot in the unique index only until it is claimed or cancelled
  (`Coordinators.CrashBeforeAdvance`, `Coordinators.ClaimedInstanceIsDuplicated`). The index covers every
  row of the schedule, so one that comes to stand on a later slot takes that slot from it
  (`Instances.DroppedIffTaken`, `Instances.SleepingInstanceTakesSlot`).
- Resuming keeps last_fired_at, so slots of the pause can be fired after all
  (`Catchup.ResumeReplaysThePause`).
- Schedule calls do not ask whether the row is a schedule: on a RUNNING or terminal row, and only there,
  they break the row invariant (`ScheduleServices.ScheduleWritesKeepInvariant`,
  `ScheduleServices.PausedRunKeepsItsLock`), and on a row that is no schedule the answer fails after the
  write (`ScheduleServices.ScheduleService.PauseWorkflowSchedule`).
- Updating a schedule checks a new cron expression and then ignores it
  (`ScheduleServices.ScheduleService.UpdateWorkflowSchedule`).
- Creating a schedule again under its id keeps the queue, type and input it was first created with
  (`ScheduleServices.ScheduleService.CreateWorkflowSchedule`).
- An output too large for the server is refused and nobody looks at the reply: the run stays RUNNING under
  its lease (`Execution.Executor.Report`).
- A negative max_catchup is as good as none (`Catchup.NegativeLimitSkipsBeyondItsImage`).
- Tokens cut created_at to milliseconds while the tables keep microseconds: descending listings can skip
  rows, ascending ones can repeat them for ever (`CursorToken.TokenListingIsSortedList`,
  `CursorToken.AscendingStalls`).
- Draining an offline worker lets it heartbeat again, and nothing else does
  (`Liveness.OfflineRevivedExactlyByDrain`, `Liveness.OfflineStaysOffline`).

## Model

| member | source | states |
|---|---|---|
| `Replay.ReplayRefinesEvaluation` | sdk/kagzi-rs/src/context.rs:144-263 | However often a run was claimed, lost, put to sleep, retried and replayed, once it is COMPLETED its output is the one result of an uninterrupted evaluation of the program against the memo; no other result is possible. |
| `Replay.FailureRefinesEvaluation` | sdk/kagzi-rs/src/worker.rs:554-627 | The same for a FAILED run and its error, unless the execution that failed it met a transport error or panicked; what earlier executions met does not matter. |
| `Replay.LivePositionIsOnTheEvaluation` | sdk/kagzi-rs/src/context.rs:144-263 | While the run is not terminal, the results a live executor has obtained are the only history of that length consistent with the memo. |
| `Replay.MemoIsWrittenOnce` | crates/kagzi-store/src/postgres/step.rs:317-455 | Once a step is COMPLETED its log is the same after every continuation of the protocol. |
| `Replay.EventKeepsMemo` | crates/kagzi-store/src/postgres/step.rs:480-543 | No protocol event changes a completed entry, and a FailStep never meets a completed step. |
| `Replay.EventKeepsAttempt` | crates/kagzi-store/src/postgres/step.rs:346-373 | Between begin and the answer the current attempt is the executor's own, in progress, or already completed with the value it is about to report. |
| `Replay.EventKeepsRow` | crates/kagzi-store/src/postgres/workflow/state.rs:387-501 | Protocol events keep the row invariant, never leave a terminal status, and count a claim exactly at a claim. |
| `Replay.EventKeepsInvariant` | sdk/kagzi-rs/src/context.rs:144-263 | Every event keeps the replay invariant: position on the evaluation, own attempt, row invariant, results of finished runs. |
| `Replay.InvariantHolds` | sdk/kagzi-rs/src/context.rs:144-263 | The replay invariant in every reachable state. |
| `Execution.Executor.Serve` | sdk/kagzi-rs/src/worker.rs:554-627 | Any number of executions of a run on the tables, with any fate of every request and with the clock, heartbeats and cancellations between the requests. In the end the output of a COMPLETED row is the one result of evaluating the code against the memo in the table, and so is the error of a FAILED row whose last execution met no transport error and did not panic. And the run comes to an end: if the executions are carried through, and each claims the run or finds it first in line unless it is over, the claim bound many of them leave it terminal. |
| `Execution.Executor.Execute` | sdk/kagzi-rs/src/worker.rs:554-627 | One execution, call by call from the start of the code. If nobody cancels the run, the turns suffice and the report reaches the server with an output that fits, no executor is lost; the run is then COMPLETED, FAILED, SLEEPING or PENDING, unless the code sleeps for less than a second; it is over if no call sleeps and no closure fails; and it met no fault if every request was answered. |
| `Execution.Executor.Step` | sdk/kagzi-rs/src/context.rs:144-263 | A step call, request by request with others acting in between, is a run of the protocol; unless the run is over or cancelled on the way it has the ending, memo, position and row of the SDK contract for every fate of its requests, a retry being due at the instant of FailStep plus its delay. |
| `Execution.Executor.Commit` | sdk/kagzi-rs/src/context.rs:191-229 | So is the CompleteStep loop: a value that fits is obtained exactly if some try is answered, also when the run becomes terminal between two tries. |
| `Execution.Executor.Sleep` | sdk/kagzi-rs/src/context.rs:69-118 | So is a sleep call, with the run asleep until the instant of the Sleep call plus the seconds. |
| `Execution.Executor.Report` | sdk/kagzi-rs/src/worker.rs:589-626 | With others acting before it: a value that fits completes a RUNNING run and is its output, an error fails it and is its error, a pause reports nothing; and exactly a lost request, a terminal run and an output too large lose the executor and leave the row. |
| `Execution.Executor.Poll` | crates/kagzi-server/src/worker_service.rs:272-409 | A poll claims the run only if the worker is admitted and the run is a first available one, and always if it is the only such; a claim is that of the protocol, with its sleeps woken or not, and any other poll does not show in the run. |
| `Execution.Executor.Live` | sdk/kagzi-rs/src/worker.rs:457-627 | One life: others act, a worker polls, and a claim is executed; whether it claims, and where it leaves the run. |
| `Execution.Executor.Others` | crates/kagzi-store/src/postgres/workflow/state.rs:834-852 | Whatever others do between two requests, the executor stands where it stood, and nothing but a cancellation does more to the row than extend its lease. |
| `Execution.Executor.BeginRequest` | sdk/kagzi-rs/src/context.rs:153-184 | One BeginStep, for every fate: carried out unless it is lost or the run is terminal, and its closure runs exactly if the reply arrives and the memo does not answer. |
| `Execution.Executor.CommitRequest` | sdk/kagzi-rs/src/context.rs:191-229 | One try of CompleteStep, for every fate: the value is stored if the request arrives, the run is not terminal and it fits. |
| `Execution.Executor.FailRequest` | sdk/kagzi-rs/src/context.rs:239-262 | One FailStep, for every fate: the log and the row change if it arrives, also when its reply is lost. |
| `Execution.Executor.PauseRequest` | sdk/kagzi-rs/src/context.rs:99-117 | One Sleep call, for every fate. |
| `Lives.StoryCounts` | sdk/kagzi-rs/src/worker.rs:554-627 | Over the lives of a run: carried through, they lose no executor; each claim counts once; and if every life finds the run first in line, all of them claim it until it is over. |
| `Programs.HistoryIsDetermined` | sdk/kagzi-rs/src/context.rs:144-166 | Two histories of one length that are consistent with the memo are equal. |
| `Programs.EvaluationIsUnique` | sdk/kagzi-rs/src/context.rs:144-166 | A program evaluates to at most one result against a memo. |
| `Programs.OnTheEvaluation` | sdk/kagzi-rs/src/context.rs:144-166 | Every consistent history is a prefix of the evaluation that ends. |
| `Programs.OpenStepHasNoResult` | sdk/kagzi-rs/src/worker.rs:570-578 | While a step that the code has reached is open, no result is the evaluation: so the error of a run whose step closure panicked is none. |
| `SdkContext.Context.Commit` | sdk/kagzi-rs/src/context.rs:191-229 | The CompleteStep retry loop with nothing in between: how it ends for every pattern of lost requests and lost replies, and that any number of deliveries leaves the log of one; a terminal run counts as success with nothing stored. |
| `SdkContext.Context.Step` | sdk/kagzi-rs/src/context.rs:144-263 | One step with nothing in between: exact ending, log and run row for cached, succeeding, failing and panicking closures, for every fate of BeginStep, CompleteStep and FailStep. |
| `SdkContext.StepPolicyComesFirst` | sdk/kagzi-rs/src/context.rs:150-160 | The attempts a step gets: its own setting, the worker's if it has no policy, else the workflow's, else 5. |
| `SdkContext.Context.Sleep` | sdk/kagzi-rs/src/context.rs:69-118 | One sleep with nothing in between: passes when the memo says so, otherwise pauses with the run asleep; exact ending, log and row for every fate of both calls. |
| `SdkContext.Context.Report` | sdk/kagzi-rs/src/worker.rs:589-626 | A value completes the run, an error fails it, a pause reports nothing, and a lost report changes nothing. |
| `SdkContext.CommittedOnce` | crates/kagzi-store/src/postgres/step.rs:396-427 | Repeating CompleteStep after it was stored changes nothing further. |
| `SdkRefinement.CommitRefines` | sdk/kagzi-rs/src/context.rs:191-229 | The retry loop, try by try, is a run of the replay protocol, also when the run has become terminal meanwhile. |
| `SdkRefinement.StepRefinesProtocol` | sdk/kagzi-rs/src/context.rs:144-263 | A step call with any fate of its requests is a run of the replay protocol that ends in the memo, row and position of the SDK contract. |
| `SdkRefinement.SleepRefinesProtocol` | sdk/kagzi-rs/src/context.rs:69-118 | So is a sleep call. |
| `SdkRefinement.StepKeepsInvariant` | sdk/kagzi-rs/src/context.rs:144-263 | An SDK step leads from a state with the replay invariant to one with it. |
| `Termination.ClaimsAreBounded` | crates/kagzi-store/src/postgres/step.rs:463-501 | A run is claimed at most 1 + sleeps + sum of (maximum_attempts - 1) times, plus once for every lost executor and every failed wake-up; when the bound is reached and nobody executes it, it is terminal. |
| `ClaimBounds.BoundIsMet` | crates/kagzi-store/src/models/workflow.rs:86-88 | The bound is the least one: for all names there is code that uses them, and a run of it without losses, that completes after exactly so many claims. |
| `Termination.BudgetHolds` | crates/kagzi-store/src/postgres/step.rs:463-501 | Claims made, claim due, sleep left open, retries left and sleeps left never exceed the bound and the losses, over every run. |
| `Termination.FailLeft` | crates/kagzi-store/src/models/workflow.rs:86-88 | A failed attempt uses up at least the retry it schedules. |
| `Termination.BeginSleepKeepsBudget` | crates/kagzi-server/src/worker_service.rs:456-462 | A sleep pauses the run the first time it is begun, and again only if it was left open. |
| `Termination.SleepsStaySettled` | crates/kagzi-store/src/postgres/step.rs:555-568 | A sleep step is not begun, over, or open as a sleep, whatever happens. |
| `DurableSleeps.ScheduledSleepLasts` | crates/kagzi-store/src/postgres/workflow/state.rs:445-472 | After the Sleep call no continuation resumes the code or closes the sleep before its seconds are over. |
| `DurableSleeps.SleepLastsIffLeaseDoes` | sdk/kagzi-rs/src/context.rs:69-118 | Between BeginStep and the Sleep call: every continuation leaves the sleep open for its seconds if and only if the lease in hand lasts as long. |
| `DurableSleeps.ShortSleepWaitsForLease` | crates/kagzi-server/src/worker_service.rs:706-712 | After a sleep below one second every continuation rests until an instant if and only if the lease in hand lasts until then. |
| `DurableSleeps.ReclaimEndsSleep` | crates/kagzi-store/src/postgres/step.rs:555-568 | When a run with an open sleep loses its executor, the claim at the end of the lease completes the sleep. |
| `StepLog.FirstWriterWins` | crates/kagzi-store/src/postgres/step.rs:337-344 | After a completion every begin is answered from the memo with the first output and every complete leaves the log, over all call sequences without fail. |
| `StepLog.CompletionLostExactlyByFail` | crates/kagzi-store/src/postgres/step.rs:480-543 | Among ordinary calls, fail and only fail takes a completion away. |
| `StepLog.FailOverwritesCompletion` | crates/kagzi-store/src/postgres/step.rs:480-494 | A concrete fail that turns a COMPLETED attempt into a FAILED one and makes the step run again. |
| `StepLog.FailRewritesUnlessRepeated` | crates/kagzi-store/src/postgres/step.rs:463-552 | A fail leaves a log as it was if and only if there is none or it repeats a retryable failure word for word. |
| `StepLog.CompleteReplyIsLatest` | crates/kagzi-server/src/worker_service.rs:503-524 | The attempt in the reply to CompleteStep, the oldest, is the latest one if and only if there was one attempt and it had not failed. |
| `StepLog.CompleteReplyShowsFailure` | crates/kagzi-server/src/worker_service.rs:503-524 | A second attempt is completed and the reply shows the failed first one. |
| `StepLog.FailureFollowsEffectivePolicy` | crates/kagzi-store/src/postgres/step.rs:463-501 | Failing the attempt that begin wrote is decided by the policy layered from step request, workflow request and defaults. |
| `StepLog.RetryDecision` | crates/kagzi-store/src/models/workflow.rs:80-88 | After n failures the next one schedules a retry if and only if its error is not marked, begins with no listed entry, and n + 2 is within maximum_attempts, or that is negative: the step's setting, else the workflow's, else 5. |
| `StepLog.TriedMaximumAttempts` | crates/kagzi-store/src/postgres/step.rs:463-501 | With retryable errors each of the first m - 1 failures schedules a retry and the m-th does not; with a negative m every failure does. |
| `StepLog.LogTellsFailures` | crates/kagzi-store/src/postgres/step.rs:463-552 | After begin/fail pairs the log holds one failed attempt for each error, in order. |
| `StepLog.BeginOpensAttempt` | crates/kagzi-store/src/postgres/step.rs:346-373 | A begin appends a running attempt with its kind, input and policy, unless the memo answers. |
| `StepLog.CompleteShowsOutput` | crates/kagzi-store/src/postgres/step.rs:384-455 | A completed step shows the output, on the attempt in progress or on a new one after a failure. |
| `StepLog.FailShowsMessage` | crates/kagzi-store/src/postgres/step.rs:480-543 | A failed step shows the message; a new attempt is written exactly for a final error with none in progress. |
| `StepLog.WakeEndsOpenSleeps` | crates/kagzi-store/src/postgres/step.rs:555-568 | Waking changes exactly the open sleeps and leaves them over. |
| `StepLog.LifecycleShowsEvent` | crates/kagzi-store/src/postgres/step.rs:571-662 | Each lifecycle event has its own step, which shows its status, payload and error. |
| `StepLog.HistoryIsAppendOnly` | crates/kagzi-store/src/postgres/step.rs:346-373 | Earlier attempts never change, none disappears, and kind, input and policy are fixed at insertion, over all call sequences. |
| `StepTable.SelectReadsLast` | crates/kagzi-store/src/postgres/step.rs:149-174 | The flagged row that the statements select is the last attempt of the log, and its number is the length of the log. |
| `StepTable.NextAttemptNumber` | crates/kagzi-store/src/postgres/step.rs:122-147 | MAX(attempt_number) is the number of attempts, so the inserted row gets the next one. |
| `StepTable.AffectedCountsRunning` | crates/kagzi-store/src/postgres/step.rs:396-413 | The UPDATE of the running current row reaches one row if the last attempt is running and none otherwise. |
| `StepTable.RewriteRefines` | crates/kagzi-store/src/postgres/step.rs:396-413 | An UPDATE of the flagged row rewrites exactly the last attempt of one step. |
| `StepTable.WakeAllRefines` | crates/kagzi-store/src/postgres/step.rs:555-568 | The UPDATE of pending sleeps wakes every open sleep of one run and nothing else. |
| `StepTable.RetireInsertRefines` | crates/kagzi-store/src/postgres/step.rs:346-373 | Retiring the flagged row and inserting a new one appends one attempt and keeps numbers 1..n with only row n flagged. |
| `StepTable.StepRepository.Begin` | crates/kagzi-store/src/postgres/step.rs:317-381 | Refines StepLog.Begin on one step and leaves all other logs alone; payload limit. |
| `StepTable.StepRepository.Complete` | crates/kagzi-store/src/postgres/step.rs:384-455 | Refines StepLog.Complete; NotFound without an attempt; payload limit. |
| `StepTable.StepRepository.Fail` | crates/kagzi-store/src/postgres/step.rs:463-552 | Refines StepLog.Fail; the reply says whether a retry was scheduled and after which delay. |
| `StepTable.StepRepository.CompletePendingSleeps` | crates/kagzi-store/src/postgres/step.rs:555-568 | Wakes every open sleep of the run; the logs of other runs stand. |
| `StepTable.StepRepository.ListOne` | crates/kagzi-store/src/postgres/step.rs:261-314 | A page of one attempt of a step is its oldest. |
| `StepTable.StepRepository.RecordLifecycleEvent` | crates/kagzi-store/src/postgres/step.rs:571-662 | Writes only the reserved step of the event. |
| `RetryPolicies.MergeProtoPolicy` | crates/kagzi-server/src/helpers.rs:133-162 | The field-by-field merge; it yields a policy exactly if request or fallback has one. |
| `RetryPolicies.EffectivePolicy` | crates/kagzi-server/src/worker_service.rs:433-451 | Through start-time merge, storage, begin-time merge, COALESCE and default, each field is the first one set among step request, workflow request and defaults; maximum_attempts is never 0. |
| `WorkerServices.WorkerService.Heartbeat` | crates/kagzi-server/src/worker_service.rs:171-225 | NotFound exactly for unknown or offline workers; otherwise the beat, the extension of all runs the worker holds, and whether it is to drain. |
| `WorkerServices.WorkerService.PollTask` | crates/kagzi-server/src/worker_service.rs:272-409 | Admits exactly an online worker polling its own namespace and queue for some type it registered. With statements of others between the polls, a claim is a first available run at one of them, of that namespace and queue and of a type registered and asked for, locked by the worker, with its sleeps woken if the update goes through; no claim means that none was eligible at any of them. |
| `WorkerServices.WhoMayPoll` | crates/kagzi-server/src/worker_service.rs:278-325 | The admission of a poll, condition by condition. |
| `WorkerServices.ClaimIsForWorker` | crates/kagzi-server/src/worker_service.rs:331-409 | A claimed run has the namespace, queue and a type of the poll and is locked by its worker. |
| `WorkerServices.Admission` | crates/kagzi-server/src/worker_service.rs:65-105 | NotFound exactly for unknown runs, FailedPrecondition exactly for COMPLETED, FAILED and CANCELLED ones. |
| `WorkerServices.EffectiveTypes` | crates/kagzi-server/src/worker_service.rs:316-321 | Exactly the types both registered and requested. |
| `WorkerServices.EffectiveTypesKeepOrder` | crates/kagzi-server/src/worker_service.rs:316-321 | They keep the order and repetition of the registration. |
| `WorkerServices.WorkerService.Deregister` | crates/kagzi-server/src/worker_service.rs:228-263 | Drains the worker, still accepted, or takes it offline, no longer accepted; other workers stand. |
| `WorkerServices.WorkerService.BeginStep` | crates/kagzi-server/src/worker_service.rs:418-471 | Admission, limit and merged policy; the log afterwards is that of begin, the extra complete of a finished sleep included. |
| `WorkerServices.WorkerService.CompleteStep` | crates/kagzi-server/src/worker_service.rs:480-525 | Admission errors, limit, NotFound, the log of complete, the oldest attempt as the reply, and exactly when that is the latest. |
| `WorkerServices.WorkerService.FailStep` | crates/kagzi-server/src/worker_service.rs:534-583 | Fails the attempt and puts the run back exactly if a retry was scheduled; on a terminal run the row stands and the log is rewritten unless there is none or a failure is repeated. |
| `WorkerServices.WorkerService.CompleteWorkflow` | crates/kagzi-server/src/worker_service.rs:586-630 | Admission, limit, the guarded transition, and no ordinary step touched. |
| `WorkerServices.WorkerService.FailWorkflow` | crates/kagzi-server/src/worker_service.rs:633-685 | Admission, the guarded transition, and no ordinary step touched. |
| `WorkerServices.WorkerService.Sleep` | crates/kagzi-server/src/worker_service.rs:688-721 | Schedules the sleep; below one second it does nothing. |
| `Runs.StatementOnRow` | crates/kagzi-store/src/postgres/workflow/state.rs:332-501 | No statement breaks the row invariant, leaves a terminal status, counts a claim other than the poll that chose the row, or makes anything else RUNNING. |
| `Runs.StatementAddsRows` | crates/kagzi-store/src/postgres/workflow/state.rs:47-94 | Rows come only from the two inserts, waiting, unlocked and never attempted. |
| `Runs.StatementKeepsInvariant` | crates/kagzi-store/src/postgres/workflow/helpers.rs:84-107 | Every statement keeps the table invariant. |
| `Runs.CompleteWritesOutput` | crates/kagzi-store/src/postgres/workflow/state.rs:387-427 | Completing leaves a run COMPLETED with the output if and only if it was RUNNING or COMPLETED; in any other status the output is written and the status stays. |
| `Runs.OutputWithoutCompletion` | crates/kagzi-store/src/postgres/workflow/state.rs:404-424 | A sleeping run that is given an output. |
| `Runs.FirstAvailableExists` | crates/kagzi-store/src/postgres/workflow/queue.rs:28-41 | When a run is eligible there is a first available one to claim. |
| `RunRepositories.RunRepository.Create` | crates/kagzi-store/src/postgres/workflow/state.rs:47-94 | The inserted row, column by column, or the payload error and no change. |
| `RunRepositories.RunRepository.PollWorkflow` | crates/kagzi-store/src/postgres/workflow/queue.rs:17-70 | A claimed row had the filter's namespace and queue, a requested type, a waiting status and a time that has come, none of them earlier elsewhere, and becomes RUNNING under the worker's lock for the visibility timeout; nothing is claimed only if no row has all of these. |
| `RunRepositories.RunRepository.Cancel` | crates/kagzi-store/src/postgres/workflow/state.rs:332-384 | The two guarded updates cancel exactly PENDING, RUNNING and SLEEPING runs of the namespace. |
| `RunRepositories.RunRepository.Complete` | crates/kagzi-store/src/postgres/workflow/state.rs:387-427 | Guarded transition; the output is written whatever the status. |
| `RunRepositories.RunRepository.Fail` | crates/kagzi-store/src/postgres/workflow/state.rs:430-442 | Guarded transition of RUNNING runs. |
| `RunRepositories.RunRepository.ScheduleSleep` | crates/kagzi-store/src/postgres/workflow/state.rs:445-472 | RUNNING runs only: asleep, unlocked, available at now + secs. |
| `RunRepositories.RunRepository.ScheduleRetry` | crates/kagzi-store/src/postgres/workflow/state.rs:475-501 | RUNNING runs only: pending, unlocked, available at now + delay. |
| `RunRepositories.RunRepository.ExtendVisibility` | crates/kagzi-store/src/postgres/workflow/state.rs:834-852 | Every RUNNING run the worker holds moves on from the later of its available_at and now; their number is returned. |
| `RunRepositories.RunRepository.CreateScheduleInstance` | crates/kagzi-store/src/postgres/workflow/state.rs:672-723 | Inserts unless the schedule is missing or a row of it stands on the slot; the new row has the template's namespace, queue, type, input and policy and waits at the slot. |
| `RunRepositories.RunRepository.UpdateNextFire` | crates/kagzi-store/src/postgres/workflow/state.rs:726-760 | Sets available_at, and last_fired_at when given. |
| `RunRepositories.RunRepository.Update` | crates/kagzi-store/src/postgres/workflow/state.rs:763-791 | Writes the schedule columns unconditionally. |
| `Workers.WorkerRepository.Heartbeat` | crates/kagzi-store/src/postgres/worker.rs:109-124 | Accepted exactly for known workers that are not offline. |
| `Liveness.SweepTakesExactlyTheStale` | crates/kagzi-store/src/postgres/worker.rs:248-263 | The sweep takes offline exactly the stale workers; a worker that beat within the threshold is left as it is and still accepted. |
| `Liveness.BeatingWorkersStayAccepted` | crates/kagzi-store/src/postgres/worker.rs:109-124 | Over every run, a worker that beats within the threshold and does not deregister stays accepted. |
| `Liveness.OfflineRevivedExactlyByDrain` | crates/kagzi-store/src/postgres/worker.rs:127-141 | One event makes an offline worker accepted again if and only if it starts draining that worker in its namespace. |
| `Liveness.OfflineStaysOffline` | crates/kagzi-store/src/postgres/worker.rs:109-124 | Over every run, an offline worker that is not drained stays offline. |
| `Fencing.OneLiveExecutor` | crates/kagzi-store/src/postgres/workflow/queue.rs:28-49 | Under executors that keep time, over every run with losses, reports and re-claims, each claim of a run finds nobody executing it. |
| `Fencing.CoverStep` | crates/kagzi-store/src/postgres/workflow/state.rs:834-852 | At every moment a live executor of a run that is not over holds its lease at least until its next heartbeat is due. |
| `Fencing.DrainIsSafeIffLeaseOutlasts` | sdk/kagzi-rs/src/worker.rs:384-417 | An execution that goes on without heartbeats is sure not to become claimable before it ends if and only if it ends before its lease. |
| `Leases.InvariantHolds` | crates/kagzi-store/src/postgres/workflow/state.rs:332-501 | RUNNING iff locked; terminal iff not available iff finished; COMPLETED has output: in every reachable table. |
| `Leases.RowHistory` | crates/kagzi-store/src/postgres/workflow/queue.rs:42-49 | Over every run terminal statuses are final and attempts counts the claims. |
| `Leases.StatusHistory` | crates/kagzi-store/src/postgres/workflow/state.rs:332-501 | Over every run: terminal runs and templates stay so, ordinary runs never become templates, and without a claim a run that is not RUNNING keeps its status or is cancelled. |
| `Leases.IdentityIsFixed` | crates/kagzi-store/src/postgres/workflow/state.rs:332-501 | Over every run the identity, queue, input and policy of a run, its first start and its end are fixed. |
| `Leases.LeaseStep` | crates/kagzi-store/src/postgres/workflow/state.rs:834-852 | One event other than a release leaves a punctual holder's lease, or extends it by one extension. |
| `Leases.ExclusiveLease` | crates/kagzi-store/src/postgres/workflow/state.rs:834-852 | Under a punctual holder available_at is exactly k extensions later after k heartbeats, stays in the future, and nobody else claims the run. |
| `Leases.ExtensionOvershoots` | crates/kagzi-store/src/postgres/workflow/state.rs:834-852 | After an extension the lease ends within one extension from now if and only if it was over before. |
| `Leases.LeaseRunsAhead` | crates/kagzi-store/src/postgres/workflow/state.rs:834-852 | Under a punctual holder the end of the lease runs away from the next due heartbeat, further with every heartbeat. |
| `Leases.LeaseFromClaim` | crates/kagzi-store/src/postgres/workflow/queue.rs:28-49 | The same counted from the claim: claim time + visibility + k extensions. |
| `Leases.BarrierHolds` | crates/kagzi-store/src/postgres/workflow/state.rs:445-501 | A run that is not running and not available before an instant is not claimed before it. |
| `Leases.SleepAndRetryBarrier` | crates/kagzi-store/src/postgres/workflow/state.rs:445-501 | After schedule_sleep or schedule_retry nothing that anyone does claims the run before the delay is over. |
| `Leases.DueWhenDelayIsOver` | crates/kagzi-store/src/postgres/workflow/state.rs:445-501 | A run put to sleep or back for a retry is eligible in its queue from the end of the delay on, in seconds and milliseconds, and not before. |
| `Queueing.LateComersStayBehind` | crates/kagzi-store/src/postgres/workflow/state.rs:454-489 | Once the clock has passed an instant, whatever enters or re-enters the queue stands behind it, but for an instance inserted for an earlier slot. |
| `Queueing.PollShrinksAhead` | crates/kagzi-store/src/postgres/workflow/queue.rs:28-49 | A poll of the queue that leaves a due run standing takes one of those ahead of it, and only an instance inserted for an earlier slot joins them. |
| `Queueing.OvertakingIsBounded` | crates/kagzi-store/src/postgres/workflow/queue.rs:28-49 | Polls that leave the run standing number at most the runs ahead of it and the instances inserted for earlier slots meanwhile. |
| `Queueing.UnclaimedStands` | crates/kagzi-store/src/postgres/workflow/queue.rs:28-49 | A run that nobody acts for, orphaned under a lease included, leaves its place only by a claim. |
| `Queueing.BoundedOvertaking` | crates/kagzi-store/src/postgres/workflow/queue.rs:28-49 | More polls than there are runs ahead and instances inserted for earlier slots claim a due run, waiting, asleep or orphaned, whatever else happens. |
| `Queueing.OtherQueuesNeverClaim` | crates/kagzi-store/src/postgres/workflow/queue.rs:28-49 | Polls of other namespaces, queues or types never claim a run, whatever else happens. |
| `CronSlots.AfterIsLeast` | crates/kagzi-server/src/coordinator.rs:211-215 | The next slot after an instant is the least one. |
| `CronSlots.TakeIsRange` | crates/kagzi-server/src/coordinator.rs:138-142 | The missed slots are the consecutive ones after the cursor through now. |
| `CronSlots.NthIsIndexed` | crates/kagzi-server/src/coordinator.rs:145-163 | nth(n) after an instant is the n-th of the consecutive slots. |
| `Catchup.SkipPrecision` | crates/kagzi-server/src/coordinator.rs:142-163 | A skip lands on a missed slot after the cursor and not after now, and leaves exactly the max_catchup most recent slots. |
| `Catchup.ResumeReplaysThePause` | crates/kagzi-server/src/workflow_schedule_service.rs:496-535 | The first tick after a resume goes back into the pause if and only if the missed slots exceed the limit and those since the resume fall short of it. |
| `Catchup.NegativeLimitSkipsBeyondItsImage` | crates/kagzi-server/src/coordinator.rs:145-163 | A negative max_catchup skips if and only if more slots are missed than 2^64 minus its magnitude. |
| `Catchup.TickMoves` | crates/kagzi-server/src/coordinator.rs:120-222 | Where each branch takes available_at and the cursor, in slots, from either phase. |
| `Catchup.NoSlotFiresTwice` | crates/kagzi-server/src/coordinator.rs:93-222 | Over every history of ticks, pauses, resumes, upserts and cron changes the slots asked for strictly increase. |
| `Catchup.PausedFiresNothing` | crates/kagzi-server/src/workflow_schedule_service.rs:466-494 | A paused schedule asks for nothing and keeps its times until it is resumed or upserted. |
| `Catchup.SlotAccounting` | crates/kagzi-server/src/coordinator.rs:137-221 | Without pause or upsert, the slots from creation to available_at are exactly those asked for and those skipped, each once and in order. |
| `Catchup.NoSlotIsLost` | crates/kagzi-server/src/coordinator.rs:137-221 | If no tick misses more than max_catchup, every slot up to available_at was asked for, once and in order. |
| `Catchup.BacklogBound` | crates/kagzi-server/src/coordinator.rs:120-163 | After every processed tick at most 2 * max_catchup - 1 slots wait, and none when it is 0. |
| `Instances.TablesTellHistory` | crates/kagzi-server/src/coordinator.rs:93-222 | Whatever others do in the store, the columns of a template tell a history of its own ticks, so the theorems on slots hold of it. |
| `Instances.EverySlotHasItsRun` | crates/kagzi-store/src/postgres/workflow/state.rs:672-723 | Over every history of the store, the runs of a schedule are exactly those of the slots asked for whose insert was not dropped, one run a slot, and each still has the namespace, queue, type, input and policy of its template. |
| `Instances.DroppedIffTaken` | crates/kagzi-store/src/postgres/workflow/state.rs:672-723 | No slot is dropped if and only if no row of the schedule stands on any slot when it is asked for. |
| `Instances.NoSlotLosesItsRun` | crates/kagzi-server/src/coordinator.rs:137-221 | A schedule that keeps up, and on whose slots no row of it stands when they are due, gets one run, a copy of the template, for every slot from its creation to available_at. |
| `Instances.SleepingInstanceTakesSlot` | crates/kagzi-store/src/postgres/workflow/state.rs:445-472 | An instance that sleeps until exactly the next slot takes it: the tick advances past the slot and creates no run. |
| `Coordinators.Coordinator.Process` | crates/kagzi-server/src/coordinator.rs:93-222 | One template: the table is that of Processed, true is returned exactly if the new row is there, and then that row is a copy of the template in its own queue, eligible at once. |
| `Coordinators.InstanceCanBePolled` | crates/kagzi-store/src/postgres/workflow/state.rs:689-707 | After a tick that inserts, a poll in the template's namespace and queue for its type finds the instance eligible and claims some run. |
| `Coordinators.InstanceNamesDiffer` | crates/kagzi-store/src/postgres/workflow/state.rs:715-718 | No two identifiers give one external id. |
| `Coordinators.Coordinator.FireDueSchedules` | crates/kagzi-server/src/coordinator.rs:70-230 | The rows of the batch are visited in order, those without an expression passed over; the reply counts the instances created, and an unreadable expression ends the tick. |
| `Coordinators.EachShowsItsTick` | crates/kagzi-server/src/coordinator.rs:93-222 | If no due schedule belongs to another one, the visits do not get in each other's way: each template shows its own tick and nothing else changes. |
| `Coordinators.OnlyDueSchedulesMove` | crates/kagzi-server/src/coordinator.rs:70-230 | A row that is not SCHEDULED, or whose time has not come, is left alone by the whole tick. |
| `Coordinators.EveryDueScheduleIsVisited` | crates/kagzi-store/src/postgres/workflow/state.rs:578-665 | A tick visits exactly the due schedules if no more are due than it may take. |
| `Coordinators.MarkStaleWorkers` | crates/kagzi-server/src/coordinator.rs:232-241 | The other half of the round takes offline exactly the stale workers. |
| `Coordinators.SlotTakenStill` | crates/kagzi-server/src/coordinator.rs:176-205 | Processing other templates neither takes nor frees a slot. |
| `Coordinators.InstanceStays` | crates/kagzi-store/src/postgres/workflow/state.rs:672-723 | Only a claim or a cancellation moves an instance off its slot. |
| `Coordinators.CrashBeforeAdvance` | crates/kagzi-server/src/coordinator.rs:176-221 | After a stop between creating an instance and advancing the template, the repeated tick creates a second instance exactly if no row stands on the slot, none while the first is untouched, and advances as if uninterrupted. |
| `Coordinators.ClaimedInstanceIsDuplicated` | crates/kagzi-store/src/postgres/workflow/state.rs:672-723 | If the instance is claimed in between, the repeated tick creates a second one for the slot. |
| `ScheduleServices.ScheduleService.CreateWorkflowSchedule` | crates/kagzi-server/src/workflow_schedule_service.rs:113-222 | Upsert: an Ok reply leaves a row active under the namespace and `schedule:` + id, under the new expression and due at its least slot after now; an active row is rewritten, keeping last_fired_at and its queue, type and input, and none is added; otherwise one is, with the request's queue, type and input; exact errors, the late one included. |
| `ScheduleServices.SecondCallAddsNothing` | crates/kagzi-server/src/workflow_schedule_service.rs:136-177 | After an Ok, whatever happens in the store, a second call with the same namespace and schedule id adds no row while the row of the first is not terminal, and rewrites that one if no other is active under the id. |
| `ScheduleServices.ScheduleService.UpdateWorkflowSchedule` | crates/kagzi-server/src/workflow_schedule_service.rs:306-385 | Enabling is resume and disabling is pause; a new expression is checked and dropped; exact errors, before and after the write. |
| `ScheduleServices.ScheduleService.PauseWorkflowSchedule` | crates/kagzi-server/src/workflow_schedule_service.rs:466-494 | Sets a row to PAUSED and keeps its times; a terminal row is refused by the table, and a row that is no schedule is written before the answer fails. |
| `ScheduleServices.ScheduleService.ResumeWorkflowSchedule` | crates/kagzi-server/src/workflow_schedule_service.rs:496-535 | Starts the row at the least slot after now under its expression; refuses a row without a readable one; exact errors. |
| `ScheduleServices.WroteTemplate` | crates/kagzi-server/src/workflow_schedule_service.rs:139-167 | On a template, upsert, pause and resume are the template steps whose histories Catchup describes. |
| `ScheduleServices.ScheduleWritesKeepInvariant` | crates/kagzi-server/src/workflow_schedule_service.rs:139-167 | Pause, resume and upsert keep the row invariant of a row if and only if it is neither RUNNING nor terminal. |
| `ScheduleServices.PausedRunKeepsItsLock` | crates/kagzi-server/src/workflow_schedule_service.rs:466-494 | A claimed run that is paused as a schedule keeps its lock. |
| `ScheduleServices.CreatedIsTemplate` | crates/kagzi-server/src/workflow_schedule_service.rs:169-213 | A created schedule is a template that has never fired. |
| `Paging.NormalizePageSize` | crates/kagzi-server/src/helpers.rs:172-178 | The default for a size below 1, the maximum for one above it, and any other size as requested. |
| `Paging.TakePage` | crates/kagzi-store/src/postgres/worker.rs:223-245 | The loop over the fetched rows builds the page: items, cursor, has_more. |
| `Paging.PageCovers` | crates/kagzi-store/src/postgres/step.rs:261-314 | A row after the cursor is on the page or after the next cursor. |
| `Paging.WalkIsSorted` | crates/kagzi-store/src/postgres/workflow/state.rs:193-243 | A walk over a changing table lists strictly in key order: no row twice. |
| `Paging.WalkIsSound` | crates/kagzi-store/src/postgres/workflow/state.rs:193-243 | Every listed row was in a table that was read. |
| `Paging.WalkIsComplete` | crates/kagzi-store/src/postgres/step.rs:261-314 | A finished walk has listed every row that was there throughout. |
| `Paging.WalkEndsOnceGrowthStops` | crates/kagzi-store/src/postgres/workflow/state.rs:193-243 | A walk ends with has_more false once the table stops growing, whatever was inserted before that and deleted after it. |
| `Paging.ShrinkingWalkEnds` | crates/kagzi-store/src/postgres/step.rs:261-314 | Over a table that does not grow, more calls than rows to list end the walk. |
| `Paging.WalkIsSortedList` | crates/kagzi-store/src/postgres/workflow/state.rs:193-243 | Over a table at rest the walk is the sorted list. |
| `TokenText.IntRoundTrip` | crates/kagzi-server/src/helpers.rs:180-205 | Every i64 comes back from its decimal text. |
| `TokenText.UuidRoundTrip` | crates/kagzi-server/src/admin_service.rs:62-91 | Every identifier comes back from its hyphenated text (section 4 of RFC 9562); it is the whole token of the worker listing. |
| `TokenText.Base64RoundTrip` | crates/kagzi-server/src/helpers.rs:180-192 | Decoding an encoding gives the bytes back (section 4 of RFC 4648). |
| `TokenText.ShortEncodings` | crates/kagzi-server/src/helpers.rs:180-192 | The examples of section 10 of RFC 4648. |
| `TokenText.Base64IsCanonical` | crates/kagzi-server/src/helpers.rs:186-192 | Decoding accepts nothing but encodings. |
| `CursorToken.TokenRoundTrip` | crates/kagzi-server/src/helpers.rs:180-214 | Every in-range millisecond, negative ones included, and every identifier comes back from its token. |
| `CursorToken.TokensTruncate` | crates/kagzi-server/src/helpers.rs:180-214 | Walking with tokens is walking with cursors cut to their millisecond. |
| `CursorToken.TokenWalkIsWalk` | crates/kagzi-server/src/helpers.rs:180-214 | Token-driven walks equal store walks when every created_at is a whole millisecond. |
| `CursorToken.TokenLeavesSameRows` | crates/kagzi-server/src/helpers.rs:180-214 | A token leaves the same rows as its cursor exactly if no row is misread. |
| `CursorToken.TokenListingIsSortedList` | crates/kagzi-server/src/admin_service.rs:200-235 | Over a table at rest a client gets the sorted list for every page size if and only if no page with rows after it can end inside a millisecond that its token splits. |
| `CursorToken.DescendingNeverRepeats` | crates/kagzi-store/src/postgres/workflow/state.rs:193-243 | Whatever the timestamps, a descending client never sees a row twice. |
| `CursorToken.AscendingNeverLoses` | crates/kagzi-store/src/postgres/step.rs:261-314 | Whatever the timestamps, an ascending client that reaches the end has seen every row that stayed. |
| `CursorToken.AscendingStalls` | crates/kagzi-store/src/postgres/step.rs:261-314 | An ascending client with pages of one row gets a first row created inside a millisecond for ever. |

## Left out

- Time and row columns that nothing reads: created, started and finished times of attempts, labels, versions, parents, and the number of sleeps that `complete_pending_sleeps` reports.
- Backoff delays: the library with jitter is replaced by an arbitrary non-negative delay.
- The cron parser and the fallback of 365 days: an expression is an unbounded increasing set of slots, or unreadable.
- The rate limiter: its answers are a parameter. The queue notifier and the wait between polls: poll instants are a parameter, and no wake-up is promised.
- SQL isolation, row locks and connection errors of the database.
- Worker registration: only that it inserts a worker or refreshes one that is not offline.
- The uniqueness of active external ids and the deletion of schedules.
- Triggering, retrying and terminating workflows, `mark_exhausted_with_increment`, `create_batch`, namespaces, statistics and the other listings: more transitions of the same kind, or reads.
- `sleep_until`: it reads the worker's clock, so the code that uses it is not deterministic.
- Replay.InvariantHolds: calls that the server would refuse for a terminal run may also go through in the protocol, which only adds runs; a refusal is an error raised into the code.
- Execution.Executor.Execute: promises an end only for code that makes no more calls than there are turns, whatever it obtains.
- WorkerServices.WorkerService.Heartbeat: the beat and the extension are two statements, taken as one step.
- WorkerServices.WorkerService.PollTask: does not let others write steps between the polls of one call.
- SdkContext.Context.Commit: does not let others act within the call; `Execution.Executor.Commit` does.
- SdkContext.Context.Step: does not let others act within the call; `Execution.Executor.Step` does.
- SdkContext.Context.Sleep: does not let others act within the call; `Execution.Executor.Sleep` does.
- An UPDATE that would put two rows of a schedule on one instant, which the unique index refuses.
- Catchup.SlotAccounting: does not cover pause, resume and upsert, after which slots are dropped or revisited as `Catchup.ResumeReplaysThePause` says.
- Paging.WalkIsComplete: rows that a filter lets in or drops during the walk count as inserted or deleted.
- The payload codec, UTF-8 beyond ASCII in tokens (refused either way), and gRPC transport details other than lost requests and lost replies.
