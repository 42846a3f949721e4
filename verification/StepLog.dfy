/** The abstract attempt log of one step of one run: a sequence of attempts of which only the last
    is current. The operations of the step repository are functions on it. */
module StepLog {
  import opened Basics
  import opened RetryPolicies

  datatype StepKind =
    | FunctionKind | SleepKind
    | WorkflowStarted | WorkflowCompleted | WorkflowFailed | WorkflowCancelled
  {
    predicate IsLifecycle() {
      !FunctionKind? && !SleepKind?
    }
  }

  datatype StepStatus = Running | Completed | Failed

  datatype Attempt = Attempt(
    kind: StepKind,
    status: StepStatus,
    input: Option<Bytes>,
    output: Option<Bytes>,
    error: Option<string>,
    policy: Option<RetryPolicy>)

  type Log = seq<Attempt>

  datatype BeginReply = BeginReply(shouldExecute: bool, cachedOutput: Option<Bytes>)

  function Last(log: Log): Attempt
    requires log != []
  {
    log[|log| - 1]
  }

  function SetLast(log: Log, a: Attempt): (r: Log)
    requires log != []
    ensures |r| == |log| && Last(r) == a && r[..|log| - 1] == log[..|log| - 1]
  {
    log[|log| - 1 := a]
  }

  predicate InProgress(log: Log) {
    log != [] && Last(log).status == Running
  }

  predicate Done(log: Log) {
    log != [] && Last(log).status == Completed
  }

  function BeginReplyFor(log: Log): BeginReply {
    if Done(log) then BeginReply(false, Last(log).output) else BeginReply(true, None)
  }

  function Begin(log: Log, kind: StepKind, input: Option<Bytes>, policy: Option<RetryPolicy>): Log {
    if Done(log) then log else log + [Attempt(kind, Running, input, None, None, policy)]
  }

  /** An empty log is the store's NotFound; the caller reports it. */
  function Complete(log: Log, output: Bytes): Log {
    if log == [] || Done(log) then log
    else if InProgress(log) then
      SetLast(log, Last(log).(status := Completed, output := Some(output)))
    else
      log + [Attempt(Last(log).kind, Completed, None, Some(output), None, None)]
  }

  /** Whether failing the current attempt schedules a retry of the workflow. */
  predicate WillRetry(log: Log, runPolicy: Option<RetryPolicy>, error: StepError)
    requires log != []
  {
    var policy := PolicyAtFailure(Last(log).policy, runPolicy);
    !error.nonRetryable && !IsNonRetryable(policy, error.message) && ShouldRetry(policy, |log|)
  }

  /** The retry branch marks the current attempt failed whatever its status; the final branch marks
      a running attempt and otherwise adds a failed one. */
  function Fail(log: Log, runPolicy: Option<RetryPolicy>, error: StepError): Log {
    if log == [] then log
    else if WillRetry(log, runPolicy, error) || InProgress(log) then
      SetLast(log, Last(log).(status := Failed, error := Some(error.message)))
    else
      log + [Attempt(Last(log).kind, Failed, None, None, Some(error.message), None)]
  }

  /** `complete_pending_sleeps` on one step. */
  function Wake(log: Log): Log {
    if InProgress(log) && Last(log).kind.SleepKind? then SetLast(log, Last(log).(status := Completed)) else log
  }

  function LifecycleStatus(kind: StepKind): StepStatus {
    if kind.WorkflowFailed? then Failed else Completed
  }

  /** Step names that programs leave to lifecycle events. */
  predicate Reserved(name: string) {
    "__lifecycle:" <= name
  }

  /** Reserved step name of a lifecycle event. */
  function LifecycleStep(kind: StepKind): (name: string)
    requires kind.IsLifecycle()
    ensures Reserved(name)
  {
    "__lifecycle:" + match kind
                     case WorkflowStarted => "workflow_started"
                     case WorkflowCompleted => "workflow_completed"
                     case WorkflowFailed => "workflow_failed"
                     case _ => "workflow_cancelled"
  }

  function Lifecycle(log: Log, kind: StepKind, output: Option<Bytes>, error: Option<string>): Log {
    if log == [] then [Attempt(kind, LifecycleStatus(kind), None, output, error, None)]
    else SetLast(log, Last(log).(status := LifecycleStatus(kind), output := output, error := error))
  }

  /** One call addressed to this step, by any worker. */
  datatype Op =
    | BeginOp(kind: StepKind, input: Option<Bytes>, policy: Option<RetryPolicy>)
    | CompleteOp(output: Bytes)
    | FailOp(runPolicy: Option<RetryPolicy>, failure: StepError)
    | WakeOp
    | LifecycleOp(event: StepKind, payload: Option<Bytes>, text: Option<string>)

  function Apply(log: Log, op: Op): Log {
    match op
    case BeginOp(kind, input, policy) => Begin(log, kind, input, policy)
    case CompleteOp(output) => Complete(log, output)
    case FailOp(runPolicy, failure) => Fail(log, runPolicy, failure)
    case WakeOp => Wake(log)
    case LifecycleOp(event, payload, text) => Lifecycle(log, event, payload, text)
  }

  function ApplyAll(log: Log, ops: seq<Op>): Log
    decreases |ops|
  {
    if ops == [] then log else ApplyAll(Apply(log, ops[0]), ops[1..])
  }

  /** Calls on ordinary steps never carry a lifecycle event: those use reserved step names. */
  predicate OrdinaryCalls(ops: seq<Op>) {
    forall i :: 0 <= i < |ops| ==> !ops[i].LifecycleOp?
  }

  predicate NoFail(ops: seq<Op>) {
    forall i :: 0 <= i < |ops| ==> !ops[i].FailOp?
  }

  /** First writer wins: while nobody fails the completed step, its whole log stands still, so every
      later begin is answered from the memo with the first output. */
  lemma {:induction false} FirstWriterWins(log: Log, ops: seq<Op>)
    requires Done(log) && OrdinaryCalls(ops) && NoFail(ops)
    ensures ApplyAll(log, ops) == log
    ensures BeginReplyFor(ApplyAll(log, ops)) == BeginReply(false, Last(log).output)
    decreases |ops|
  {
    if ops != [] {
      assert !ops[0].LifecycleOp? && !ops[0].FailOp?;
      FirstWriterWins(Apply(log, ops[0]), ops[1..]);
    }
  }

  /** `fail` is the only ordinary call that takes a completion away, and it always does. */
  lemma CompletionLostExactlyByFail(log: Log, op: Op)
    requires Done(log) && !op.LifecycleOp?
    ensures Done(Apply(log, op)) <==> !op.FailOp?
    ensures op.FailOp? ==> Last(Apply(log, op)).status == Failed
  {
    if op.FailOp? {
      assert Last(Apply(log, op)).status == Failed;
    }
  }

  /** Attempts before the current one are never touched, no attempt disappears, and the kind, input
      and policy of an attempt are fixed when it is written. */
  lemma {:induction false} HistoryIsAppendOnly(log: Log, ops: seq<Op>)
    ensures |log| <= |ApplyAll(log, ops)|
    ensures forall i :: 0 <= i < |log| - 1 ==> ApplyAll(log, ops)[i] == log[i]
    ensures forall i :: 0 <= i < |log| ==>
              var a := ApplyAll(log, ops)[i];
              a.kind == log[i].kind && a.input == log[i].input && a.policy == log[i].policy
    decreases |ops|
  {
    if ops != [] {
      var next := Apply(log, ops[0]);
      assert |log| <= |next|;
      assert forall i :: 0 <= i < |log| - 1 ==> next[i] == log[i];
      HistoryIsAppendOnly(next, ops[1..]);
    }
  }

  /** A begin that is not answered from the memo opens a new attempt as it was asked for, after all others. */
  lemma BeginOpensAttempt(log: Log, kind: StepKind, input: Option<Bytes>, policy: Option<RetryPolicy>)
    ensures var after := Begin(log, kind, input, policy);
            if BeginReplyFor(log).shouldExecute then
              && |after| == |log| + 1 && after[..|log|] == log && InProgress(after)
              && Last(after).kind == kind && Last(after).input == input && Last(after).policy == policy
              && Last(after).output.None? && Last(after).error.None?
            else after == log && Done(log) && BeginReplyFor(log).cachedOutput == Last(log).output
  {
  }

  /** A step that is completed shows the output, unless it had one already; an attempt in progress is the
      one that is completed, and after a failed one a new attempt is. */
  lemma CompleteShowsOutput(log: Log, output: Bytes)
    requires log != []
    ensures var after := Complete(log, output);
            && Done(after) && Last(after).kind == Last(log).kind
            && (if Done(log) then after == log else Last(after).output == Some(output))
            && |after| == (if Last(log).status.Failed? then |log| + 1 else |log|)
            && (Last(log).status.Failed? ==> after[..|log|] == log)
  {
  }

  /** A failed step shows the message on its last attempt, which is a new one exactly if the error is final
      and no attempt was in progress. */
  lemma FailShowsMessage(log: Log, runPolicy: Option<RetryPolicy>, error: StepError)
    requires log != []
    ensures var after := Fail(log, runPolicy, error);
            && Last(after).status.Failed? && Last(after).error == Some(error.message)
            && Last(after).kind == Last(log).kind
            && |after| == (if WillRetry(log, runPolicy, error) || InProgress(log) then |log| else |log| + 1)
  {
  }

  /** Waking touches open sleeps and nothing else, and leaves them over, without an output. */
  lemma WakeEndsOpenSleeps(log: Log)
    ensures Wake(log) != log <==> log != [] && Last(log).kind.SleepKind? && Last(log).status.Running?
    ensures Wake(log) != log ==>
              Done(Wake(log)) && |Wake(log)| == |log| && Last(Wake(log)).output == Last(log).output
  {
    assert InProgress(log) ==> SetLast(log, Last(log).(status := Completed)) != log;
  }

  /** A lifecycle event is shown by its step: failed for a failed workflow, completed for any other. */
  lemma LifecycleShowsEvent(log: Log, kind: StepKind, output: Option<Bytes>, error: Option<string>)
    requires kind.IsLifecycle()
    ensures var after := Lifecycle(log, kind, output, error);
            && after != [] && (log != [] ==> |after| == |log|)
            && Last(after).status == (if kind == WorkflowFailed then Failed else Completed)
            && Last(after).output == output && Last(after).error == error
    ensures forall other: StepKind :: other.IsLifecycle() && LifecycleStep(other) == LifecycleStep(kind) ==>
                                        other == kind
  {
    forall k: StepKind | k.IsLifecycle()
      ensures |LifecycleStep(k)| > 22
      ensures LifecycleStep(k)[21] == if k.WorkflowStarted? then 's' else if k.WorkflowFailed? then 'f' else 'c'
      ensures k.WorkflowCompleted? ==> LifecycleStep(k)[22] == 'o'
      ensures k.WorkflowCancelled? ==> LifecycleStep(k)[22] == 'a'
    {
    }
  }

  /** The overwrite that the store allows: a retryable fail turns a completed attempt into a failed
      one, and a begin after it executes the step again. */
  lemma FailOverwritesCompletion()
    ensures var done := [Attempt(FunctionKind, Completed, None, Some([1]), None, None)];
            var after := Apply(done, FailOp(None, StepError("late", false, None)));
            Done(done) && |after| == 1 && Last(after).status == Failed && BeginReplyFor(after).shouldExecute
  {
    var done := [Attempt(FunctionKind, Completed, None, Some([1]), None, None)];
    assert WillRetry(done, None, StepError("late", false, None));
  }

  /** When a fail leaves the log as it was: there is none, or it repeats a retryable failure word for
      word. In every other case the log is rewritten, whatever became of the run. */
  lemma FailRewritesUnlessRepeated(log: Log, runPolicy: Option<RetryPolicy>, error: StepError)
    ensures Fail(log, runPolicy, error) == log <==>
            || log == []
            || (WillRetry(log, runPolicy, error)
                && Last(log).status == Failed && Last(log).error == Some(error.message))
  {
    if log != [] {
      var failed := Last(log).(status := Failed, error := Some(error.message));
      assert SetLast(log, failed) == log <==> failed == Last(log);
    }
  }

  /** The reply to a completion shows the oldest attempt. That is the latest one, which it is meant to
      show, if and only if there was one attempt and it had not failed. */
  lemma CompleteReplyIsLatest(log: Log, output: Bytes)
    requires log != []
    ensures |Complete(log, output)| == 1 <==> |log| == 1 && !Last(log).status.Failed?
  {
  }

  /** A second attempt completed: the reply shows the failed first one. */
  lemma CompleteReplyShowsFailure(output: Bytes)
    ensures var failed := Attempt(FunctionKind, Failed, None, None, Some("late"), None);
            var log := [failed, Attempt(FunctionKind, Running, None, None, None, None)];
            var after := Complete(log, output);
            after[0] == failed && Last(after).status.Completed? && Last(after).output == Some(output)
  {
  }

  /** A failure of the attempt that begin wrote is decided by the layered policy. */
  lemma FailureFollowsEffectivePolicy(
    log: Log, kind: StepKind, input: Option<Bytes>, step: Option<RetryPolicy>, workflow: Option<RetryPolicy>,
    error: StepError)
    requires !Done(log)
    ensures var run := StoredWithRun(workflow);
            var policy := EffectivePolicy(step, workflow);
            WillRetry(Begin(log, kind, input, StoredWithAttempt(step, run)), run, error) <==>
              !error.nonRetryable && !IsNonRetryable(policy, error.message) && ShouldRetry(policy, |log| + 1)
  {
    var run := StoredWithRun(workflow);
    assert PolicyAtFailure(StoredWithAttempt(step, run), run) == EffectivePolicy(step, workflow);
  }
  // ----- How often a step is tried -----

  /** The log after these errors, each ending an attempt that a begin of the step had started. */
  function AfterFailures(step: Option<RetryPolicy>, workflow: Option<RetryPolicy>, errors: seq<StepError>): Log
    decreases |errors|, 0
  {
    if errors == [] then []
    else
      var n := |errors| - 1;
      Fail(Tried(step, workflow, errors[..n]), StoredWithRun(workflow), errors[n])
  }

  /** ... and after the begin of the next attempt. */
  function Tried(step: Option<RetryPolicy>, workflow: Option<RetryPolicy>, errors: seq<StepError>): Log
    decreases |errors|, 1
  {
    Begin(AfterFailures(step, workflow, errors), FunctionKind, None, StoredWithAttempt(step, StoredWithRun(workflow)))
  }

  /** The maximum_attempts in force: the step's, or else the workflow's, or else 5. */
  function MaximumAttempts(step: Option<RetryPolicy>, workflow: Option<RetryPolicy>): int {
    if step.Some? && step.value.maximumAttempts != 0 then step.value.maximumAttempts
    else if workflow.Some? && workflow.value.maximumAttempts != 0 then workflow.value.maximumAttempts
    else 5
  }

  /** The message begins with none of the errors that the step's policy lists, or else the workflow's. */
  predicate Unlisted(step: Option<RetryPolicy>, workflow: Option<RetryPolicy>, message: string) {
    var listed := if step.Some? && step.value.nonRetryableErrors != [] then step.value.nonRetryableErrors
                  else if workflow.Some? then workflow.value.nonRetryableErrors
                  else [];
    forall entry :: entry in listed ==> |entry| > |message| || message[..|entry|] != entry
  }

  /** Each failure ends one attempt, and the log tells them in order. */
  lemma {:induction false} LogTellsFailures(
    step: Option<RetryPolicy>, workflow: Option<RetryPolicy>, errors: seq<StepError>)
    ensures var log := AfterFailures(step, workflow, errors);
            && |log| == |errors|
            && !Done(log)
            && forall i :: 0 <= i < |errors| ==> log[i].status == Failed && log[i].error == Some(errors[i].message)
    decreases |errors|
  {
    if errors != [] {
      var n := |errors| - 1;
      LogTellsFailures(step, workflow, errors[..n]);
      var tried := Tried(step, workflow, errors[..n]);
      assert tried == AfterFailures(step, workflow, errors[..n]) + [Last(tried)];
    }
  }

  /** The retry decision: after n failures, whatever they were, the next one schedules a retry if and only
      if its error is retryable, by flag and by prefix, and either the attempts are unlimited or one more
      is within maximum_attempts. */
  lemma RetryDecision(
    step: Option<RetryPolicy>, workflow: Option<RetryPolicy>, errors: seq<StepError>, error: StepError)
    ensures var m := MaximumAttempts(step, workflow);
            && Tried(step, workflow, errors) != []
            && (WillRetry(Tried(step, workflow, errors), StoredWithRun(workflow), error) <==>
                !error.nonRetryable && Unlisted(step, workflow, error.message)
                && (m < 0 || |errors| + 2 <= m))
  {
    LogTellsFailures(step, workflow, errors);
    var log := AfterFailures(step, workflow, errors);
    FailureFollowsEffectivePolicy(log, FunctionKind, None, step, workflow, error);
    ListedPrefix(EffectivePolicy(step, workflow), error.message);
  }

  lemma ListedPrefix(policy: RetryPolicy, message: string)
    ensures IsNonRetryable(policy, message) <==>
            exists entry :: entry in policy.nonRetryableErrors && |entry| <= |message| && message[..|entry|] == entry
  {
    if IsNonRetryable(policy, message) {
      var i :| 0 <= i < |policy.nonRetryableErrors| && policy.nonRetryableErrors[i] <= message;
      assert policy.nonRetryableErrors[i] in policy.nonRetryableErrors;
    }
    if entry :| entry in policy.nonRetryableErrors && |entry| <= |message| && message[..|entry|] == entry {
      var i :| 0 <= i < |policy.nonRetryableErrors| && policy.nonRetryableErrors[i] == entry;
    }
  }

  /** A step whose errors are retryable is tried maximum_attempts times: each of the first m - 1 failures
      schedules a retry and the m-th does not; with a negative m every failure schedules one. */
  lemma TriedMaximumAttempts(
    step: Option<RetryPolicy>, workflow: Option<RetryPolicy>, errors: seq<StepError>)
    requires forall i :: 0 <= i < |errors| ==>
               !errors[i].nonRetryable && Unlisted(step, workflow, errors[i].message)
    ensures forall i :: 0 <= i < |errors| ==>
              var log, m := Tried(step, workflow, errors[..i]), MaximumAttempts(step, workflow);
              && |log| == i + 1
              && (WillRetry(log, StoredWithRun(workflow), errors[i]) <==> m < 0 || i < m - 1)
  {
    forall i | 0 <= i < |errors|
      ensures var log, m := Tried(step, workflow, errors[..i]), MaximumAttempts(step, workflow);
              && |log| == i + 1
              && (WillRetry(log, StoredWithRun(workflow), errors[i]) <==> m < 0 || i < m - 1)
    {
      LogTellsFailures(step, workflow, errors[..i]);
      RetryDecision(step, workflow, errors[..i], errors[i]);
    }
  }
}
