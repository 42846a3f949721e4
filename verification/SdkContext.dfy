/** The executor side: one step, one sleep, and the report at the end of an execution, as the SDK
    drives the service for one run. */
module SdkContext {
  import opened Basics
  import opened RetryPolicies
  import L = StepLog
  import opened StepTable
  import P = Programs
  import R = Runs
  import opened WorkerServices

  /** What a step closure produced. */
  datatype Outcome = Value(value: Bytes) | Failure(failure: StepError) | Panics(message: string)

  /** How a call of the context ends: with a value, by pausing the workflow, or with an error. */
  datatype Ending = Obtained(value: Bytes) | Paused | Failed(message: string)

  const TRANSPORT_ERROR := "transport error"
  const REFUSED := "refused by the server"

  /** What becomes of one try of a call: the request is lost, only its reply is lost, or neither. */
  datatype Try = LostRequest | LostReply | Answered

  predicate Reached(tries: seq<Try>) {
    exists i :: 0 <= i < |tries| && !tries[i].LostRequest?
  }

  /** One `step(name).run(closure)`: the retry policy it asks for, what the closure produces, what becomes
      of BeginStep, of the tries that the backoff allows for CompleteStep, and of FailStep, and the
      backoff delay should the step be retried. */
  datatype Call = Call(
    name: string,
    request: Option<RetryPolicy>,
    outcome: Outcome,
    begin: Try,
    tries: seq<Try>,
    fail: Try,
    jitterMs: nat)

  /** The step's own retry policy, or else that of the worker. */
  function WithDefault(c: Call, defaultRetry: Option<RetryPolicy>): Call {
    c.(request := c.request.Or(defaultRetry))
  }

  /** How often a step may be tried: its own setting, or that of the worker if the step has no policy of its
      own, or else the workflow's, or else 5. */
  lemma StepPolicyComesFirst(c: Call, defaultRetry: Option<RetryPolicy>, workflow: Option<RetryPolicy>)
    ensures L.MaximumAttempts(WithDefault(c, defaultRetry).request, workflow) ==
            if c.request.Some? && c.request.value.maximumAttempts != 0 then c.request.value.maximumAttempts
            else if c.request.None? && defaultRetry.Some? && defaultRetry.value.maximumAttempts != 0
            then defaultRetry.value.maximumAttempts
            else if workflow.Some? && workflow.value.maximumAttempts != 0 then workflow.value.maximumAttempts
            else 5
    ensures WithDefault(c, defaultRetry).(request := c.request) == c
  {
  }

  function Begun(log: L.Log, c: Call, runPolicy: Option<RetryPolicy>): L.Log {
    L.Begin(log, L.FunctionKind, None, StoredWithAttempt(c.request, runPolicy))
  }

  /** The server carried out a FailStep for the attempt. */
  predicate Fails(log: L.Log, c: Call) {
    !L.Done(log) && c.begin.Answered? && c.outcome.Failure? && c.name != "" && !c.fail.LostRequest?
  }

  /** ... and put the run back for a retry. */
  predicate Retries(log: L.Log, c: Call, runPolicy: Option<RetryPolicy>) {
    Fails(log, c) && L.WillRetry(Begun(log, c, runPolicy), runPolicy, c.outcome.failure)
  }

  /** The server stored the value. */
  predicate Stores(log: L.Log, c: Call, payloadMax: nat) {
    !L.Done(log) && c.begin.Answered? && c.outcome.Value? && Reached(c.tries) && |c.outcome.value| <= payloadMax
  }

  /** The log of the step after the call. */
  function LogAfter(log: L.Log, c: Call, runPolicy: Option<RetryPolicy>, payloadMax: nat): L.Log {
    if c.begin.LostRequest? then log
    else if Stores(log, c, payloadMax) then L.Complete(Begun(log, c, runPolicy), c.outcome.value)
    else if Fails(log, c) then L.Fail(Begun(log, c, runPolicy), runPolicy, c.outcome.failure)
    else Begun(log, c, runPolicy)
  }

  /** How an unanswered or refused call ends. */
  function Refusal(t: Try): Ending {
    Failed(if t.Answered? then REFUSED else TRANSPORT_ERROR)
  }

  function EndingOf(log: L.Log, c: Call, runPolicy: Option<RetryPolicy>, payloadMax: nat): Ending {
    if !c.begin.Answered? then Failed(TRANSPORT_ERROR)
    else if L.Done(log) then
      if P.Cached(log) == [] then Failed(P.DECODE_ERROR) else Obtained(P.Cached(log))
    else
      match c.outcome
      case Value(v) => if Answered in c.tries && |v| <= payloadMax then Obtained(v) else Failed(TRANSPORT_ERROR)
      case Failure(f) =>
        if c.name == "" || !c.fail.Answered? then Refusal(c.fail)
        else if Retries(log, c, runPolicy) then Paused
        else Failed(f.message)
      case Panics(message) => Failed(message)
  }

  /** How CompleteStep ends once the server answers; a value too large is refused time and again. */
  function CommitEnding(refusal: Option<Error>, log: L.Log, value: Bytes, tries: seq<Try>, payloadMax: nat): Ending {
    if Answered !in tries then Failed(TRANSPORT_ERROR)
    else if refusal == Some(FailedPrecondition) then Obtained(value)
    else if refusal.Some? then Failed(REFUSED)
    else if |value| > payloadMax then Failed(TRANSPORT_ERROR)
    else if log == [] then Failed(REFUSED)
    else Obtained(value)
  }

  lemma ReachedNext(tries: seq<Try>, i: nat)
    requires i < |tries|
    ensures tries[..i + 1] == tries[..i] + [tries[i]]
    ensures Reached(tries[..i + 1]) <==> Reached(tries[..i]) || !tries[i].LostRequest?
  {
    assert tries[..i + 1] == tries[..i] + [tries[i]];
    if Reached(tries[..i]) {
      var k :| 0 <= k < i && !tries[..i][k].LostRequest?;
      assert !tries[..i + 1][k].LostRequest?;
    }
    if !tries[i].LostRequest? {
      assert !tries[..i + 1][i].LostRequest?;
    }
  }

  lemma ReachedAtLast(tries: seq<Try>, i: nat)
    requires i < |tries| && !tries[i].LostRequest?
    ensures Reached(tries) && tries[i] in tries
  {
  }

  /** The rows after CompleteStep was carried out any number of times, or never. */
  ghost predicate Committed(before: seq<Row>, after: seq<Row>, run: RunId, step: string, value: Bytes, stored: bool) {
    if stored then ChangedOnly(before, after, run, step, L.Complete(LogOf(before, run, step), value))
    else after == before
  }

  /** Carrying it out once more, when it can be, changes nothing further. */
  lemma CommittedOnce(before: seq<Row>, rows: seq<Row>, rows': seq<Row>, run: RunId, step: string, value: Bytes,
                      stores: bool, stored: bool)
    requires Committed(before, rows, run, step, value, stored) && (stored ==> stores)
    requires stores ==> LogOf(before, run, step) != []
    requires Committed(rows, rows', run, step, value, stores)
    ensures Committed(before, rows', run, step, value, stores)
  {
    var log := LogOf(before, run, step);
    assert log != [] ==> L.Complete(L.Complete(log, value), value) == L.Complete(log, value);
  }

  class Context {
    const service: WorkerService
    const run: RunId
    const defaultRetry: Option<RetryPolicy>

    constructor (service: WorkerService, run: RunId, defaultRetry: Option<RetryPolicy>)
      ensures this.service == service && this.run == run && this.defaultRetry == defaultRetry
    {
      this.service, this.run, this.defaultRetry := service, run, defaultRetry;
    }

    /** The attempt log of a step of this run. */
    ghost function Log(step: string): L.Log
      reads service.steps`rows
    {
      LogOf(service.steps.rows, run, step)
    }

    /** CompleteStep until it is answered. However many tries reach the server, the log is that of one.
        A run that became terminal meanwhile counts as success, although nothing is stored. */
    method Commit(step: string, value: Bytes, tries: seq<Try>) returns (ending: Ending)
      requires service.Linked()
      modifies service.steps`rows
      ensures service.Linked()
      ensures ending == CommitEnding(Admission(service.runs.rows, run), old(Log(step)), value, tries,
                                     service.steps.payloadMax)
      ensures run in service.runs.rows && |value| <= service.steps.payloadMax && old(Log(step)) != [] ==>
                ending == if Answered in tries then Obtained(value) else Failed(TRANSPORT_ERROR)
      ensures Committed(old(service.steps.rows), service.steps.rows, run, step, value,
                        Admission(service.runs.rows, run).None? && |value| <= service.steps.payloadMax
                        && old(Log(step)) != [] && Reached(tries))
    {
      ghost var before := service.steps.rows;
      ghost var stores := Admission(service.runs.rows, run).None? && |value| <= service.steps.payloadMax
                          && Log(step) != [];
      for i := 0 to |tries|
        invariant service.Linked()
        invariant Answered in tries[..i] ==>
                    Admission(service.runs.rows, run).None? && |value| > service.steps.payloadMax
        invariant Committed(before, service.steps.rows, run, step, value, stores && Reached(tries[..i]))
      {
        ReachedNext(tries, i);
        if tries[i].LostRequest? {
          continue;
        }
        ReachedAtLast(tries, i);
        ghost var rows := service.steps.rows;
        var reply := service.CompleteStep(run, step, value);
        CommittedOnce(before, rows, service.steps.rows, run, step, value, stores, stores && Reached(tries[..i]));
        if tries[i].Answered? {
          if reply.Ok? {
            return Obtained(value);
          }
          if reply.error == NotFound {
            return Failed(REFUSED);
          }
          if reply.error == FailedPrecondition {
            return Obtained(value);
          }
        }
      }
      assert tries[..|tries|] == tries;
      return Failed(TRANSPORT_ERROR);
    }

    /** The closure has run under the attempt that begin wrote: its result is reported. */
    method Settle(c: Call, ghost log: L.Log, now: Instant) returns (ending: Ending)
      requires service.Linked() && Admission(service.runs.rows, run).None?
      requires c.begin.Answered? && !L.Done(log) && Log(c.name) == Begun(log, c, service.runs.rows[run].retryPolicy)
      modifies service.steps`rows, service.runs`rows
      ensures service.Linked()
      ensures var policy := old(service.runs.rows)[run].retryPolicy;
              && ending == EndingOf(log, c, policy, service.steps.payloadMax)
              && ChangedOnly(old(service.steps.rows), service.steps.rows, run, c.name,
                             LogAfter(log, c, policy, service.steps.payloadMax))
              && service.runs.rows ==
                 if Retries(log, c, policy)
                 then R.Execute(old(service.runs.rows), now,
                                R.ScheduleRetry(run, c.outcome.failure.retryAfterMs.GetOr(c.jitterMs)))
                 else old(service.runs.rows)
    {
      match c.outcome
      case Panics(message) => return Failed(message);
      case Value(value) =>
        ending := Commit(c.name, value, c.tries);
      case Failure(failure) =>
        if c.fail.LostRequest? {
          return Failed(TRANSPORT_ERROR);
        }
        var reply := service.FailStep(run, c.name, failure, c.jitterMs, now);
        if c.fail.LostReply? {
          return Failed(TRANSPORT_ERROR);
        }
        if reply.Err? {
          return Failed(REFUSED);
        }
        return if reply.value then Paused else Failed(failure.message);
    }

    /** `step(name).run(closure)`, as LogAfter and EndingOf tell; other steps are untouched, and the run
        changes only to be put back for a retry. A terminal run refuses at once. */
    method Step(call: Call, now: Instant) returns (ending: Ending)
      requires service.Linked()
      modifies service.steps`rows, service.runs`rows
      ensures service.Linked()
      ensures Admission(old(service.runs.rows), run).Some? ==>
                ending == Refusal(call.begin) && service.steps.rows == old(service.steps.rows)
                && service.runs.rows == old(service.runs.rows)
      ensures Admission(old(service.runs.rows), run).None? ==>
                var c := WithDefault(call, defaultRetry);
                var policy := old(service.runs.rows)[run].retryPolicy;
                var log := old(Log(c.name));
                && ending == EndingOf(log, c, policy, service.steps.payloadMax)
                && ChangedOnly(old(service.steps.rows), service.steps.rows, run, c.name,
                               LogAfter(log, c, policy, service.steps.payloadMax))
                && service.runs.rows ==
                   if Retries(log, c, policy)
                   then R.Execute(old(service.runs.rows), now,
                                  R.ScheduleRetry(run, c.outcome.failure.retryAfterMs.GetOr(c.jitterMs)))
                   else old(service.runs.rows)
    {
      var c := WithDefault(call, defaultRetry);
      if c.begin.LostRequest? {
        return Failed(TRANSPORT_ERROR);
      }
      ghost var log := Log(c.name);
      var begin := service.BeginStep(run, c.name, L.FunctionKind, [], c.request);
      if c.begin.LostReply? {
        return Failed(TRANSPORT_ERROR);
      }
      if begin.Err? {
        return Failed(REFUSED);
      }
      if !begin.value.shouldExecute {
        var cached := begin.value.cachedOutput.GetOr([]);
        return if cached == [] then Failed(P.DECODE_ERROR) else Obtained(cached);
      }
      ending := Settle(c, log, now);
    }

    /** `sleep(name, duration)`: over when the memo says so, and otherwise a pause with the run asleep.
        `begin` and `pause` tell what becomes of BeginStep and of Sleep. */
    method Sleep(name: string, seconds: nat, begin: Try, pause: Try, now: Instant) returns (ending: Ending)
      requires service.Linked()
      modifies service.steps`rows, service.runs`rows
      ensures service.Linked()
      ensures Admission(old(service.runs.rows), run).Some? ==>
                ending == Refusal(begin) && service.steps.rows == old(service.steps.rows)
                && service.runs.rows == old(service.runs.rows)
      ensures Admission(old(service.runs.rows), run).None? ==>
                var log := old(Log(name));
                var policy := StoredWithAttempt(None, old(service.runs.rows)[run].retryPolicy);
                && ending == (if !begin.Answered? then Failed(TRANSPORT_ERROR)
                              else if L.Done(log) then Obtained([])
                              else if pause.Answered? then Paused else Failed(TRANSPORT_ERROR))
                && ChangedOnly(old(service.steps.rows), service.steps.rows, run, name,
                               if begin.LostRequest? then log else L.Begin(log, L.SleepKind, None, policy))
                && service.runs.rows ==
                   if begin.Answered? && !L.Done(log) && !pause.LostRequest? && seconds > 0
                   then R.Execute(old(service.runs.rows), now, R.ScheduleSleep(run, seconds))
                   else old(service.runs.rows)
    {
      if begin.LostRequest? {
        return Failed(TRANSPORT_ERROR);
      }
      var reply := service.BeginStep(run, name, L.SleepKind, [], None);
      if begin.LostReply? {
        return Failed(TRANSPORT_ERROR);
      }
      if reply.Err? {
        return Failed(REFUSED);
      }
      if !reply.value.shouldExecute {
        return Obtained([]);
      }
      if pause.LostRequest? {
        return Failed(TRANSPORT_ERROR);
      }
      service.Sleep(run, seconds, now);
      return if pause.LostReply? then Failed(TRANSPORT_ERROR) else Paused;
    }

    /** The end of `execute_workflow`: a value completes the run, an error fails it, a pause reports
        nothing. Nobody looks at the reply, or repeats the call when it is lost; a run that was terminal
        already, or an output that is too large, changes nothing. */
    method Report(ending: Ending, text: Bytes, report: Try, now: Instant)
      requires service.Linked()
      modifies service.steps`rows, service.runs`rows
      ensures service.Linked()
      ensures service.runs.rows ==
              if ending.Paused? || report.LostRequest? || Admission(old(service.runs.rows), run).Some?
                 || (ending.Obtained? && |ending.value| > service.runs.payloadMax) then old(service.runs.rows)
              else if ending.Obtained? then R.Execute(old(service.runs.rows), now, R.Complete(run, ending.value))
              else R.Execute(old(service.runs.rows), now, R.Fail(run, ending.message))
      ensures forall step :: !L.Reserved(step) ==> Log(step) == old(Log(step))
    {
      if report.LostRequest? {
        return;
      }
      match ending
      case Obtained(value) =>
        var _ := service.CompleteWorkflow(run, value, now);
      case Paused =>
      case Failed(message) =>
        var _ := service.FailWorkflow(run, message, text, now);
    }
  }
}
