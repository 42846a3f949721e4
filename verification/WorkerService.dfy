/** The worker-facing handlers: how repository calls compose into protocol steps. */
module WorkerServices {
  import opened Basics
  import opened RetryPolicies
  import L = StepLog
  import opened StepTable
  import R = Runs
  import opened RunRepositories
  import W = Workers

  datatype Settings = Settings(visibilitySecs: int, extensionSecs: int)

  /** `validate_workflow_action` */
  function Admission(rows: R.Table, run: RunId): (refusal: Option<Error>)
    ensures refusal == Some(NotFound) <==> run !in rows
    ensures refusal == Some(FailedPrecondition) <==>
            run in rows && var status := rows[run].status; status.Completed? || status.Failed? || status.Cancelled?
    ensures refusal.Some? ==> refusal.value.NotFound? || refusal.value.FailedPrecondition?
  {
    if run !in rows then Some(NotFound)
    else if rows[run].status.IsTerminal() then Some(FailedPrecondition)
    else None
  }

  function EffectiveTypes(registered: seq<string>, requested: seq<string>): (types: seq<string>)
    ensures forall t :: t in types <==> t in registered && t in requested
  {
    if registered == [] then []
    else (if registered[0] in requested then [registered[0]] else []) + EffectiveTypes(registered[1..], requested)
  }

  /** The registered types in their order, each as often as it was registered. */
  lemma {:induction false} EffectiveTypesKeepOrder(before: seq<string>, after: seq<string>, requested: seq<string>)
    ensures EffectiveTypes(before + after, requested)
         == EffectiveTypes(before, requested) + EffectiveTypes(after, requested)
  {
    if before == [] {
      assert before + after == after;
    } else {
      assert (before + after)[1..] == before[1..] + after;
      EffectiveTypesKeepOrder(before[1..], after, requested);
    }
  }

  function NonEmpty(bytes: Bytes): Option<Bytes> {
    if bytes == [] then None else Some(bytes)
  }

  /** Why a worker may not poll. */
  function PollRefusal(workers: W.Table, worker: WorkerId, f: R.Filter): Option<Error> {
    if f.types == [] || f.namespace == "" then Some(InvalidArgument)
    else if worker !in workers then Some(FailedPrecondition)
    else
      var w := workers[worker];
      if w.namespace != f.namespace || w.taskQueue != f.taskQueue || !w.status.Online?
         || EffectiveTypes(w.types, f.types) == []
      then Some(FailedPrecondition) else None
  }

  /** Who may poll: a worker that is online, in its namespace and queue, for some type it has registered. */
  lemma WhoMayPoll(workers: W.Table, worker: WorkerId, f: R.Filter)
    ensures PollRefusal(workers, worker, f).None? <==>
            && f.namespace != "" && worker in workers
            && var w := workers[worker];
               && w.status.Online? && w.namespace == f.namespace && w.taskQueue == f.taskQueue
               && exists t :: t in f.types && t in w.types
    ensures PollRefusal(workers, worker, f) == Some(InvalidArgument) <==> f.namespace == "" || f.types == []
  {
    if worker in workers {
      var types := EffectiveTypes(workers[worker].types, f.types);
      assert types != [] ==> types[0] in f.types && types[0] in workers[worker].types;
    }
  }

  /** One poll of a PollTask call: what others did to the runs since the last one, and when it is made. */
  datatype Look = Look(others: seq<(Instant, R.Op)>, at: Instant)

  /** The table as it stands when the n-th poll is made, if none before it claimed. */
  function Seen(rows: R.Table, looks: seq<Look>, n: nat): R.Table
    requires n <= |looks|
  {
    if n == 0 then rows else R.Meanwhile(Seen(rows, looks, n - 1), looks[n - 1].others)
  }

  ghost predicate ClaimedByLook(rows: R.Table, rows': R.Table, looks: seq<Look>, f: R.Filter, worker: WorkerId,
                                visibilitySecs: int, run: RunId)
  {
    exists i :: 0 <= i < |looks| && ClaimedAt(rows, rows', looks, f, worker, visibilitySecs, run, i)
  }

  /** The logs after a claim of the run: its open sleeps are over, if they were woken, and nothing else
      changed but its reserved steps. */
  ghost predicate Dispatched(before: seq<Row>, after: seq<Row>, run: RunId, wakes: bool) {
    && (forall s: string :: !L.Reserved(s) ==>
          LogOf(after, run, s) == if wakes then L.Wake(LogOf(before, run, s)) else LogOf(before, run, s))
    && (forall r: RunId, s: string :: r != run ==> LogOf(after, r, s) == LogOf(before, r, s))
  }

  predicate NothingEligible(rows: R.Table, f: R.Filter, at: Instant) {
    forall id :: id in rows ==> !R.Eligible(rows[id], f, at)
  }

  /** The first n polls found nothing. */
  predicate InVain(rows: R.Table, looks: seq<Look>, f: R.Filter, n: nat)
    requires n <= |looks|
  {
    forall i :: 0 <= i < n ==> NothingEligible(Seen(rows, looks, i + 1), f, looks[i].at)
  }

  /** The claim that a poll made, at which look. */
  ghost predicate ClaimedAt(rows: R.Table, rows': R.Table, looks: seq<Look>, f: R.Filter, worker: WorkerId,
                            visibilitySecs: int, run: RunId, i: nat)
    requires i < |looks|
  {
    && R.FirstAvailable(Seen(rows, looks, i + 1), f, looks[i].at, run)
    && rows' == R.Execute(Seen(rows, looks, i + 1), looks[i].at, R.Poll(f, worker, visibilitySecs, Some(run)))
  }

  /** The run is one of the namespace and queue of the request, of a type that the worker registered and
      asks for, and locked by it. */
  predicate HandedOut(rows: R.Table, run: RunId, worker: WorkerId, registered: seq<string>, request: R.Filter) {
    && run in rows
    && rows[run].namespace == request.namespace && rows[run].taskQueue == request.taskQueue
    && rows[run].workflowType in registered && rows[run].workflowType in request.types
    && rows[run].status.Running? && rows[run].lockedBy == Some(worker)
  }

  lemma ClaimIsForWorker(rows: R.Table, rows': R.Table, looks: seq<Look>, f: R.Filter, worker: WorkerId,
                         visibilitySecs: int, run: RunId)
    requires ClaimedByLook(rows, rows', looks, f, worker, visibilitySecs, run) && f.types != []
    ensures run in rows' && rows'[run].namespace == f.namespace && rows'[run].taskQueue == f.taskQueue
    ensures rows'[run].workflowType in f.types
    ensures rows'[run].status.Running? && rows'[run].lockedBy == Some(worker)
  {
    var i :| 0 <= i < |looks| && ClaimedAt(rows, rows', looks, f, worker, visibilitySecs, run, i);
  }

  class WorkerService {
    const steps: StepRepository
    const runs: RunRepository
    const workers: W.WorkerRepository
    const settings: Settings

    constructor (steps: StepRepository, runs: RunRepository, workers: W.WorkerRepository, settings: Settings)
      ensures this.steps == steps && this.runs == runs && this.workers == workers && this.settings == settings
    {
      this.steps, this.runs, this.workers, this.settings := steps, runs, workers, settings;
    }

    /** Steps belong to runs: the foreign key of `step_runs`. */
    ghost predicate Linked()
      reads steps`rows, runs`rows
    {
      && Valid(steps.rows)
      && forall run: RunId, step: string :: LogOf(steps.rows, run, step) != [] ==> run in runs.rows
    }

    /** The answer tells whether the worker is to drain. */
    method Heartbeat(worker: WorkerId, now: Instant) returns (reply: Result<bool>)
      modifies workers, runs`rows
      ensures reply == if W.Accepts(old(workers.workers), worker)
                       then Ok(old(workers.workers)[worker].status.Draining?) else Err(NotFound)
      ensures workers.workers == W.Beaten(old(workers.workers), worker, now)
      ensures runs.rows == if reply.Ok?
                           then R.Execute(old(runs.rows), now, R.ExtendVisibility(worker, settings.extensionSecs))
                           else old(runs.rows)
    {
      var accepted := workers.Heartbeat(worker, now);
      if !accepted {
        return Err(NotFound);
      }
      var _ := runs.ExtendVisibility(worker, settings.extensionSecs, now);
      return Ok(workers.workers[worker].status.Draining?);
    }

    /** Drains the worker or takes it offline, in the namespace it is registered in. */
    method Deregister(worker: WorkerId, drain: bool, now: Instant) returns (reply: Result<bool>)
      modifies workers
      ensures reply == if worker in old(workers.workers) then Ok(drain) else Err(NotFound)
      ensures reply.Err? ==> workers.workers == old(workers.workers)
      ensures reply.Ok? ==>
                && workers.workers.Keys == old(workers.workers).Keys
                && (forall other :: other in workers.workers && other != worker ==>
                      workers.workers[other] == old(workers.workers)[other])
                && workers.workers[worker].lastHeartbeat == old(workers.workers)[worker].lastHeartbeat
                && workers.workers[worker].status == (if drain then W.Draining else W.Offline)
                && !W.Accepts(workers.workers, worker) == !drain
    {
      if worker !in workers.workers {
        return Err(NotFound);
      }
      var namespace := workers.workers[worker].namespace;
      if drain {
        workers.StartDrain(worker, namespace);
      } else {
        workers.Deregister(worker, namespace, now);
      }
      return Ok(drain);
    }

    /** What follows a claim: sleeps are woken, if that goes through, and the start is recorded. */
    method Dispatch(run: RunId, wakes: bool)
      requires Valid(steps.rows)
      modifies steps`rows
      ensures Valid(steps.rows) && Dispatched(old(steps.rows), steps.rows, run, wakes)
    {
      if wakes {
        steps.CompletePendingSleeps(run);
      }
      var _ := steps.RecordLifecycleEvent(run, L.WorkflowStarted, None, None);
    }

    /** The i-th poll of the call. */
    method LookOnce(ghost before: R.Table, looks: seq<Look>, i: nat, f: R.Filter, worker: WorkerId)
      returns (claim: Option<Claim>)
      requires i < |looks| && runs.rows == Seen(before, looks, i)
      modifies runs`rows
      ensures if claim.None? then
                runs.rows == Seen(before, looks, i + 1) && NothingEligible(runs.rows, f, looks[i].at)
              else
                ClaimedAt(before, runs.rows, looks, f, worker, settings.visibilitySecs, claim.value.runId, i)
    {
      runs.OthersExecute(looks[i].others);
      claim := runs.PollWorkflow(f, worker, settings.visibilitySecs, looks[i].at);
    }

    /** ... and what a claim brings with it. */
    method LookAndDispatch(ghost before: R.Table, looks: seq<Look>, i: nat, f: R.Filter, worker: WorkerId, wakes: bool)
      returns (claim: Option<Claim>)
      requires i < |looks| && runs.rows == Seen(before, looks, i) && Valid(steps.rows)
      modifies runs`rows, steps`rows
      ensures Valid(steps.rows)
      ensures claim.None? ==>
                && runs.rows == Seen(before, looks, i + 1) && NothingEligible(runs.rows, f, looks[i].at)
                && steps.rows == old(steps.rows)
      ensures claim.Some? ==>
                && ClaimedByLook(before, runs.rows, looks, f, worker, settings.visibilitySecs, claim.value.runId)
                && Dispatched(old(steps.rows), steps.rows, claim.value.runId, wakes)
    {
      claim := LookOnce(before, looks, i, f, worker);
      if claim.Some? {
        ghost var claimed := runs.rows;
        Dispatch(claim.value.runId, wakes);
        assert ClaimedAt(before, claimed, looks, f, worker, settings.visibilitySecs, claim.value.runId, i);
      }
    }

    /** Polls until the deadline; a claim ends the loop. */
    method PollLoop(worker: WorkerId, f: R.Filter, looks: seq<Look>, wakes: bool) returns (claim: Option<Claim>)
      requires Valid(steps.rows)
      modifies runs`rows, steps`rows
      ensures Valid(steps.rows)
      ensures claim.None? ==>
                && runs.rows == Seen(old(runs.rows), looks, |looks|) && steps.rows == old(steps.rows)
                && InVain(old(runs.rows), looks, f, |looks|)
      ensures claim.Some? ==>
                && ClaimedByLook(old(runs.rows), runs.rows, looks, f, worker, settings.visibilitySecs,
                                 claim.value.runId)
                && Dispatched(old(steps.rows), steps.rows, claim.value.runId, wakes)
    {
      ghost var before := runs.rows;
      for i := 0 to |looks|
        invariant runs.rows == Seen(before, looks, i) && steps.rows == old(steps.rows)
        invariant InVain(before, looks, f, i)
      {
        claim := LookAndDispatch(before, looks, i, f, worker, wakes);
        if claim.Some? {
          return;
        }
      }
      return None;
    }

    /** A worker that is online polls its own queue, for types it has registered. A claim hands it a run of
        that namespace and queue, of a type that it registered and asked for, locked by it from now on.
        `wakes` tells whether the update of pending sleeps goes through: the handler does not look. */
    method PollTask(worker: WorkerId, request: R.Filter, looks: seq<Look>, wakes: bool)
      returns (reply: Result<Option<Claim>>)
      requires Valid(steps.rows)
      modifies runs`rows, steps`rows
      ensures var refusal := PollRefusal(workers.workers, worker, request);
              refusal.Some? <==> reply.Err?
      ensures reply.Err? ==>
                && reply == Err(PollRefusal(workers.workers, worker, request).value)
                && runs.rows == old(runs.rows) && steps.rows == old(steps.rows)
      ensures reply.Ok? ==>
                var f := request.(types := EffectiveTypes(workers.workers[worker].types, request.types));
                if reply.value.None? then
                  && runs.rows == Seen(old(runs.rows), looks, |looks|) && steps.rows == old(steps.rows)
                  && InVain(old(runs.rows), looks, f, |looks|)
                else
                  ClaimedByLook(old(runs.rows), runs.rows, looks, f, worker, settings.visibilitySecs,
                                reply.value.value.runId)
      ensures reply.Ok? <==>
                && request.namespace != "" && worker in workers.workers
                && var w := workers.workers[worker];
                   && w.status.Online? && w.namespace == request.namespace && w.taskQueue == request.taskQueue
                   && exists t :: t in request.types && t in w.types
      ensures reply == Err(InvalidArgument) <==> request.namespace == "" || request.types == []
      ensures reply.Ok? && reply.value.Some? ==>
                HandedOut(runs.rows, reply.value.value.runId, worker, workers.workers[worker].types, request)
      ensures reply.Ok? && reply.value.Some? ==>
                Dispatched(old(steps.rows), steps.rows, reply.value.value.runId, wakes)
      ensures Valid(steps.rows)
    {
      WhoMayPoll(workers.workers, worker, request);
      var refusal := PollRefusal(workers.workers, worker, request);
      if refusal.Some? {
        return Err(refusal.value);
      }
      var f := request.(types := EffectiveTypes(workers.workers[worker].types, request.types));
      ghost var before := runs.rows;
      var claim := PollLoop(worker, f, looks, wakes);
      if claim.Some? {
        ClaimIsForWorker(before, runs.rows, looks, f, worker, settings.visibilitySecs, claim.value.runId);
      }
      return Ok(claim);
    }

    method BeginStep(run: RunId, name: string, kind: L.StepKind, input: Bytes, request: Option<RetryPolicy>)
      returns (reply: Result<L.BeginReply>)
      requires Linked()
      modifies steps`rows
      ensures var refusal := Admission(runs.rows, run);
              var log := LogOf(old(steps.rows), run, name);
              && reply == (if refusal.Some? then Err(refusal.value)
                           else if |input| > steps.payloadMax then Err(InvalidArgument)
                           else Ok(L.BeginReplyFor(log)))
              && (reply.Err? ==> steps.rows == old(steps.rows))
              && (reply.Ok? ==>
                    ChangedOnly(old(steps.rows), steps.rows, run, name,
                                L.Begin(log, kind, NonEmpty(input),
                                        StoredWithAttempt(request, runs.rows[run].retryPolicy))))
      ensures Linked()
    {
      var refusal := Admission(runs.rows, run);
      if refusal.Some? {
        return Err(refusal.value);
      }
      var policy := MergeProtoPolicy(request, runs.rows[run].retryPolicy);
      reply := steps.Begin(run, name, kind, NonEmpty(input), policy);
      if reply.Ok? && kind.SleepKind? && !reply.value.shouldExecute {
        var done := steps.Complete(run, name, []);
        assert done.Ok?;
      }
    }

    /** The reply shows the oldest attempt of the step: the latest one, which it is meant to show, exactly
        when there was one attempt and it had not failed. */
    method CompleteStep(run: RunId, name: string, output: Bytes) returns (reply: Result<L.Attempt>)
      requires Linked()
      modifies steps`rows
      ensures var refusal := Admission(runs.rows, run);
              var log := LogOf(old(steps.rows), run, name);
              && reply == (if refusal.Some? then Err(refusal.value)
                           else if |output| > steps.payloadMax then Err(InvalidArgument)
                           else if log == [] then Err(NotFound)
                           else Ok(L.Complete(log, output)[0]))
              && (reply.Ok? ==> (|L.Complete(log, output)| == 1 <==> |log| == 1 && !L.Last(log).status.Failed?))
              && (reply.Err? ==> steps.rows == old(steps.rows))
              && (reply.Ok? ==> ChangedOnly(old(steps.rows), steps.rows, run, name, L.Complete(log, output)))
      ensures Linked()
    {
      var refusal := Admission(runs.rows, run);
      if refusal.Some? {
        return Err(refusal.value);
      }
      var done := steps.Complete(run, name, output);
      if done.Err? {
        return Err(done.error);
      }
      var shown := steps.ListOne(run, name);
      return Ok(shown.value);
    }

    /** Not subject to validation: on a terminal run, which every other step call refuses, it rewrites the
        log of the step, unless that repeats a failure, and leaves the run alone. */
    method FailStep(run: RunId, name: string, error: StepError, jitterMs: nat, now: Instant)
      returns (reply: Result<bool>)
      requires Linked()
      modifies steps`rows, runs`rows
      ensures name == "" ==> reply == Err(InvalidArgument)
      ensures var log := LogOf(old(steps.rows), run, name);
              name != "" ==>
                && (log == [] ==> reply == Err(NotFound))
                && (log != [] ==>
                      var policy := old(runs.rows)[run].retryPolicy;
                      var retry := L.WillRetry(log, policy, error);
                      && reply == Ok(retry)
                      && ChangedOnly(old(steps.rows), steps.rows, run, name, L.Fail(log, policy, error))
                      && runs.rows == if retry
                                      then R.Execute(old(runs.rows), now,
                                                     R.ScheduleRetry(run, error.retryAfterMs.GetOr(jitterMs)))
                                      else old(runs.rows))
      ensures reply.Err? ==> steps.rows == old(steps.rows) && runs.rows == old(runs.rows)
      ensures var log := LogOf(old(steps.rows), run, name);
              Admission(old(runs.rows), run) == Some(FailedPrecondition) && name != "" ==>
                && runs.rows == old(runs.rows)
                && (LogOf(steps.rows, run, name) == log <==>
                    || log == []
                    || (L.WillRetry(log, old(runs.rows)[run].retryPolicy, error)
                        && L.Last(log).status == L.Failed && L.Last(log).error == Some(error.message)))
      ensures Linked()
    {
      L.FailRewritesUnlessRepeated(LogOf(steps.rows, run, name),
                                   if run in runs.rows then runs.rows[run].retryPolicy else None, error);
      if name == "" {
        return Err(InvalidArgument);
      }
      var policy := if run in runs.rows then runs.rows[run].retryPolicy else None;
      var result := steps.Fail(run, name, policy, error, jitterMs);
      if result.Err? {
        return Err(result.error);
      }
      if result.value.delayMs.Some? {
        runs.ScheduleRetry(run, result.value.delayMs.value, now);
      }
      return Ok(result.value.scheduledRetry);
    }

    method CompleteWorkflow(run: RunId, output: Bytes, now: Instant) returns (reply: Result<()>)
      requires Linked()
      modifies runs`rows, steps`rows
      ensures var refusal := Admission(old(runs.rows), run);
              && reply == (if refusal.Some? then Err(refusal.value)
                           else if |output| > runs.payloadMax then Err(InvalidArgument)
                           else Ok(()))
              && runs.rows == if reply.Ok? then R.Execute(old(runs.rows), now, R.Complete(run, output))
                              else old(runs.rows)
      ensures forall r: RunId, s: string :: !L.Reserved(s) ==> LogOf(steps.rows, r, s) == LogOf(old(steps.rows), r, s)
      ensures Linked()
    {
      var refusal := Admission(runs.rows, run);
      if refusal.Some? {
        return Err(refusal.value);
      }
      reply := runs.Complete(run, output, now);
      if reply.Ok? {
        var _ := steps.RecordLifecycleEvent(run, L.WorkflowCompleted, Some(output), None);
      }
    }

    method FailWorkflow(run: RunId, error: string, text: Bytes, now: Instant) returns (reply: Result<()>)
      requires Linked()
      modifies runs`rows, steps`rows
      ensures var refusal := Admission(old(runs.rows), run);
              && reply == (if refusal.Some? then Err(refusal.value) else Ok(()))
              && runs.rows == if reply.Ok? then R.Execute(old(runs.rows), now, R.Fail(run, error)) else old(runs.rows)
      ensures forall r: RunId, s: string :: !L.Reserved(s) ==> LogOf(steps.rows, r, s) == LogOf(old(steps.rows), r, s)
      ensures Linked()
    {
      var refusal := Admission(runs.rows, run);
      if refusal.Some? {
        return Err(refusal.value);
      }
      runs.Fail(run, error, now);
      var _ := steps.RecordLifecycleEvent(run, L.WorkflowFailed, Some(text), Some(error));
      return Ok(());
    }

    /** A duration below one second schedules nothing. */
    method Sleep(run: RunId, seconds: nat, now: Instant)
      modifies runs`rows
      ensures runs.rows == if seconds == 0 then old(runs.rows)
                           else R.Execute(old(runs.rows), now, R.ScheduleSleep(run, seconds))
    {
      if seconds == 0 {
        return;
      }
      runs.ScheduleSleep(run, seconds, now);
    }
  }
}
