/** Executing a run on the tables, request by request: polls, steps, sleeps and reports of the SDK with any
    fate of every request, and with the clock, heartbeats and cancellations in between. Whatever happens,
    the tables show a system that the replay protocol reaches. */
module Execution {
  import opened Basics
  import opened RetryPolicies
  import L = StepLog
  import P = Programs
  import R = Runs
  import opened Replay
  import opened RunRepositories
  import opened WorkerServices
  import C = SdkContext
  import S = SdkRefinement
  import M = Termination
  import opened Lives

  class Executor {
    const service: WorkerService
    const run: RunId
    const code: P.Program
    var now: Instant
    ghost var system: System
    ghost var events: seq<Event>
    ghost var losses: nat
    ghost const start: System

    /** The tables show a system that the protocol reaches from the start. */
    ghost predicate Valid()
      reads this, service.steps`rows, service.runs`rows
    {
      && service.Linked()
      && service.settings.visibilitySecs >= 0 && service.settings.extensionSecs >= 0
      && Shows(service.runs.rows, service.steps.rows, run, system) && system.now == now
      && Sound()
    }

    ghost predicate Sound()
      reads this
    {
      && P.PlainNames(code) && Reaches(code, start, events, system) && Invariant(code, system)
      && losses == M.Losses(events)
    }

    ghost function SceneNow(): Scene
      reads this, service.runs`rows, service.workers
    {
      Scene(service.runs.rows, service.workers.workers, now)
    }

    ghost predicate Over()
      reads this
    {
      system.run.status.IsTerminal()
    }

    /** A run as it stands before its first claim. */
    constructor (service: WorkerService, run: RunId, code: P.Program, now: Instant, ghost s: System)
      requires service.Linked() && Shows(service.runs.rows, service.steps.rows, run, s) && s.now == now
      requires service.settings.visibilitySecs >= 0 && service.settings.extensionSecs >= 0
      requires P.PlainNames(code) && Initial(s)
      ensures Valid() && start == system == s && events == [] && losses == 0
      ensures this.service == service && this.run == run && this.code == code
    {
      this.service, this.run, this.code, this.now := service, run, code, now;
      this.start, this.system, this.events, this.losses := s, s, [], 0;
    }

    ghost method Fire(e: Event)
      requires Sound() && Enabled(code, system, e)
      modifies this`system, this`events, this`losses
      ensures Sound() && system == Next(code, old(system), e) && events == old(events) + [e]
      ensures losses == old(losses) + if M.Costs(e) then 1 else 0
    {
      M.LossesSnoc(events, e);
      OneMoreEvent(code, start, events, system, e);
      EventKeepsInvariant(code, system, e);
      events := events + [e];
      losses := M.Losses(events);
      system := Next(code, system, e);
    }

    /** A BeginStep that was carried out. */
    ghost method FireBegin(rs: seq<Bytes>, name: string, request: Option<RetryPolicy>, lost: Option<string>)
      requires Sound() && system.exec == At(rs) && code(rs) == P.Step(name, request)
      modifies this`system, this`events, this`losses
      ensures Sound() && system.now == old(system.now) && system.run == old(system.run) && losses == old(losses)
      ensures system.faulted == (old(system.faulted) || lost.Some?)
      ensures var log := P.Get(old(system.memo), name);
              && system.memo ==
                 Put(old(system.memo), name,
                     L.Begin(log, L.FunctionKind, None, StoredWithAttempt(request, system.run.retryPolicy)))
              && system.exec == if lost.Some? then Raised(lost.value)
                                else if !L.Done(log) then Executing(rs)
                                else if P.Cached(log) == [] then Raised(P.DECODE_ERROR)
                                else At(rs + [P.Cached(log)])
    {
      Fire(BeginStep(lost));
    }

    /** A Sleep call that was carried out. */
    ghost method FireSleep(rs: seq<Bytes>, name: string, seconds: nat, lost: Option<string>)
      requires Sound() && system.exec == Pausing(rs) && code(rs) == P.Sleep(name, seconds)
      modifies this`system, this`events, this`losses
      ensures Sound() && system.now == old(system.now) && system.memo == old(system.memo) && losses == old(losses)
      ensures system.faulted == (old(system.faulted) || lost.Some?)
      ensures system.run == if seconds == 0 then old(system.run)
                            else R.SleepingRow(old(system.run), seconds, system.now)
      ensures system.exec == if lost.Some? then Raised(lost.value) else Idle
    {
      Fire(SleepRun(lost));
    }

    /** A FailStep that was carried out, with the rescheduling that follows a retry. */
    ghost method FireFail(rs: seq<Bytes>, name: string, failure: StepError, jitterMs: nat, lost: Option<string>)
      requires Sound() && system.exec == Failing(rs, failure) && code(rs).Step? && code(rs).name == name
      requires P.Get(system.memo, name) != []
      modifies this`system, this`events, this`losses
      ensures Sound() && system.now == old(system.now) && losses == old(losses)
      ensures system.faulted == (old(system.faulted) || lost.Some?)
      ensures var log := P.Get(old(system.memo), name);
              var policy := old(system.run).retryPolicy;
              var retries := L.WillRetry(log, policy, failure);
              && system.memo == Put(old(system.memo), name, L.Fail(log, policy, failure))
              && system.run ==
                 (if retries then R.RetryRow(old(system.run), failure.retryAfterMs.GetOr(jitterMs), system.now)
                  else old(system.run))
              && system.exec == if lost.Some? then Raised(lost.value)
                                else if retries then Idle else Raised(failure.message)
    {
      ghost var retries := L.WillRetry(P.Get(system.memo, name), system.run.retryPolicy, failure);
      Fire(FailStep(jitterMs, lost));
      if retries {
        Fire(Reschedule(lost));
      }
    }

    method Wait(micros: nat)
      requires Valid()
      modifies this`now, this`system, this`events, this`losses
      ensures Valid() && losses == old(losses)
      ensures system == old(system).(now := now)
      ensures SceneNow() == Act(run, service.settings.extensionSecs, old(SceneNow()), Elapse(micros))
    {
      now := now + micros;
      Fire(Tick(micros));
    }

    method BeCancelled()
      requires Valid()
      modifies this`system, this`events, this`losses, service.runs`rows
      ensures Valid() && losses == old(losses)
      ensures system == old(system).(run := service.runs.rows[run])
      ensures SceneNow() == Act(run, service.settings.extensionSecs, old(SceneNow()), CancelRun)
    {
      var _ := service.runs.Cancel(run, service.runs.rows[run].namespace, now);
      Fire(Cancel);
    }

    method WorkerBeats(worker: WorkerId)
      requires Valid()
      modifies this`system, this`events, this`losses, service.runs`rows, service.workers
      ensures Valid() && losses == old(losses)
      ensures system == old(system).(run := service.runs.rows[run])
      ensures SceneNow() == Act(run, service.settings.extensionSecs, old(SceneNow()), Beat(worker))
    {
      var reply := service.Heartbeat(worker, now);
      if reply.Ok? {
        Fire(Heartbeat(worker, service.settings.extensionSecs));
      }
    }

    /** Others act; the executor stands where it stood. */
    method Others(others: seq<Other>)
      requires Valid()
      modifies this`now, this`system, this`events, this`losses, service.runs`rows, service.workers
      ensures Valid() && losses == old(losses)
      ensures system == old(system).(now := now, run := service.runs.rows[run])
      ensures SceneNow() == ActAll(run, service.settings.extensionSecs, old(SceneNow()), others)
      ensures Calm(others) ==> SameButLease(old(system).run, system.run)
      ensures Onward(old(system).run, system.run)
    {
      ghost var start, scene := system, SceneNow();
      for i := 0 to |others|
        invariant Valid() && losses == old(losses)
        invariant system == start.(now := now, run := service.runs.rows[run])
        invariant ActAll(run, service.settings.extensionSecs, SceneNow(), others[i..])
               == ActAll(run, service.settings.extensionSecs, scene, others)
      {
        assert others[i..][0] == others[i] && others[i..][1..] == others[i + 1..];
        match others[i]
        case Elapse(micros) => Wait(micros);
        case CancelRun => BeCancelled();
        case Beat(worker) => WorkerBeats(worker);
      }
      OthersOnRow(run, service.settings.extensionSecs, scene, others);
    }

    /** BeginStep of a function step; nothing is returned if the closure is to run. */
    method BeginRequest(rs: seq<Bytes>, name: string, request: Option<RetryPolicy>, fate: C.Try)
      returns (ending: Option<C.Ending>)
      requires Valid() && system.exec == At(rs) && code(rs) == P.Step(name, request)
      modifies this`system, this`events, this`losses, service.steps`rows
      ensures Valid() && losses == old(losses) && system.run == old(system).run
      ensures system.exec == if ending.None? then Executing(rs) else S.ExecAfter(rs, ending.value)
      ensures ending.Some? ==> !ending.value.Paused?
      ensures var log := P.Get(old(system).memo, name);
              && ending == (if !fate.Answered? || Over() then Some(C.Refusal(fate)) else BeginEnding(log))
              && system.memo == (if fate.LostRequest? || Over() then old(system).memo
                                 else Put(old(system).memo, name,
                                          L.Begin(log, L.FunctionKind, None,
                                                  StoredWithAttempt(request, system.run.retryPolicy))))
              && system.faulted == (old(system).faulted || !fate.Answered? || Over())
    {
      ghost var runs, steps, s := service.runs.rows, service.steps.rows, system;
      if fate.LostRequest? {
        Fire(RpcError(C.TRANSPORT_ERROR));
        return Some(C.Failed(C.TRANSPORT_ERROR));
      }
      var reply := service.BeginStep(run, name, L.FunctionKind, [], request);
      if reply.Err? {
        var message := C.Refusal(fate).message;
        Fire(RpcError(message));
        return Some(C.Failed(message));
      }
      FireBegin(rs, name, request, S.Lost(fate));
      ShowsChange(runs, steps, runs, service.steps.rows, run, s, name,
                  L.Begin(P.Get(s.memo, name), L.FunctionKind, None, StoredWithAttempt(request, s.run.retryPolicy)),
                  system);
      if fate.LostReply? {
        return Some(C.Failed(C.TRANSPORT_ERROR));
      }
      if reply.value.shouldExecute {
        return None;
      }
      var cached := reply.value.cachedOutput.GetOr([]);
      return Some(if cached == [] then C.Failed(P.DECODE_ERROR) else C.Obtained(cached));
    }

    /** One try of CompleteStep; nothing is returned if it has to be tried again. */
    method CommitRequest(rs: seq<Bytes>, name: string, request: Option<RetryPolicy>, value: Bytes, fate: C.Try)
      returns (ending: Option<C.Ending>)
      requires Valid() && system.exec == Completing(rs, value) && code(rs) == P.Step(name, request)
      modifies this`system, this`events, this`losses, service.steps`rows
      ensures Valid() && losses == old(losses)
      ensures ending == if fate.Answered? && (Over() || |value| <= service.steps.payloadMax)
                        then Some(C.Obtained(value)) else None
      ensures system == old(system).(
                exec := if ending.None? then old(system).exec else At(rs + [value]),
                memo := if fate.LostRequest? || Over() || |value| > service.steps.payloadMax then old(system).memo
                        else Put(old(system).memo, name, L.Complete(P.Get(old(system).memo, name), value)))
    {
      if fate.LostRequest? {
        return None;
      }
      ghost var runs, steps, s := service.runs.rows, service.steps.rows, system;
      var reply := service.CompleteStep(run, name, value);
      if reply.Err? {
        if fate.Answered? && reply.error == FailedPrecondition {
          Fire(CompleteRefused);
          return Some(C.Obtained(value));
        }
        return None;
      }
      Fire(CompleteStep(fate.Answered?));
      ShowsChange(runs, steps, runs, service.steps.rows, run, s, name, L.Complete(P.Get(s.memo, name), value), system);
      return if fate.Answered? then Some(C.Obtained(value)) else None;
    }

    method FailRequest(rs: seq<Bytes>, name: string, request: Option<RetryPolicy>, failure: StepError, jitterMs: nat,
                       fate: C.Try)
      returns (ending: C.Ending)
      requires Valid() && system.exec == Failing(rs, failure) && code(rs) == P.Step(name, request)
      modifies this`system, this`events, this`losses, service.steps`rows, service.runs`rows
      ensures Valid() && losses == old(losses) && system.exec == S.ExecAfter(rs, ending) && !ending.Obtained?
      ensures var log := P.Get(old(system).memo, name);
              var policy := old(system).run.retryPolicy;
              var reached := name != "" && !fate.LostRequest?;
              var answered := name != "" && fate.Answered?;
              && log != []
              && ending == (if !answered then C.Refusal(fate)
                            else if L.WillRetry(log, policy, failure) then C.Paused else C.Failed(failure.message))
              && system.memo == (if reached then Put(old(system).memo, name, L.Fail(log, policy, failure))
                                 else old(system).memo)
              && system.run == (if reached && L.WillRetry(log, policy, failure)
                                then R.RetryRow(old(system).run, failure.retryAfterMs.GetOr(jitterMs), system.now)
                                else old(system).run)
              && system.faulted == (old(system).faulted || !answered)
    {
      ghost var runs, steps, s := service.runs.rows, service.steps.rows, system;
      if fate.LostRequest? {
        Fire(RpcError(C.TRANSPORT_ERROR));
        return C.Failed(C.TRANSPORT_ERROR);
      }
      var reply := service.FailStep(run, name, failure, jitterMs, now);
      if reply.Err? {
        var message := C.Refusal(fate).message;
        Fire(RpcError(message));
        return C.Failed(message);
      }
      FireFail(rs, name, failure, jitterMs, S.Lost(fate));
      ShowsChange(runs, steps, service.runs.rows, service.steps.rows, run, s, name,
                  L.Fail(P.Get(s.memo, name), s.run.retryPolicy, failure), system);
      if fate.LostReply? {
        return C.Failed(C.TRANSPORT_ERROR);
      }
      return if reply.value then C.Paused else C.Failed(failure.message);
    }

    /** The attempt is begun; `s` is the system that the call found. */
    ghost predicate HasBegun(s: System, c: C.Call)
      reads this
      requires s.exec.At?
    {
      && system.memo == S.Started(s, c).memo && system.faulted == s.faulted && SameButLease(s.run, system.run)
      && S.IsCall(code, s, c) && c.begin.Answered? && !L.Done(P.Get(s.memo, c.name))
    }

    /** `step(name).run(closure)`. Unless the run is over or cancelled on the way, it ends where the SDK's
        contract says, whatever becomes of its requests and whatever else others do in between. */
    method Step(rs: seq<Bytes>, name: string, request: Option<RetryPolicy>, turn: Turn) returns (ending: C.Ending)
      requires Valid() && system.exec == At(rs) && code(rs) == P.Step(name, request)
      requires turn.outcome.Value? ==> turn.outcome.value != []
      modifies this`now, this`system, this`events, this`losses, service.steps`rows, service.runs`rows, service.workers
      ensures Valid() && losses == old(losses) && Onward(old(system).run, system.run)
      ensures system.exec == S.ExecAfter(rs, ending)
      ensures CalmTurn(turn) && !old(Over()) ==>
                StepSettled(code, old(system), system, CallOf(name, request, turn), ending, service.steps.payloadMax)
    {
      ghost var s, calm := system, CalmTurn(turn) && !Over();
      Others(turn.begin.before);
      var begun := BeginRequest(rs, name, request, turn.begin.fate);
      if begun.Some? {
        if calm {
          BeginSettles(code, s, system, CallOf(name, request, turn), begun.value, service.steps.payloadMax);
        }
        return begun.value;
      }
      ending := Close(rs, name, request, turn, s, calm);
    }

    /** The closure runs, and its result is reported. */
    method Close(rs: seq<Bytes>, name: string, request: Option<RetryPolicy>, turn: Turn, ghost s: System,
                 ghost calm: bool)
      returns (ending: C.Ending)
      requires Valid() && system.exec == Executing(rs) && code(rs) == P.Step(name, request) && s.exec == At(rs)
      requires turn.outcome.Value? ==> turn.outcome.value != []
      requires calm ==> CalmTurn(turn) && !Over() && HasBegun(s, CallOf(name, request, turn))
      modifies this`now, this`system, this`events, this`losses, service.steps`rows, service.runs`rows, service.workers
      ensures Valid() && losses == old(losses) && Onward(old(system).run, system.run)
      ensures system.exec == S.ExecAfter(rs, ending)
      ensures calm ==>
                StepSettled(code, s, system, CallOf(name, request, turn), ending, service.steps.payloadMax)
    {
      match turn.outcome
      case Panics(message) =>
        Fire(Panic(message));
        if calm {
          PanicSettles(code, s, system, CallOf(name, request, turn), service.steps.payloadMax);
        }
        return C.Failed(message);
      case Failure(failure) =>
        ending := ReportFailure(rs, name, request, failure, turn, s, calm);
      case Value(value) =>
        Fire(ClosureReturns(value));
        ghost var completing := system;
        ending := Commit(rs, name, request, value, turn.tries);
        if calm {
          CommitSettles(code, s, completing, system, CallOf(name, request, turn), ending, service.steps.payloadMax);
        }
    }

    method ReportFailure(rs: seq<Bytes>, name: string, request: Option<RetryPolicy>, failure: StepError, turn: Turn,
                         ghost s: System, ghost calm: bool)
      returns (ending: C.Ending)
      requires Valid() && system.exec == Executing(rs) && code(rs) == P.Step(name, request) && s.exec == At(rs)
      requires turn.outcome == C.Failure(failure)
      requires calm ==> CalmTurn(turn) && HasBegun(s, CallOf(name, request, turn))
      modifies this`now, this`system, this`events, this`losses, service.steps`rows, service.runs`rows, service.workers
      ensures Valid() && losses == old(losses) && Onward(old(system).run, system.run)
      ensures system.exec == S.ExecAfter(rs, ending)
      ensures calm ==>
                StepSettled(code, s, system, CallOf(name, request, turn), ending, service.steps.payloadMax)
    {
      Fire(ClosureFails(failure));
      Others(turn.fail.before);
      ghost var failing := system;
      ending := FailRequest(rs, name, request, failure, turn.jitterMs, turn.fail.fate);
      if calm {
        FailSettles(code, s, failing, system, CallOf(name, request, turn), ending, service.steps.payloadMax);
      }
    }

    /** The CompleteStep loop. A value that fits is obtained exactly if some try is answered, also when the
        run is cancelled on the way. */
    method Commit(rs: seq<Bytes>, name: string, request: Option<RetryPolicy>, value: Bytes, tries: seq<Request>)
      returns (ending: C.Ending)
      requires Valid() && system.exec == Completing(rs, value) && code(rs) == P.Step(name, request)
      modifies this`now, this`system, this`events, this`losses, service.steps`rows, service.runs`rows, service.workers
      ensures Valid() && losses == old(losses) && system.exec == S.ExecAfter(rs, ending) && !ending.Paused?
      ensures LoopEnded(old(system), system, name, value, tries, service.steps.payloadMax, ending)
    {
      ghost var s, fits := system, |value| <= service.steps.payloadMax;
      for i := 0 to |tries|
        invariant Valid() && losses == old(losses) && system.exec == Completing(rs, value)
        invariant InLoop(s, system, name, value, tries, i, fits)
      {
        ghost var x := system;
        var committed := Try(rs, name, request, value, tries[i]);
        if committed.Some? {
          LoopAnswered(s, x, system, name, value, tries, i, service.steps.payloadMax);
          return committed.value;
        }
        LoopGoesOn(s, x, system, name, value, tries, i, fits);
      }
      LoopGivenUp(s, system, name, value, tries, service.steps.payloadMax);
      Fire(RpcError(C.TRANSPORT_ERROR));
      return C.Failed(C.TRANSPORT_ERROR);
    }

    method Try(rs: seq<Bytes>, name: string, request: Option<RetryPolicy>, value: Bytes, try: Request)
      returns (ending: Option<C.Ending>)
      requires Valid() && system.exec == Completing(rs, value) && code(rs) == P.Step(name, request)
      modifies this`now, this`system, this`events, this`losses, service.steps`rows, service.runs`rows, service.workers
      ensures Valid() && losses == old(losses)
      ensures TryMade(old(system), system, name, value, try, |value| <= service.steps.payloadMax, ending)
    {
      Others(try.before);
      ending := CommitRequest(rs, name, request, value, try.fate);
    }

    /** BeginStep of a sleep; nothing is returned if the run is to be put to sleep. */
    method BeginSleep(rs: seq<Bytes>, name: string, seconds: nat, fate: C.Try) returns (ending: Option<C.Ending>)
      requires Valid() && system.exec == At(rs) && code(rs) == P.Sleep(name, seconds)
      modifies this`system, this`events, this`losses, service.steps`rows
      ensures Valid() && losses == old(losses) && system.run == old(system).run
      ensures system.exec == if ending.None? then Pausing(rs) else S.ExecAfter(rs, ending.value)
      ensures var log := P.Get(old(system).memo, name);
              && ending == (if !fate.Answered? || Over() then Some(C.Refusal(fate))
                            else if L.Done(log) then Some(C.Obtained([])) else None)
              && system.memo == (if fate.LostRequest? || Over() then old(system).memo
                                 else Put(old(system).memo, name,
                                          L.Begin(log, L.SleepKind, None,
                                                  StoredWithAttempt(None, system.run.retryPolicy))))
              && system.faulted == (old(system).faulted || !fate.Answered? || Over())
    {
      ghost var runs, steps, s := service.runs.rows, service.steps.rows, system;
      if fate.LostRequest? {
        Fire(RpcError(C.TRANSPORT_ERROR));
        return Some(C.Failed(C.TRANSPORT_ERROR));
      }
      var reply := service.BeginStep(run, name, L.SleepKind, [], None);
      if reply.Err? {
        var message := C.Refusal(fate).message;
        Fire(RpcError(message));
        return Some(C.Failed(message));
      }
      Fire(BeginStep(S.Lost(fate)));
      ShowsChange(runs, steps, runs, service.steps.rows, run, s, name,
                  L.Begin(P.Get(s.memo, name), L.SleepKind, None, StoredWithAttempt(None, s.run.retryPolicy)), system);
      if fate.LostReply? {
        return Some(C.Failed(C.TRANSPORT_ERROR));
      }
      return if reply.value.shouldExecute then None else Some(C.Obtained([]));
    }

    /** The Sleep call. */
    method PauseRequest(rs: seq<Bytes>, name: string, seconds: nat, fate: C.Try) returns (ending: C.Ending)
      requires Valid() && system.exec == Pausing(rs) && code(rs) == P.Sleep(name, seconds)
      modifies this`system, this`events, this`losses, service.runs`rows
      ensures Valid() && losses == old(losses) && system.exec == S.ExecAfter(rs, ending)
      ensures ending == if fate.Answered? then C.Paused else C.Failed(C.TRANSPORT_ERROR)
      ensures system == old(system).(
                exec := system.exec, faulted := old(system).faulted || !fate.Answered?,
                run := if fate.LostRequest? || seconds == 0 then old(system).run
                       else R.SleepingRow(old(system).run, seconds, system.now))
    {
      if fate.LostRequest? {
        Fire(RpcError(C.TRANSPORT_ERROR));
        return C.Failed(C.TRANSPORT_ERROR);
      }
      ghost var runs, s := service.runs.rows, system;
      service.Sleep(run, seconds, now);
      FireSleep(rs, name, seconds, S.Lost(fate));
      ShowsRow(runs, service.steps.rows, service.runs.rows, run, s, system);
      return if fate.LostReply? then C.Failed(C.TRANSPORT_ERROR) else C.Paused;
    }

    method PauseAfter(rs: seq<Bytes>, name: string, seconds: nat, pause: Request) returns (ending: C.Ending)
      requires Valid() && system.exec == Pausing(rs) && code(rs) == P.Sleep(name, seconds)
      modifies this`now, this`system, this`events, this`losses, service.runs`rows, service.workers
      ensures Valid() && losses == old(losses) && Onward(old(system).run, system.run)
      ensures system.exec == S.ExecAfter(rs, ending)
      ensures ending == if pause.fate.Answered? then C.Paused else C.Failed(C.TRANSPORT_ERROR)
      ensures system.memo == old(system).memo && system.faulted == (old(system).faulted || !pause.fate.Answered?)
      ensures Calm(pause.before) ==> PausedRow(old(system).run, system, pause.fate, seconds)
    {
      Others(pause.before);
      ending := PauseRequest(rs, name, seconds, pause.fate);
    }

    /** `sleep(name, duration)`, likewise. */
    method Sleep(rs: seq<Bytes>, name: string, seconds: nat, turn: Turn) returns (ending: C.Ending)
      requires Valid() && system.exec == At(rs) && code(rs) == P.Sleep(name, seconds)
      modifies this`now, this`system, this`events, this`losses, service.steps`rows, service.runs`rows, service.workers
      ensures Valid() && losses == old(losses) && Onward(old(system).run, system.run)
      ensures system.exec == S.ExecAfter(rs, ending)
      ensures CalmTurn(turn) && !old(Over()) ==>
                SleepSettled(code, old(system), system, turn.begin.fate, turn.pause.fate, ending)
    {
      ghost var s, calm := system, CalmTurn(turn) && !Over();
      Others(turn.begin.before);
      var begun := BeginSleep(rs, name, seconds, turn.begin.fate);
      if begun.Some? {
        if calm {
          SleepAnswered(code, s, system, turn.begin.fate, turn.pause.fate, begun.value);
        }
        return begun.value;
      }
      ghost var pausing := system;
      ending := PauseAfter(rs, name, seconds, turn.pause);
      if calm {
        PauseSettles(code, s, pausing, system, turn.begin.fate, turn.pause.fate, ending);
      }
    }

    /** How the code ended: what it returned or raised. */
    ghost predicate Ended(ending: C.Ending)
      reads this
    {
      match ending
      case Obtained(output) => system.exec.At? && code(system.exec.rs) == P.Return(output)
      case Failed(message) =>
        system.exec == Raised(message) || (system.exec.At? && code(system.exec.rs) == P.Raise(message))
      case Paused => system.exec.Idle?
    }

    /** The report of `execute_workflow`, after others have acted. */
    method Report(ending: C.Ending, text: Bytes, report: Request)
      requires Valid() && Ended(ending)
      modifies this`now, this`system, this`events, this`losses, service.steps`rows, service.runs`rows, service.workers
      ensures Valid() && system.exec.Idle? && Onward(old(system).run, system.run)
      ensures system.memo == old(system).memo && system.faulted == old(system).faulted
      ensures var scene := ActAll(run, service.settings.extensionSecs, old(SceneNow()), report.before);
              && run in scene.runs && system.now == scene.now
              && Reported(scene.runs[run], ending, report.fate, service.runs.payloadMax, system.run,
                          losses - old(losses))
              && (Calm(report.before) ==> SameButLease(old(system).run, scene.runs[run]))
    {
      Others(report.before);
      if ending.Paused? {
        return;
      }
      if report.fate.LostRequest? {
        Fire(Crash);
        return;
      }
      if ending.Obtained? {
        ReportOutput(ending.value);
      } else {
        ReportError(ending.message, text);
      }
    }

    method ReportOutput(output: Bytes)
      requires Valid() && system.exec.At? && code(system.exec.rs) == P.Return(output)
      modifies this`system, this`events, this`losses, service.steps`rows, service.runs`rows
      ensures Valid() && system.exec.Idle? && Onward(old(system).run, system.run)
      ensures system.memo == old(system).memo && system.faulted == old(system).faulted
      ensures Reported(old(system).run, C.Obtained(output), C.Answered, service.runs.payloadMax, system.run,
                       losses - old(losses))
    {
      var reply := service.CompleteWorkflow(run, output, now);
      Fire(if reply.Ok? then Finish else Crash);
    }

    method ReportError(error: string, text: Bytes)
      requires Valid() && Ended(C.Failed(error))
      modifies this`system, this`events, this`losses, service.steps`rows, service.runs`rows
      ensures Valid() && system.exec.Idle? && Onward(old(system).run, system.run)
      ensures system.memo == old(system).memo && system.faulted == old(system).faulted
      ensures Reported(old(system).run, C.Failed(error), C.Answered, service.runs.payloadMax, system.run,
                       losses - old(losses))
    {
      var reply := service.FailWorkflow(run, error, text, now);
      Fire(if reply.Ok? then Finish else Crash);
    }

    /** The call that the code makes at its i-th turn. */
    method Call(rs: seq<Bytes>, turn: Turn) returns (ending: C.Ending)
      requires Valid() && system.exec == At(rs) && code(rs).Calls()
      requires turn.outcome.Value? ==> turn.outcome.value != []
      modifies this`now, this`system, this`events, this`losses, service.steps`rows, service.runs`rows, service.workers
      ensures Valid() && losses == old(losses) && Onward(old(system).run, system.run)
      ensures system.exec == S.ExecAfter(rs, ending)
      ensures CalmTurn(turn) && old(system).run.status.Running? ==>
                && (ending.Obtained? ==> system.run.status.Running?)
                && Going(system.run)
                && (ending.Paused? ==> code(rs).Sleep? || turn.outcome.Failure?)
                && (ending.Failed? && code(rs).Step? && !turn.outcome.Failure? ==> system.run.status.Running?)
                && (ending.Paused? && (code(rs).Sleep? ==> code(rs).seconds > 0) ==> Resting(system.run))
                && (Smooth(turn, service.steps.payloadMax) && (code(rs).Step? ==> code(rs).name != "") ==>
                      system.faulted == old(system).faulted)
    {
      ghost var s, calm := system, CalmTurn(turn) && system.run.status.Running?;
      match code(rs)
      case Step(name, request) =>
        ending := Step(rs, name, request, turn);
        if calm {
          StepLeaves(code, s, system, CallOf(name, request, turn), ending, service.steps.payloadMax);
        }
      case Sleep(name, seconds) =>
        ending := Sleep(rs, name, seconds, turn);
        if calm {
          SleepLeaves(code, s, system, turn.begin.fate, turn.pause.fate, ending);
        }
    }

    /** The report of an execution that was carried through so far. */
    method Conclude(ending: C.Ending, text: Bytes, report: Request)
      requires Valid() && Ended(ending)
      modifies this`now, this`system, this`events, this`losses, service.steps`rows, service.runs`rows, service.workers
      ensures Valid() && system.exec.Idle? && Onward(old(system).run, system.run)
      ensures system.faulted == old(system).faulted
      ensures Calm(report.before) && !report.fate.LostRequest?
              && Going(old(system).run) && (ending.Obtained? ==> |ending.value| <= service.runs.payloadMax) ==>
                && losses == old(losses)
                && (!ending.Paused? || Resting(old(system).run) ==> PutDown(system.run))
                && (!ending.Paused? && old(system).run.status.Running? ==> system.run.status.IsTerminal())
    {
      Report(ending, text, report);
    }

    /** `execute_workflow`: the code from its start, call by call. Without a turn for the next call the
        executor is lost. An execution that is carried through puts the run down, COMPLETED, FAILED,
        asleep or waiting for a retry, unless the code sleeps for less than a second; and one in which
        nothing puts the run back finishes it. */
    method Execute(turns: seq<Turn>, text: Bytes, report: Request)
      requires Valid() && system.exec == At([]) && Json(turns)
      modifies this`now, this`system, this`events, this`losses, service.steps`rows, service.runs`rows, service.workers
      ensures Valid() && system.exec.Idle? && Onward(old(system).run, system.run)
      ensures Carried(code, turns, report, service.runs.payloadMax) && old(system).run.status.Running? ==>
                && losses == old(losses) && (LongSleeps(code) ==> PutDown(system.run))
                && (Straight(code, turns) ==> system.run.status.IsTerminal())
                && (AllSmooth(code, turns, service.steps.payloadMax) ==> system.faulted == old(system).faulted)
    {
      var ending := RunCode(turns);
      if ending.Some? {
        Conclude(ending.value, text, report);
      } else {
        Fire(Crash);
      }
    }

    /** The calls in turn, until one ends without a result, or the code ends. */
    method RunCode(turns: seq<Turn>) returns (ending: Option<C.Ending>)
      requires Valid() && system.exec == At([]) && Json(turns)
      modifies this`now, this`system, this`events, this`losses, service.steps`rows, service.runs`rows, service.workers
      ensures Valid() && losses == old(losses) && Onward(old(system).run, system.run)
      ensures if ending.Some? then Ended(ending.value) else !system.exec.Idle?
      ensures EndsIn(code, |turns|) ==> ending.Some?
      ensures CalmTurns(turns) && old(system).run.status.Running? ==>
                && Going(system.run) && (ending == Some(C.Paused) && LongSleeps(code) ==> Resting(system.run))
                && (Straight(code, turns) ==> ending != Some(C.Paused) && system.run.status.Running?)
                && (AllSmooth(code, turns, service.steps.payloadMax) ==> system.faulted == old(system).faulted)
    {
      ghost var calm := CalmTurns(turns) && system.run.status.Running?;
      ghost var smooth := AllSmooth(code, turns, service.steps.payloadMax);
      var rs := [];
      for i := 0 to |turns|
        invariant Valid() && system.exec == At(rs) && |rs| == i && Onward(old(system).run, system.run)
        invariant losses == old(losses)
        invariant calm ==> system.run.status.Running? && (smooth ==> system.faulted == old(system).faulted)
      {
        if !code(rs).Calls() {
          return Some(HowItEnds(code(rs)));
        }
        var ended := Call(rs, turns[i]);
        if !ended.Obtained? {
          return Some(ended);
        }
        rs := rs + [ended.value];
      }
      return if code(rs).Calls() then None else Some(HowItEnds(code(rs)));
    }

    /** One poll; true if it claims this run. */
    method Poll(worker: WorkerId, filter: R.Filter, wakes: bool) returns (claimed: bool)
      requires Valid() && system.exec.Idle?
      modifies this`system, this`events, this`losses, service.steps`rows, service.runs`rows
      ensures Valid() && losses == old(losses) + if claimed && !wakes then 1 else 0
      ensures system ==
              if claimed then
                old(system).(run := R.Claimed(old(system).run, worker, service.settings.visibilitySecs, now),
                memo := if wakes then WakeMemo(old(system).memo) else old(system).memo,
                exec := At([]), faulted := false)
              else old(system)
      ensures claimed ==> MayClaim(old(SceneNow()), run, worker, filter)
      ensures FirstInLine(old(SceneNow()), run, worker, filter) ==> claimed
      ensures !claimed && PollRefusal(service.workers.workers, worker, filter).Some? ==>
                service.runs.rows == old(service.runs.rows)
    {
      ghost var runs, steps, s, scene := service.runs.rows, service.steps.rows, system, SceneNow();
      var look := Look([], now);
      var reply := service.PollTask(worker, filter, [look], wakes);
      claimed := false;
      assert Seen(runs, [look], 1) == runs;
      if reply.Ok? && reply.value.Some? {
        OneLook(runs, service.runs.rows, look, Narrowed(scene.workers, worker, filter), worker,
                service.settings.visibilitySecs, reply.value.value.runId);
        claimed := reply.value.value.runId == run;
      }
      if claimed {
        Fire(Event.Claim(worker, service.settings.visibilitySecs));
        Fire(WakeSleeps(wakes));
        ShowsWoken(runs, steps, service.runs.rows, service.steps.rows, run, s, wakes, system);
      }
    }

    ghost function Within(): Limits
    {
      Limits(service.settings.extensionSecs, service.steps.payloadMax, service.runs.payloadMax)
    }

    ghost function StageNow(): Stage
      reads this, service.runs`rows, service.workers
    {
      Stage(SceneNow(), system, losses)
    }

    /** One life: others act, a worker polls, and if it claims the run it executes it. */
    method Live(life: Life) returns (claimed: bool)
      requires Valid() && system.exec.Idle? && Json(life.turns)
      modifies this`now, this`system, this`events, this`losses, service.steps`rows, service.runs`rows, service.workers
      ensures Valid() && system.exec.Idle?
      ensures Lived(code, run, Within(), old(StageNow()), life, claimed, StageNow())
      ensures Onward(old(system).run, system.run.(attempts := old(system).run.attempts))
    {
      Others(life.before);
      claimed := Poll(life.worker, life.filter, life.wakes);
      if claimed {
        Execute(life.turns, life.text, life.report);
      }
    }

    /** Any number of executions of the run, one after the other. In the end the output of a COMPLETED run
        is the one result of evaluating its code against the memo in the table, and nothing else; so is the
        error of a FAILED run whose last execution met no transport error and did not panic. And it comes
        to an end: if the executions are carried through, and each claims the run, or finds it first in line
        unless it is over, then as many as the claim bound are enough. */
    method Serve(lives: seq<Life>, ghost n: M.Names) returns (claimed: seq<bool>, ghost stages: seq<Stage>)
      requires Valid() && system.exec.Idle? && Initial(start)
      requires forall i :: 0 <= i < |lives| ==> Json(lives[i].turns)
      modifies this`now, this`system, this`events, this`losses, service.steps`rows, service.runs`rows, service.workers
      ensures Valid() && system.exec.Idle?
      ensures Story(code, run, Within(), lives, claimed, stages) && |claimed| == |lives|
      ensures stages[0] == old(StageNow()) && stages[|lives|] == StageNow()
      ensures var row := service.runs.rows[run];
              && (row.status.Completed? ==>
                    row.output.Some? &&
                    forall r :: P.EvaluatesTo(code, system.memo, r) <==> r == P.Returned(row.output.value))
              && (row.status.Failed? && !system.faulted ==>
                    row.error.Some? &&
                    forall r :: P.EvaluatesTo(code, system.memo, r) <==> r == P.RaisedWith(row.error.value))
      ensures AllCarried(code, lives, Within()) && old(losses) == 0 && M.Uses(code, n, start.run.retryPolicy)
              && |lives| >= M.ClaimBound(n)
              && ((forall i :: 0 <= i < |lives| ==> claimed[i]) || FoundFirst(run, Within(), lives, stages)) ==>
                service.runs.rows[run].status.IsTerminal()
    {
      claimed, stages := [], [StageNow()];
      for i := 0 to |lives|
        invariant Valid() && system.exec.Idle? && |claimed| == i
        invariant Story(code, run, Within(), lives, claimed, stages)
        invariant stages[0] == old(StageNow()) && stages[i] == StageNow()
      {
        var last := Live(lives[i]);
        OneMoreLife(code, run, Within(), lives, claimed, stages, last, StageNow());
        claimed, stages := claimed + [last], stages + [StageNow()];
      }
      Conclusions(lives, n, claimed, stages);
    }

    /** What holds of a run whose lives are over. */
    lemma Conclusions(lives: seq<Life>, n: M.Names, claimed: seq<bool>, stages: seq<Stage>)
      requires Valid() && system.exec.Idle? && Initial(start)
      requires Story(code, run, Within(), lives, claimed, stages) && |claimed| == |lives|
      requires stages[|lives|] == StageNow()
      ensures system.run.status.Completed? ==>
                system.run.output.Some? &&
                forall r :: P.EvaluatesTo(code, system.memo, r) <==> r == P.Returned(system.run.output.value)
      ensures system.run.status.Failed? && !system.faulted ==>
                system.run.error.Some? &&
                forall r :: P.EvaluatesTo(code, system.memo, r) <==> r == P.RaisedWith(system.run.error.value)
      ensures AllCarried(code, lives, Within()) && stages[0].losses == 0 && M.Uses(code, n, start.run.retryPolicy)
              && |lives| >= M.ClaimBound(n)
              && ((forall i :: 0 <= i < |lives| ==> claimed[i]) || FoundFirst(run, Within(), lives, stages)) ==>
                system.run.status.IsTerminal()
    {
      if system.run.status.Completed? {
        ReplayRefinesEvaluation(code, start, events);
      }
      if system.run.status.Failed? && !system.faulted {
        FailureRefinesEvaluation(code, start, events);
      }
      if AllCarried(code, lives, Within()) && M.Uses(code, n, start.run.retryPolicy) {
        StoryCounts(code, run, Within(), lives, claimed, stages, |lives|);
        M.ClaimsAreBounded(code, n, start, events);
      }
    }
  }
}
