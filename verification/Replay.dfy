/** The durable execution protocol of one run: claims, begin, complete, fail, sleeps, retries, lost
    replies, crashes and replays, interleaved with the clock, heartbeats and cancellation. One executor
    is live at a time; a crashed one sends nothing more. */
module Replay {
  import opened Basics
  import opened RetryPolicies
  import opened StepLog
  import opened Programs
  import R = Runs

  /** The executor of the run. `rs` is its position: the results its code has obtained. */
  datatype Exec =
    | Idle
    | Claimed
    | At(rs: seq<Bytes>)
    | Executing(rs: seq<Bytes>)
    | Completing(rs: seq<Bytes>, value: Bytes)
    | Failing(rs: seq<Bytes>, failure: StepError)
    | Rescheduling(rs: seq<Bytes>, delayMs: nat)
    | Pausing(rs: seq<Bytes>)
    | Raised(error: string)

  /** `faulted` records that a transport error was raised into the code of this execution, or that it
      panicked. */
  datatype System = System(now: Instant, run: R.Run, memo: Memo, exec: Exec, faulted: bool)

  datatype Event =
    // the executor and the calls it makes
    | Claim(worker: WorkerId, visibilitySecs: nat)
    | WakeSleeps(ok: bool)
    | BeginStep(lost: Option<string>)
    | ClosureReturns(value: Bytes)
    | ClosureFails(failure: StepError)
    | CompleteStep(delivered: bool)
    | CompleteRefused
    | FailStep(jitterMs: nat, lost: Option<string>)
    | Reschedule(lost: Option<string>)
    | SleepRun(lost: Option<string>)
    | RpcError(error: string)
    | Panic(error: string)
    | Finish
    | Crash
    // everyone else
    | Tick(micros: nat)
    | Heartbeat(worker: WorkerId, extensionSecs: nat)
    | Cancel
    | Record(kind: StepKind, output: Option<Bytes>, text: Option<string>)

  function Put(m: Memo, name: string, log: Log): Memo {
    m[name := log]
  }

  function WakeMemo(m: Memo): Memo {
    map name | name in m :: Wake(m[name])
  }

  /** A live executor is inside a call it has to answer for. */
  predicate InCall(p: Program, x: Exec) {
    match x
    case At(rs) => p(rs).Calls()
    case Completing(_, _) | Failing(_, _) | Rescheduling(_, _) | Pausing(_) => true
    case _ => false
  }

  predicate Enabled(p: Program, s: System, e: Event) {
    match e
    case Claim(_, _) => s.exec.Idle? && R.Waiting(s.run) && R.Due(s.run, s.now)
    case WakeSleeps(_) => s.exec.Claimed?
    case BeginStep(_) => s.exec.At? && p(s.exec.rs).Calls()
    case ClosureReturns(value) => s.exec.Executing? && value != []
    case ClosureFails(_) => s.exec.Executing?
    case CompleteStep(_) => s.exec.Completing?
    case CompleteRefused => s.exec.Completing? && s.run.status.IsTerminal()
    case FailStep(_, _) => s.exec.Failing?
    case Reschedule(_) => s.exec.Rescheduling?
    case SleepRun(_) => s.exec.Pausing?
    case RpcError(_) => InCall(p, s.exec)
    case Panic(_) => s.exec.At? || s.exec.Executing?
    case Finish => s.exec.Raised? || (s.exec.At? && !p(s.exec.rs).Calls())
    case Crash => !s.exec.Idle?
    case Record(kind, _, _) => kind.IsLifecycle()
    case _ => true
  }

  function NameAt(p: Program, rs: seq<Bytes>): string {
    if p(rs).Calls() then p(rs).name else ""
  }

  /** BeginStep: a step runs its closure unless the memo answers; a sleep pauses unless it is over. */
  function AfterBegin(p: Program, s: System, rs: seq<Bytes>): System
    requires p(rs).Calls()
  {
    var name := p(rs).name;
    var log := Get(s.memo, name);
    match p(rs)
    case Step(_, request) =>
      var policy := StoredWithAttempt(request, s.run.retryPolicy);
      var s' := s.(memo := Put(s.memo, name, Begin(log, FunctionKind, None, policy)));
      if !Done(log) then s'.(exec := Executing(rs))
      else if Cached(log) == [] then s'.(exec := Raised(DECODE_ERROR))
      else s'.(exec := At(rs + [Cached(log)]))
    case Sleep(_, _) =>
      var s' := s.(memo := Put(s.memo, name, Begin(log, SleepKind, None, StoredWithAttempt(None, s.run.retryPolicy))));
      if !Done(log) then s'.(exec := Pausing(rs)) else s'.(exec := At(rs + [[]]))
  }

  function OrFault(s: System, lost: Option<string>): System {
    match lost
    case None => s
    case Some(error) => s.(exec := Raised(error), faulted := true)
  }

  function Next(p: Program, s: System, e: Event): System
    requires Enabled(p, s, e)
  {
    match e
    case Claim(worker, visibilitySecs) =>
      s.(run := R.Claimed(s.run, worker, visibilitySecs, s.now), exec := Claimed, faulted := false)
    case WakeSleeps(ok) => s.(memo := if ok then WakeMemo(s.memo) else s.memo, exec := At([]))
    case BeginStep(lost) => OrFault(AfterBegin(p, s, s.exec.rs), lost)
    case ClosureReturns(value) => s.(exec := Completing(s.exec.rs, value))
    case ClosureFails(failure) => s.(exec := Failing(s.exec.rs, failure))
    case CompleteStep(delivered) =>
      var name := NameAt(p, s.exec.rs);
      var s' := s.(memo := Put(s.memo, name, Complete(Get(s.memo, name), s.exec.value)));
      if delivered then s'.(exec := At(s.exec.rs + [s.exec.value])) else s'
    case CompleteRefused => s.(exec := At(s.exec.rs + [s.exec.value]))
    case FailStep(jitterMs, lost) =>
      var name := NameAt(p, s.exec.rs);
      var log := Get(s.memo, name);
      var s' := s.(memo := Put(s.memo, name, Fail(log, s.run.retryPolicy, s.exec.failure)));
      if log != [] && WillRetry(log, s.run.retryPolicy, s.exec.failure)
      then s'.(exec := Rescheduling(s.exec.rs, s.exec.failure.retryAfterMs.GetOr(jitterMs)))
      else OrFault(s'.(exec := Raised(s.exec.failure.message)), lost)
    case Reschedule(lost) =>
      OrFault(s.(run := R.RetryRow(s.run, s.exec.delayMs, s.now), exec := Idle), lost)
    case SleepRun(lost) =>
      var seconds := if p(s.exec.rs).Sleep? then p(s.exec.rs).seconds else 0;
      OrFault(s.(run := if seconds == 0 then s.run else R.SleepingRow(s.run, seconds, s.now), exec := Idle), lost)
    case RpcError(error) => s.(exec := Raised(error), faulted := true)
    case Panic(error) => s.(exec := Raised(error), faulted := true)
    case Finish =>
      s.(run := (match s.exec
                 case At(rs) =>
                   (match p(rs)
                    case Return(output) => R.CompletedRow(s.run, output, s.now)
                    case Raise(error) => R.FailedRow(s.run, error, s.now)
                    case _ => s.run)
                 case Raised(error) => R.FailedRow(s.run, error, s.now)
                 case _ => s.run),
      exec := Idle)
    case Crash => s.(exec := Idle)
    case Tick(micros) => s.(now := s.now + micros)
    case Heartbeat(worker, extensionSecs) => s.(run := R.ExtendedRow(s.run, worker, extensionSecs, s.now))
    case Cancel => s.(run := R.CancelledRow(s.run, s.now))
    case Record(kind, output, text) =>
      var name := LifecycleStep(kind);
      s.(memo := Put(s.memo, name, Lifecycle(Get(s.memo, name), kind, output, text)))
  }

  predicate Legal(p: Program, s: System, es: seq<Event>)
    decreases |es|
  {
    es != [] ==> Enabled(p, s, es[0]) && Legal(p, Next(p, s, es[0]), es[1..])
  }

  function Final(p: Program, s: System, es: seq<Event>): System
    requires Legal(p, s, es)
    decreases |es|
  {
    if es == [] then s else Final(p, Next(p, s, es[0]), es[1..])
  }

  /** The events are a run of the protocol from s to t. */
  predicate Reaches(p: Program, s: System, es: seq<Event>, t: System) {
    Legal(p, s, es) && Final(p, s, es) == t
  }

  lemma OneEvent(p: Program, s: System, e: Event, es: seq<Event>, t: System)
    requires Enabled(p, s, e) && Reaches(p, Next(p, s, e), es, t)
    ensures Reaches(p, s, [e] + es, t)
  {
    assert ([e] + es)[1..] == es;
  }

  lemma {:induction false} OneMoreEvent(p: Program, s: System, es: seq<Event>, t: System, e: Event)
    requires Reaches(p, s, es, t) && Enabled(p, t, e)
    ensures Reaches(p, s, es + [e], Next(p, t, e))
    decreases |es|
  {
    if es == [] {
      assert es + [e] == [e];
    } else {
      OneMoreEvent(p, Next(p, s, es[0]), es[1..], t, e);
      assert (es + [e])[0] == es[0] && (es + [e])[1..] == es[1..] + [e];
    }
  }

  lemma LastEvent(p: Program, s: System, e: Event)
    requires Enabled(p, s, e)
    ensures Reaches(p, s, [e], Next(p, s, e))
  {
  }

  // ----- The invariant -----

  /** Between begin and the answer the current attempt is the executor's own. */
  predicate OwnsAttempt(p: Program, s: System) {
    match s.exec
    case Executing(rs) => p(rs).Step? && InProgress(Get(s.memo, p(rs).name))
    case Failing(rs, _) => p(rs).Step? && InProgress(Get(s.memo, p(rs).name))
    case Completing(rs, value) =>
      && p(rs).Step? && value != []
      && var log := Get(s.memo, p(rs).name);
         InProgress(log) || (Done(log) && Cached(log) == value)
    case Pausing(rs) => p(rs).Sleep? && InProgress(Get(s.memo, p(rs).name))
    case Rescheduling(rs, _) => p(rs).Step?
    case _ => true
  }

  /** The position is the program resumed along memoised results. */
  ghost predicate OnCourse(p: Program, s: System) {
    match s.exec
    case Idle | Claimed => true
    case Raised(error) => s.faulted || EvaluatesTo(p, s.memo, RaisedWith(error))
    case _ => Consistent(p, s.memo, s.exec.rs)
  }

  ghost predicate Invariant(p: Program, s: System) {
    && R.RowInvariant(s.run) && !s.run.status.IsScheduleTemplate()
    && OwnsAttempt(p, s)
    && (!s.run.status.IsTerminal() ==> OnCourse(p, s))
    && (s.run.status.Completed? ==> s.exec.Idle? && EvaluatesTo(p, s.memo, Returned(s.run.output.value)))
    && (s.run.status.Failed? ==>
          s.exec.Idle? && s.run.error.Some? &&
          (s.faulted || EvaluatesTo(p, s.memo, RaisedWith(s.run.error.value))))
  }

  /** A run as it is created, before any claim. */
  predicate Initial(s: System) {
    && R.RowInvariant(s.run) && s.run.status.Pending? && s.run.attempts == 0
    && s.memo == map[] && s.exec.Idle? && !s.faulted
  }

  /** No event of the protocol touches a completed entry of the memo: the one live executor fails only
      the attempt it began itself. */
  lemma EventKeepsMemo(p: Program, s: System, e: Event)
    requires PlainNames(p) && OwnsAttempt(p, s) && Enabled(p, s, e)
    ensures MemoKept(s.memo, Next(p, s, e).memo)
    ensures e.FailStep? ==> !Done(Get(s.memo, NameAt(p, s.exec.rs)))
  {
  }

  lemma EventKeepsAttempt(p: Program, s: System, e: Event)
    requires PlainNames(p) && OwnsAttempt(p, s) && Enabled(p, s, e)
    ensures OwnsAttempt(p, Next(p, s, e))
  {
  }

  lemma EventKeepsCourse(p: Program, s: System, e: Event)
    requires PlainNames(p) && Invariant(p, s) && Enabled(p, s, e)
    requires !s.run.status.IsTerminal()
    ensures OnCourse(p, Next(p, s, e))
  {
    var s' := Next(p, s, e);
    EventKeepsMemo(p, s, e);
    match e
    case BeginStep(_) =>
      ConsistentKept(p, s.memo, s'.memo, s.exec.rs);
      BeginOnCourse(p, s, e.lost);
    case CompleteStep(_) =>
      ConsistentKept(p, s.memo, s'.memo, s.exec.rs);
      if e.delivered {
        ConsistentSnoc(p, s'.memo, s.exec.rs, s.exec.value);
      }
    case FailStep(_, _) =>
      ConsistentKept(p, s.memo, s'.memo, s.exec.rs);
      if s'.exec.Raised? && !s'.faulted {
        assert EvaluatesVia(p, s'.memo, s.exec.rs, RaisedWith(s'.exec.error));
      }
    case Record(_, _, _) => RecordOnCourse(p, s, s');
    case _ =>
  }

  lemma BeginOnCourse(p: Program, s: System, lost: Option<string>)
    requires PlainNames(p) && Invariant(p, s) && Enabled(p, s, BeginStep(lost)) && !s.run.status.IsTerminal()
    ensures OnCourse(p, Next(p, s, BeginStep(lost)))
  {
    var s' := Next(p, s, BeginStep(lost));
    var rs := s.exec.rs;
    EventKeepsMemo(p, s, BeginStep(lost));
    ConsistentKept(p, s.memo, s'.memo, rs);
    match s'.exec
    case At(rs') => ConsistentSnoc(p, s'.memo, rs, rs'[|rs|]);
    case Raised(error) =>
      if !s'.faulted {
        assert EvaluatesVia(p, s'.memo, rs, RaisedWith(error));
      }
    case _ =>
  }

  /** A change of reserved names only. */
  lemma RecordOnCourse(p: Program, s: System, s': System)
    requires PlainNames(p) && OnCourse(p, s) && MemoSame(s.memo, s'.memo)
    requires s'.exec == s.exec && s'.faulted == s.faulted
    ensures OnCourse(p, s')
  {
    match s.exec
    case Idle | Claimed =>
    case Raised(error) =>
      if !s.faulted {
        EvaluationSame(p, s.memo, s'.memo, RaisedWith(error));
      }
    case _ => ConsistentKept(p, s.memo, s'.memo, s.exec.rs);
  }

  /** The results of finished runs stand. */
  lemma EventKeepsResults(p: Program, s: System, e: Event)
    requires PlainNames(p) && Invariant(p, s) && Enabled(p, s, e)
    ensures var s' := Next(p, s, e);
            && (s'.run.status.Completed? ==> s'.exec.Idle? && s'.run.output.Some? &&
                                             EvaluatesTo(p, s'.memo, Returned(s'.run.output.value)))
            && (s'.run.status.Failed? ==>
                  s'.exec.Idle? && s'.run.error.Some? &&
                  (s'.faulted || EvaluatesTo(p, s'.memo, RaisedWith(s'.run.error.value))))
  {
    var s' := Next(p, s, e);
    if s.run.status.Completed? {
      EventKeepsMemo(p, s, e);
      ReturnKept(p, s.memo, s'.memo, s.run.output.value);
    } else if s.run.status.Failed? {
      if !s.faulted {
        assert MemoSame(s.memo, s'.memo);
        EvaluationSame(p, s.memo, s'.memo, RaisedWith(s.run.error.value));
      }
    } else if e.Finish? && s.exec.At? && s.run.status.Running? {
      var a := p(s.exec.rs);
      if a.Return? {
        assert EvaluatesVia(p, s.memo, s.exec.rs, Returned(a.output));
      } else {
        assert EvaluatesVia(p, s.memo, s.exec.rs, RaisedWith(a.error));
      }
    }
  }

  lemma EventKeepsInvariant(p: Program, s: System, e: Event)
    requires PlainNames(p) && Invariant(p, s) && Enabled(p, s, e)
    ensures Invariant(p, Next(p, s, e))
  {
    EventKeepsAttempt(p, s, e);
    EventKeepsResults(p, s, e);
    EventKeepsRow(p, s, e);
    if !s.run.status.IsTerminal() {
      EventKeepsCourse(p, s, e);
    }
  }

  lemma EventKeepsRow(p: Program, s: System, e: Event)
    requires R.RowInvariant(s.run) && !s.run.status.IsScheduleTemplate() && Enabled(p, s, e)
    ensures var s' := Next(p, s, e);
            && R.RowInvariant(s'.run) && !s'.run.status.IsScheduleTemplate()
            && (s.run.status.IsTerminal() ==> s'.run.status == s.run.status)
            && s'.run.attempts == s.run.attempts + (if e.Claim? then 1 else 0)
  {
  }

  lemma {:induction false} InvariantHolds(p: Program, s: System, es: seq<Event>)
    requires PlainNames(p) && Invariant(p, s) && Legal(p, s, es)
    ensures Invariant(p, Final(p, s, es))
    decreases |es|
  {
    if es != [] {
      EventKeepsInvariant(p, s, es[0]);
      InvariantHolds(p, Next(p, s, es[0]), es[1..]);
    }
  }

  // ----- The theorems -----

  /** Replay refinement: however often the run was claimed, crashed, slept, retried and replayed, a
      COMPLETED run's output is what one uninterrupted evaluation against the memo returns, and
      nothing else is. */
  lemma ReplayRefinesEvaluation(p: Program, s: System, es: seq<Event>)
    requires PlainNames(p) && Initial(s) && Legal(p, s, es) && Final(p, s, es).run.status.Completed?
    ensures var s' := Final(p, s, es);
            && s'.run.output.Some?
            && forall r :: EvaluatesTo(p, s'.memo, r) <==> r == Returned(s'.run.output.value)
  {
    InvariantHolds(p, s, es);
    var s' := Final(p, s, es);
    forall r | EvaluatesTo(p, s'.memo, r) ensures r == Returned(s'.run.output.value) {
      EvaluationIsUnique(p, s'.memo, r, Returned(s'.run.output.value));
    }
  }

  /** A FAILED run's error is the error of the evaluation, unless the execution that failed it met a
      transport error or panicked; what earlier executions met does not matter. */
  lemma FailureRefinesEvaluation(p: Program, s: System, es: seq<Event>)
    requires PlainNames(p) && Initial(s) && Legal(p, s, es)
    requires Final(p, s, es).run.status.Failed? && !Final(p, s, es).faulted
    ensures var s' := Final(p, s, es);
            && s'.run.error.Some?
            && forall r :: EvaluatesTo(p, s'.memo, r) <==> r == RaisedWith(s'.run.error.value)
  {
    InvariantHolds(p, s, es);
    var s' := Final(p, s, es);
    forall r | EvaluatesTo(p, s'.memo, r) ensures r == RaisedWith(s'.run.error.value) {
      EvaluationIsUnique(p, s'.memo, r, RaisedWith(s'.run.error.value));
    }
  }

  /** While the run is not terminal, a live executor stands where the uninterrupted evaluation passes:
      its history is the only consistent one of its length. */
  lemma LivePositionIsOnTheEvaluation(p: Program, s: System, es: seq<Event>, rs: seq<Bytes>)
    requires PlainNames(p) && Initial(s) && Legal(p, s, es)
    requires var s' := Final(p, s, es);
             && !s'.run.status.IsTerminal()
             && !s'.exec.Idle? && !s'.exec.Claimed? && !s'.exec.Raised?
             && |rs| == |s'.exec.rs|
    ensures var s' := Final(p, s, es);
            Consistent(p, s'.memo, rs) <==> rs == s'.exec.rs
  {
    InvariantHolds(p, s, es);
    var s' := Final(p, s, es);
    if Consistent(p, s'.memo, rs) {
      HistoryIsDetermined(p, s'.memo, rs, s'.exec.rs);
    }
  }

  /** The memo is written once: a completed step keeps its log through every continuation. */
  lemma {:induction false} MemoIsWrittenOnce(p: Program, s: System, es: seq<Event>, name: string)
    requires PlainNames(p) && Invariant(p, s) && Legal(p, s, es)
    requires !Reserved(name) && Done(Get(s.memo, name))
    ensures Get(Final(p, s, es).memo, name) == Get(s.memo, name)
    decreases |es|
  {
    if es != [] {
      EventKeepsMemo(p, s, es[0]);
      EventKeepsInvariant(p, s, es[0]);
      MemoIsWrittenOnce(p, Next(p, s, es[0]), es[1..], name);
    }
  }
}
