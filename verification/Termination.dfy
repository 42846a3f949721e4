/** How often a run can be claimed. */
module Termination {
  import opened Basics
  import opened RetryPolicies
  import opened StepLog
  import opened Programs
  import opened Replay
  import R = Runs

  datatype Bound = Bound(name: string, attempts: nat)

  /** The function steps with their maximum_attempts, and the sleeps, that a program uses. */
  datatype Names = Names(steps: seq<Bound>, sleeps: seq<string>)

  predicate Distinct(n: Names) {
    && (forall i, j :: 0 <= i < j < |n.steps| ==> n.steps[i].name != n.steps[j].name)
    && (forall i, j :: 0 <= i < j < |n.sleeps| ==> n.sleeps[i] != n.sleeps[j])
    && (forall i, j :: 0 <= i < |n.steps| && 0 <= j < |n.sleeps| ==> n.steps[i].name != n.sleeps[j])
  }

  predicate StepIn(n: Names, name: string, attempts: int) {
    exists i :: 0 <= i < |n.steps| && n.steps[i].name == name && n.steps[i].attempts == attempts
  }

  /** The program stays within the names, and the policy of every attempt it begins allows the stated
      positive number of attempts. */
  ghost predicate Uses(p: Program, n: Names, runPolicy: Option<RetryPolicy>) {
    && Distinct(n)
    && (forall i :: 0 <= i < |n.steps| ==> n.steps[i].attempts >= 1 && !Reserved(n.steps[i].name))
    && (forall j :: 0 <= j < |n.sleeps| ==> !Reserved(n.sleeps[j]))
    && (forall rs :: p(rs).Step? ==> StepIn(n, p(rs).name, MaxAttempts(p(rs).policy, runPolicy)))
    && (forall rs :: p(rs).Sleep? ==> p(rs).name in n.sleeps)
  }

  function MaxAttempts(request: Option<RetryPolicy>, runPolicy: Option<RetryPolicy>): int {
    PolicyAtFailure(StoredWithAttempt(request, runPolicy), runPolicy).maximumAttempts
  }

  /** What can cost a claim of its own: the loss of the executor, and a wake-up of sleeps that fails. */
  predicate Costs(e: Event) {
    e.Crash? || (e.WakeSleeps? && !e.ok)
  }

  function Losses(es: seq<Event>): nat {
    if es == [] then 0 else (if Costs(es[0]) then 1 else 0) + Losses(es[1..])
  }

  lemma {:induction false} LossesSnoc(es: seq<Event>, e: Event)
    ensures Losses(es + [e]) == Losses(es) + if Costs(e) then 1 else 0
  {
    if es == [] {
      assert es + [e] == [e];
    } else {
      LossesSnoc(es[1..], e);
      assert (es + [e])[1..] == es[1..] + [e];
    }
  }

  // ----- The measure -----

  /** Failed attempts of a step. */
  function Spent(log: Log): nat {
    if InProgress(log) || Done(log) then |log| - 1 else |log|
  }

  /** Retries the step can still schedule. */
  function Left(log: Log, attempts: nat): nat {
    if attempts - 1 >= Spent(log) then attempts - 1 - Spent(log) else 0
  }

  function StepsLeft(m: Memo, steps: seq<Bound>): nat {
    if steps == [] then 0 else Left(Get(m, steps[0].name), steps[0].attempts) + StepsLeft(m, steps[1..])
  }

  /** Sleeps not begun yet. */
  function SleepsLeft(m: Memo, sleeps: seq<string>): nat {
    if sleeps == [] then 0 else (if Get(m, sleeps[0]) == [] then 1 else 0) + SleepsLeft(m, sleeps[1..])
  }

  function TotalRetries(steps: seq<Bound>): int {
    if steps == [] then 0 else steps[0].attempts - 1 + TotalRetries(steps[1..])
  }

  function ClaimBound(n: Names): int {
    1 + |n.sleeps| + TotalRetries(n.steps)
  }

  /** Another claim is coming: the run waits, or its executor is about to put it back, or has put it back
      and does not know. */
  function ClaimDue(s: System): nat {
    if !s.run.status.IsTerminal()
       && (s.exec.Idle? || s.exec.Rescheduling? || s.exec.Pausing? || (s.exec.Raised? && !s.run.status.Running?))
    then 1 else 0
  }

  predicate SomeSleepOpen(m: Memo, n: Names) {
    exists j :: 0 <= j < |n.sleeps| && InProgress(Get(m, n.sleeps[j]))
  }

  /** An execution that may still come to a sleep begun earlier, and pause for it again. */
  function Debt(n: Names, s: System): nat {
    if (s.exec.At? || s.exec.Executing? || s.exec.Completing? || s.exec.Failing?) && SomeSleepOpen(s.memo, n) then 1
    else 0
  }

  // ----- The invariant -----

  /** Not begun, over, or open as a sleep. */
  predicate SleepSettled(m: Memo, name: string) {
    var log := Get(m, name);
    log == [] || Done(log) || (InProgress(log) && Last(log).kind.SleepKind?)
  }

  /** The attempt in hand carries the policy of the step it belongs to. */
  predicate PolicyInHand(p: Program, s: System) {
    (s.exec.Executing? || s.exec.Failing?) ==>
      && p(s.exec.rs).Step?
      && InProgress(Get(s.memo, p(s.exec.rs).name))
      && Last(Get(s.memo, p(s.exec.rs).name)).policy == StoredWithAttempt(p(s.exec.rs).policy, s.run.retryPolicy)
  }

  ghost predicate Shape(p: Program, n: Names, s: System) {
    && R.RowInvariant(s.run) && !s.run.status.IsScheduleTemplate()
    && OwnsAttempt(p, s)
    && PolicyInHand(p, s)
    && (!s.exec.Idle? && !s.exec.Raised? && !s.run.status.IsTerminal() ==> s.run.status.Running?)
    && (forall j :: 0 <= j < |n.sleeps| ==> SleepSettled(s.memo, n.sleeps[j]))
  }

  predicate WithinBudget(n: Names, s: System, losses: nat) {
    s.run.attempts + ClaimDue(s) + Debt(n, s) + StepsLeft(s.memo, n.steps) + SleepsLeft(s.memo, n.sleeps)
    <= ClaimBound(n) + losses
  }

  // ----- How the measure moves -----

  /** Changing one log moves at most that step's share. */
  lemma {:induction false} StepsLeftPut(m: Memo, steps: seq<Bound>, name: string, log: Log)
    requires forall i, j :: 0 <= i < j < |steps| ==> steps[i].name != steps[j].name
    ensures (forall i :: 0 <= i < |steps| ==> steps[i].name != name) ==>
              StepsLeft(Put(m, name, log), steps) == StepsLeft(m, steps)
    ensures forall i :: 0 <= i < |steps| && steps[i].name == name ==>
              StepsLeft(Put(m, name, log), steps) - StepsLeft(m, steps)
              == Left(log, steps[i].attempts) - Left(Get(m, name), steps[i].attempts)
  {
    if steps != [] {
      assert forall i :: 0 <= i < |steps[1..]| ==> steps[1..][i] == steps[i + 1];
      StepsLeftPut(m, steps[1..], name, log);
      forall i | 0 <= i < |steps| && steps[i].name == name
        ensures StepsLeft(Put(m, name, log), steps) - StepsLeft(m, steps)
                == Left(log, steps[i].attempts) - Left(Get(m, name), steps[i].attempts)
      {
        if i > 0 {
          assert steps[1..][i - 1].name == name;
        }
      }
    }
  }

  lemma {:induction false} SleepsLeftPut(m: Memo, sleeps: seq<string>, name: string, log: Log)
    requires forall i, j :: 0 <= i < j < |sleeps| ==> sleeps[i] != sleeps[j]
    requires log != []
    ensures SleepsLeft(Put(m, name, log), sleeps) ==
            SleepsLeft(m, sleeps) - if name in sleeps && Get(m, name) == [] then 1 else 0
  {
    if sleeps != [] {
      assert forall i :: 0 <= i < |sleeps[1..]| ==> sleeps[1..][i] == sleeps[i + 1];
      SleepsLeftPut(m, sleeps[1..], name, log);
      if name == sleeps[0] {
        assert name !in sleeps[1..];
      }
    }
  }

  lemma {:induction false} LeftAfterWake(m: Memo, steps: seq<Bound>, sleeps: seq<string>)
    ensures StepsLeft(WakeMemo(m), steps) == StepsLeft(m, steps)
    ensures SleepsLeft(WakeMemo(m), sleeps) == SleepsLeft(m, sleeps)
    decreases |steps| + |sleeps|
  {
    if steps != [] {
      LeftAfterWake(m, steps[1..], sleeps);
    } else if sleeps != [] {
      LeftAfterWake(m, steps, sleeps[1..]);
    }
  }

  lemma {:induction false} AllLeftAtStart(steps: seq<Bound>, sleeps: seq<string>)
    requires forall i :: 0 <= i < |steps| ==> steps[i].attempts >= 1
    ensures StepsLeft(map[], steps) == TotalRetries(steps)
    ensures SleepsLeft(map[], sleeps) == |sleeps|
    decreases |steps| + |sleeps|
  {
    if steps != [] {
      AllLeftAtStart(steps[1..], sleeps);
    } else if sleeps != [] {
      AllLeftAtStart(steps, sleeps[1..]);
    }
  }

  // ----- Preservation -----

  lemma SleepsStaySettled(p: Program, n: Names, s: System, e: Event, name: string)
    requires Uses(p, n, s.run.retryPolicy) && Shape(p, n, s) && Enabled(p, s, e)
    requires name in n.sleeps
    ensures SleepSettled(Next(p, s, e).memo, name)
  {
    assert SleepSettled(s.memo, name);
    StepNameIsNoSleep(p, n, s, name);
  }

  lemma StepNameIsNoSleep(p: Program, n: Names, s: System, name: string)
    requires Uses(p, n, s.run.retryPolicy) && name in n.sleeps
    ensures forall rs :: p(rs).Step? ==> p(rs).name != name
  {
    forall rs | p(rs).Step? ensures p(rs).name != name {
      assert StepIn(n, p(rs).name, MaxAttempts(p(rs).policy, s.run.retryPolicy));
    }
  }

  lemma EventKeepsShape(p: Program, n: Names, s: System, e: Event)
    requires PlainNames(p) && Uses(p, n, s.run.retryPolicy) && Shape(p, n, s) && Enabled(p, s, e)
    ensures Shape(p, n, Next(p, s, e)) && Next(p, s, e).run.retryPolicy == s.run.retryPolicy
  {
    var s' := Next(p, s, e);
    EventKeepsAttempt(p, s, e);
    EventKeepsRow(p, s, e);
    forall j | 0 <= j < |n.sleeps| ensures SleepSettled(s'.memo, n.sleeps[j]) {
      SleepsStaySettled(p, n, s, e, n.sleeps[j]);
    }
  }

  /** Writing the log of a function step: the budget moves with its own share. */
  lemma StepBudget(p: Program, n: Names, s: System, rs: seq<Bytes>, log: Log)
    requires Uses(p, n, s.run.retryPolicy) && p(rs).Step? && log != []
    ensures var name := p(rs).name;
            var attempts := MaxAttempts(p(rs).policy, s.run.retryPolicy);
            && attempts >= 1
            && SleepsLeft(Put(s.memo, name, log), n.sleeps) == SleepsLeft(s.memo, n.sleeps)
            && StepsLeft(Put(s.memo, name, log), n.steps) - StepsLeft(s.memo, n.steps)
               == Left(log, attempts) - Left(Get(s.memo, name), attempts)
  {
    var name := p(rs).name;
    var attempts := MaxAttempts(p(rs).policy, s.run.retryPolicy);
    assert StepIn(n, name, attempts);
    var i :| 0 <= i < |n.steps| && n.steps[i].name == name && n.steps[i].attempts == attempts;
    StepsLeftPut(s.memo, n.steps, name, log);
    SleepsLeftPut(s.memo, n.sleeps, name, log);
    assert n.steps[i].name == name;
  }

  /** Writing the log of a sleep, or a reserved log. */
  lemma OtherBudget(p: Program, n: Names, s: System, name: string, log: Log)
    requires Uses(p, n, s.run.retryPolicy) && log != [] && (name in n.sleeps || Reserved(name))
    ensures StepsLeft(Put(s.memo, name, log), n.steps) == StepsLeft(s.memo, n.steps)
    ensures SleepsLeft(Put(s.memo, name, log), n.sleeps) ==
            SleepsLeft(s.memo, n.sleeps) - if name in n.sleeps && Get(s.memo, name) == [] then 1 else 0
  {
    StepsLeftPut(s.memo, n.steps, name, log);
    SleepsLeftPut(s.memo, n.sleeps, name, log);
  }

  /** Writing the log of a function step opens no sleep. */
  lemma StepOpensNoSleep(p: Program, n: Names, s: System, rs: seq<Bytes>, log: Log)
    requires Uses(p, n, s.run.retryPolicy) && p(rs).Step?
    ensures SomeSleepOpen(Put(s.memo, p(rs).name, log), n) <==> SomeSleepOpen(s.memo, n)
  {
    assert StepIn(n, p(rs).name, MaxAttempts(p(rs).policy, s.run.retryPolicy));
    assert forall j :: 0 <= j < |n.sleeps| ==>
             Get(Put(s.memo, p(rs).name, log), n.sleeps[j]) == Get(s.memo, n.sleeps[j]);
  }

  lemma BeginFunctionKeepsBudget(p: Program, n: Names, s: System, lost: Option<string>, losses: nat)
    requires Uses(p, n, s.run.retryPolicy) && Shape(p, n, s)
    requires Enabled(p, s, BeginStep(lost)) && p(s.exec.rs).Step? && WithinBudget(n, s, losses)
    ensures WithinBudget(n, Next(p, s, BeginStep(lost)), losses)
  {
    var rs := s.exec.rs;
    var log := Get(s.memo, p(rs).name);
    var log' := Begin(log, FunctionKind, None, StoredWithAttempt(p(rs).policy, s.run.retryPolicy));
    var s' := Next(p, s, BeginStep(lost));
    BeginFunctionMoves(p, s, lost);
    StepOpensNoSleep(p, n, s, rs, log');
    StepBudget(p, n, s, rs, log');
    BeginLeft(log, p(rs).policy, s.run.retryPolicy, MaxAttempts(p(rs).policy, s.run.retryPolicy));
  }

  lemma BeginFunctionMoves(p: Program, s: System, lost: Option<string>)
    requires Enabled(p, s, BeginStep(lost)) && p(s.exec.rs).Step?
    ensures var s' := Next(p, s, BeginStep(lost));
            var name := p(s.exec.rs).name;
            && s'.memo == Put(s.memo, name, Begin(Get(s.memo, name), FunctionKind, None,
                                                  StoredWithAttempt(p(s.exec.rs).policy, s.run.retryPolicy)))
            && s'.run == s.run && (s'.exec.Executing? || s'.exec.At? || s'.exec.Raised?)
  {
  }

  lemma BeginLeft(log: Log, request: Option<RetryPolicy>, runPolicy: Option<RetryPolicy>, attempts: nat)
    ensures Left(Begin(log, FunctionKind, None, StoredWithAttempt(request, runPolicy)), attempts) <= Left(log, attempts)
  {
  }

  /** A sleep pauses the run the first time it is begun, and again only if it was left open. */
  lemma BeginSleepKeepsBudget(p: Program, n: Names, s: System, lost: Option<string>, losses: nat)
    requires Uses(p, n, s.run.retryPolicy) && Shape(p, n, s)
    requires Enabled(p, s, BeginStep(lost)) && p(s.exec.rs).Sleep? && WithinBudget(n, s, losses)
    ensures WithinBudget(n, Next(p, s, BeginStep(lost)), losses)
  {
    var name := p(s.exec.rs).name;
    var log := Get(s.memo, name);
    var log' := Begin(log, SleepKind, None, StoredWithAttempt(None, s.run.retryPolicy));
    var s' := Next(p, s, BeginStep(lost));
    assert name in n.sleeps;
    assert SleepSettled(s.memo, name);
    assert s'.memo == Put(s.memo, name, log') && s'.run == s.run;
    assert !Done(log) ==> s'.exec.Pausing? || s'.exec.Raised?;
    OtherBudget(p, n, s, name, log');
    BeginOpensSleep(n, s.memo, name, log');
  }

  lemma BeginOpensSleep(n: Names, m: Memo, name: string, log': Log)
    requires name in n.sleeps
    ensures InProgress(Get(m, name)) ==> SomeSleepOpen(m, n)
    ensures log' == Get(m, name) ==> (SomeSleepOpen(Put(m, name, log'), n) <==> SomeSleepOpen(m, n))
  {
    if log' == Get(m, name) {
      assert forall j :: 0 <= j < |n.sleeps| ==> Get(Put(m, name, log'), n.sleeps[j]) == Get(m, n.sleeps[j]);
    }
  }

  lemma CompleteLeft(log: Log, output: Bytes, attempts: nat)
    requires InProgress(log) || Done(log)
    ensures Left(Complete(log, output), attempts) == Left(log, attempts)
  {
  }

  lemma CompleteKeepsBudget(p: Program, n: Names, s: System, delivered: bool, losses: nat)
    requires Uses(p, n, s.run.retryPolicy) && Shape(p, n, s) && s.exec.Completing? && WithinBudget(n, s, losses)
    ensures WithinBudget(n, Next(p, s, CompleteStep(delivered)), losses)
  {
    var rs := s.exec.rs;
    var log := Get(s.memo, p(rs).name);
    var s' := Next(p, s, CompleteStep(delivered));
    assert s'.memo == Put(s.memo, p(rs).name, Complete(log, s.exec.value)) && s'.run == s.run && ClaimDue(s') == 0;
    StepOpensNoSleep(p, n, s, rs, Complete(log, s.exec.value));
    StepBudget(p, n, s, rs, Complete(log, s.exec.value));
    CompleteLeft(log, s.exec.value, MaxAttempts(p(rs).policy, s.run.retryPolicy));
  }

  /** A failed attempt gives up a retry, whether or not it takes it. */
  lemma FailLeft(log: Log, runPolicy: Option<RetryPolicy>, failure: StepError, attempts: nat)
    requires InProgress(log) && PolicyAtFailure(Last(log).policy, runPolicy).maximumAttempts == attempts
    ensures Left(Fail(log, runPolicy, failure), attempts) + (if WillRetry(log, runPolicy, failure) then 1 else 0)
         <= Left(log, attempts)
  {
  }

  lemma FailKeepsBudget(p: Program, n: Names, s: System, jitterMs: nat, lost: Option<string>, losses: nat)
    requires Uses(p, n, s.run.retryPolicy) && Shape(p, n, s) && s.exec.Failing? && WithinBudget(n, s, losses)
    ensures WithinBudget(n, Next(p, s, FailStep(jitterMs, lost)), losses)
  {
    var rs := s.exec.rs;
    var log := Get(s.memo, p(rs).name);
    var s' := Next(p, s, FailStep(jitterMs, lost));
    var log' := Fail(log, s.run.retryPolicy, s.exec.failure);
    assert s'.memo == Put(s.memo, p(rs).name, log') && s'.run == s.run;
    assert ClaimDue(s') <= if WillRetry(log, s.run.retryPolicy, s.exec.failure) then 1 else 0;
    StepOpensNoSleep(p, n, s, rs, log');
    StepBudget(p, n, s, rs, log');
    FailLeft(log, s.run.retryPolicy, s.exec.failure, MaxAttempts(p(rs).policy, s.run.retryPolicy));
  }

  lemma WakeKeepsBudget(p: Program, n: Names, s: System, ok: bool, losses: nat)
    requires Shape(p, n, s) && s.exec.Claimed? && WithinBudget(n, s, losses)
    ensures WithinBudget(n, Next(p, s, WakeSleeps(ok)), losses + if ok then 0 else 1)
  {
    if ok {
      LeftAfterWake(s.memo, n.steps, n.sleeps);
      forall j | 0 <= j < |n.sleeps| ensures !InProgress(Get(WakeMemo(s.memo), n.sleeps[j])) {
        assert SleepSettled(s.memo, n.sleeps[j]);
      }
    }
  }

  lemma RecordKeepsBudget(p: Program, n: Names, s: System, e: Event, losses: nat)
    requires Uses(p, n, s.run.retryPolicy) && e.Record? && Enabled(p, s, e) && WithinBudget(n, s, losses)
    ensures WithinBudget(n, Next(p, s, e), losses)
  {
    var name := LifecycleStep(e.kind);
    var log := Lifecycle(Get(s.memo, name), e.kind, e.output, e.text);
    OtherBudget(p, n, s, name, log);
    assert forall j :: 0 <= j < |n.sleeps| ==> Get(Put(s.memo, name, log), n.sleeps[j]) == Get(s.memo, n.sleeps[j]);
    assert SomeSleepOpen(Put(s.memo, name, log), n) <==> SomeSleepOpen(s.memo, n);
  }

  /** The events that write no log. */
  lemma QuietEventKeepsBudget(p: Program, n: Names, s: System, e: Event, losses: nat)
    requires Shape(p, n, s) && Enabled(p, s, e) && WithinBudget(n, s, losses)
    requires !e.BeginStep? && !e.CompleteStep? && !e.FailStep? && !e.WakeSleeps? && !e.Record?
    ensures WithinBudget(n, Next(p, s, e), losses + if e.Crash? then 1 else 0)
  {
    assert Next(p, s, e).memo == s.memo;
  }

  lemma EventKeepsBudget(p: Program, n: Names, s: System, e: Event, losses: nat)
    requires PlainNames(p) && Uses(p, n, s.run.retryPolicy) && Shape(p, n, s) && Enabled(p, s, e)
    requires WithinBudget(n, s, losses)
    ensures WithinBudget(n, Next(p, s, e), losses + if Costs(e) then 1 else 0)
  {
    match e
    case BeginStep(lost) =>
      if p(s.exec.rs).Step? {
        BeginFunctionKeepsBudget(p, n, s, lost, losses);
      } else {
        BeginSleepKeepsBudget(p, n, s, lost, losses);
      }
    case CompleteStep(delivered) => CompleteKeepsBudget(p, n, s, delivered, losses);
    case FailStep(jitterMs, lost) => FailKeepsBudget(p, n, s, jitterMs, lost, losses);
    case WakeSleeps(ok) => WakeKeepsBudget(p, n, s, ok, losses);
    case Record(_, _, _) => RecordKeepsBudget(p, n, s, e, losses);
    case _ => QuietEventKeepsBudget(p, n, s, e, losses);
  }

  lemma {:induction false} BudgetHolds(p: Program, n: Names, s: System, es: seq<Event>, losses: nat)
    requires PlainNames(p) && Uses(p, n, s.run.retryPolicy) && Shape(p, n, s) && WithinBudget(n, s, losses)
    requires Legal(p, s, es)
    ensures WithinBudget(n, Final(p, s, es), losses + Losses(es))
    decreases |es|
  {
    if es != [] {
      EventKeepsShape(p, n, s, es[0]);
      EventKeepsBudget(p, n, s, es[0], losses);
      BudgetHolds(p, n, Next(p, s, es[0]), es[1..], losses + if Costs(es[0]) then 1 else 0);
    }
  }

  /** A run is claimed at most once, plus once for every sleep, once for every retry its steps allow, and
      once for every lost executor and every failed wake-up; and when the bound is reached and nobody
      executes it, it is terminal. */
  lemma ClaimsAreBounded(p: Program, n: Names, s: System, es: seq<Event>)
    requires PlainNames(p) && Initial(s) && Uses(p, n, s.run.retryPolicy) && Legal(p, s, es)
    ensures Final(p, s, es).run.attempts <= ClaimBound(n) + Losses(es)
    ensures Final(p, s, es).run.attempts == ClaimBound(n) + Losses(es) && Final(p, s, es).exec.Idle? ==>
              Final(p, s, es).run.status.IsTerminal()
  {
    AllLeftAtStart(n.steps, n.sleeps);
    assert forall j :: 0 <= j < |n.sleeps| ==> SleepSettled(s.memo, n.sleeps[j]);
    BudgetHolds(p, n, s, es, 0);
  }
}
