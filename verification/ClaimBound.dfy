/** The claim bound is met: for all names there is code, and a run of it without losses, that is claimed
    exactly as often as the bound allows. Every sleep pauses, and every step fails until its last attempt. */
module ClaimBounds {
  import opened Basics
  import opened RetryPolicies
  import opened StepLog
  import opened Programs
  import opened Replay
  import opened Termination
  import R = Runs

  const OUTPUT: Bytes := [1]
  const FAILURE := StepError("again", false, Some(0))

  function PolicyOf(attempts: int): Option<RetryPolicy> {
    Some(RetryPolicy(attempts, 0, 0.0, 0, ["fatal"]))
  }

  /** All sleeps, then all steps. */
  function ActionAt(n: Names, k: nat): Action {
    if k < |n.sleeps| then Sleep(n.sleeps[k], 1)
    else if k < |n.sleeps| + |n.steps| then
      var step := n.steps[k - |n.sleeps|];
      Step(step.name, PolicyOf(step.attempts))
    else Return(OUTPUT)
  }

  function Greedy(n: Names): Program {
    rs => ActionAt(n, |rs|)
  }

  function NameOf(n: Names, k: nat): string {
    var a := ActionAt(n, k);
    if a.Calls() then a.name else ""
  }

  /** What the first k calls obtain. */
  function Results(n: Names, k: nat): (rs: seq<Bytes>)
    ensures |rs| == k
  {
    seq(k, i requires 0 <= i < k => if i < |n.sleeps| then [] else OUTPUT)
  }

  predicate Bounded(n: Names) {
    && Distinct(n)
    && (forall i :: 0 <= i < |n.steps| ==> n.steps[i].attempts >= 1 && !Reserved(n.steps[i].name))
    && (forall j :: 0 <= j < |n.sleeps| ==> !Reserved(n.sleeps[j]))
  }

  /** The first k calls are done, the next one has failed `fails` times, and the others are not begun. */
  predicate Progress(n: Names, m: Memo, k: nat, fails: nat) {
    && k <= |n.sleeps| + |n.steps|
    && (forall i :: 0 <= i < k ==>
          Done(Get(m, NameOf(n, i))) && Cached(Get(m, NameOf(n, i))) == if i < |n.sleeps| then [] else OUTPUT)
    && (forall i :: k < i < |n.sleeps| + |n.steps| ==> Get(m, NameOf(n, i)) == [])
    && (if k < |n.sleeps| + |n.steps| then
          var log := Get(m, NameOf(n, k));
          |log| == fails && !Done(log) && !InProgress(log)
        else fails == 0)
    && (fails > 0 ==> |n.sleeps| <= k && fails < n.steps[k - |n.sleeps|].attempts)
  }

  /** A run of the protocol that loses no executor. */
  predicate Goes(p: Program, s: System, es: seq<Event>, t: System) {
    Reaches(p, s, es, t) && Losses(es) == 0
  }

  lemma Then(p: Program, s: System, e: Event, es: seq<Event>, t: System)
    requires Enabled(p, s, e) && !Costs(e) && Goes(p, Next(p, s, e), es, t)
    ensures Goes(p, s, [e] + es, t)
  {
    OneEvent(p, s, e, es, t);
    assert ([e] + es)[1..] == es;
  }

  /** A live executor of the greedy code that has obtained the results of the first k calls. */
  predicate Live(n: Names, s: System, k: nat, fails: nat) {
    && s.exec == At(Results(n, k)) && s.run.status.Running? && s.run.availableAt.Some?
    && Progress(n, s.memo, k, fails)
  }

  /** Nobody executes the run; the next claim will find so much done. */
  predicate Rests(n: Names, s: System, k: nat, fails: nat) {
    && s.exec.Idle? && (s.run.status.Pending? || s.run.status.Sleeping?) && s.run.availableAt.Some?
    && Progress(n, WakeMemo(s.memo), k, fails)
  }

  /** Claims that the rest of the code still takes. */
  function ClaimsLeft(n: Names, k: nat, fails: nat): int
    requires k <= |n.sleeps| + |n.steps|
  {
    if k < |n.sleeps| then |n.sleeps| - k + TotalRetries(n.steps)
    else TotalRetries(n.steps[k - |n.sleeps|..]) - fails
  }

  lemma ClaimsLeftNext(n: Names, k: nat, fails: nat)
    requires |n.sleeps| <= k < |n.sleeps| + |n.steps|
    ensures ClaimsLeft(n, k, fails) == n.steps[k - |n.sleeps|].attempts - 1 - fails + ClaimsLeft(n, k + 1, 0)
    ensures ClaimsLeft(n, k, fails + 1) == ClaimsLeft(n, k, fails) - 1
  {
    var rest := n.steps[k - |n.sleeps|..];
    assert rest[1..] == n.steps[k + 1 - |n.sleeps|..];
  }

  lemma NamesDiffer(n: Names, i: nat, j: nat)
    requires Bounded(n) && i < |n.sleeps| + |n.steps| && j < |n.sleeps| + |n.steps| && i != j
    ensures NameOf(n, i) != NameOf(n, j)
  {
  }

  lemma ResultsNext(n: Names, k: nat)
    ensures Results(n, k + 1) == Results(n, k) + [if k < |n.sleeps| then [] else OUTPUT]
  {
  }

  /** Replaying a call that is done leaves the memo and goes on to the next one. */
  lemma ReplayOne(n: Names, s: System, i: nat, k: nat, fails: nat)
    requires Progress(n, s.memo, k, fails) && i < k && s.exec == At(Results(n, i))
    ensures Enabled(Greedy(n), s, BeginStep(None))
    ensures Next(Greedy(n), s, BeginStep(None)) == s.(exec := At(Results(n, i + 1)))
  {
    ResultsNext(n, i);
    var log := Get(s.memo, NameOf(n, i));
    assert Done(log);
    assert Put(s.memo, NameOf(n, i), log) == s.memo;
  }

  lemma {:induction false} ReplayAll(n: Names, s: System, i: nat, k: nat, fails: nat, es: seq<Event>, t: System)
    returns (all: seq<Event>)
    requires Progress(n, s.memo, k, fails) && i <= k && s.exec == At(Results(n, i))
    requires Goes(Greedy(n), s.(exec := At(Results(n, k))), es, t)
    ensures Goes(Greedy(n), s, all, t)
    decreases k - i
  {
    if i == k {
      all := es;
    } else {
      ReplayOne(n, s, i, k, fails);
      var next := Next(Greedy(n), s, BeginStep(None));
      assert next.(exec := At(Results(n, k))) == s.(exec := At(Results(n, k)));
      all := ReplayAll(n, next, i + 1, k, fails, es, t);
      Then(Greedy(n), s, BeginStep(None), all, t);
      all := [BeginStep(None)] + all;
    }
  }

  /** The system after the clock has come to the run and a claim. */
  function Reclaimed(n: Names, s: System, k: nat): System
    requires s.run.availableAt.Some?
  {
    var now := if s.run.availableAt.value > s.now then s.run.availableAt.value else s.now;
    System(now, R.Claimed(s.run, 0, 0, now), WakeMemo(s.memo), At(Results(n, k)), false)
  }

  /** One claim brings the code back to where it was. */
  lemma Resume(n: Names, s: System, k: nat, fails: nat, es: seq<Event>, t: System) returns (all: seq<Event>)
    requires Rests(n, s, k, fails) && Goes(Greedy(n), Reclaimed(n, s, k), es, t)
    ensures Goes(Greedy(n), s, all, t)
  {
    var p, r := Greedy(n), Reclaimed(n, s, k);
    var due := s.(now := r.now);
    var claimed := Next(p, due, Claim(0, 0));
    var woken := Next(p, claimed, WakeSleeps(true));
    assert Results(n, 0) == [];
    assert woken.(exec := At(Results(n, k))) == r;
    all := ReplayAll(n, woken, 0, k, fails, es, t);
    Then(p, claimed, WakeSleeps(true), all, t);
    Then(p, due, Claim(0, 0), [WakeSleeps(true)] + all, t);
    Then(p, s, Tick(r.now - s.now), [Claim(0, 0)] + ([WakeSleeps(true)] + all), t);
    all := [Tick(r.now - s.now)] + ([Claim(0, 0)] + ([WakeSleeps(true)] + all));
  }

  // ----- One call at a time -----

  /** Writing the log of the k-th call. */
  lemma ProgressPut(n: Names, m: Memo, k: nat, fails: nat, log: Log)
    requires Bounded(n) && Progress(n, m, k, fails) && k < |n.sleeps| + |n.steps|
    ensures Done(log) && Cached(log) == (if k < |n.sleeps| then [] else OUTPUT) ==>
              Progress(n, Put(m, NameOf(n, k), log), k + 1, 0)
    ensures |n.sleeps| <= k && 0 < |log| < n.steps[k - |n.sleeps|].attempts && !Done(log) && !InProgress(log) ==>
              Progress(n, Put(m, NameOf(n, k), log), k, |log|)
  {
    var m' := Put(m, NameOf(n, k), log);
    forall i | 0 <= i < |n.sleeps| + |n.steps| && i != k ensures Get(m', NameOf(n, i)) == Get(m, NameOf(n, i)) {
      NamesDiffer(n, i, k);
    }
  }

  /** The system after a sleep has been begun and scheduled. */
  function Asleep(n: Names, s: System, k: nat): System {
    var open := Begin([], SleepKind, None, StoredWithAttempt(None, s.run.retryPolicy));
    s.(memo := Put(s.memo, NameOf(n, k), open), run := R.SleepingRow(s.run, 1, s.now), exec := Idle)
  }

  lemma SleepPauses(n: Names, s: System, k: nat, es: seq<Event>, t: System)
    requires Bounded(n) && Live(n, s, k, 0) && k < |n.sleeps| && Goes(Greedy(n), Asleep(n, s, k), es, t)
    ensures Goes(Greedy(n), s, [BeginStep(None)] + ([SleepRun(None)] + es), t)
  {
    var p := Greedy(n);
    var pausing := Next(p, s, BeginStep(None));
    assert Get(s.memo, NameOf(n, k)) == [];
    assert Next(p, pausing, SleepRun(None)) == Asleep(n, s, k);
    Then(p, pausing, SleepRun(None), es, t);
    Then(p, s, BeginStep(None), [SleepRun(None)] + es, t);
  }

  lemma AsleepRests(n: Names, s: System, k: nat)
    requires Bounded(n) && Live(n, s, k, 0) && k < |n.sleeps|
    ensures Rests(n, Asleep(n, s, k), k + 1, 0)
  {
    var open := Begin([], SleepKind, None, StoredWithAttempt(None, s.run.retryPolicy));
    NothingToWake(n, s.memo, k, 0);
    ProgressPut(n, WakeMemo(s.memo), k, 0, Wake(open));
    assert WakeMemo(Put(s.memo, NameOf(n, k), open)) == Put(WakeMemo(s.memo), NameOf(n, k), Wake(open));
  }

  lemma NothingToWake(n: Names, m: Memo, k: nat, fails: nat)
    requires Progress(n, m, k, fails)
    ensures Progress(n, WakeMemo(m), k, fails)
  {
    forall i | 0 <= i < |n.sleeps| + |n.steps| ensures Get(WakeMemo(m), NameOf(n, i)) == Get(m, NameOf(n, i)) {
      assert i < k || i == k || i > k;
    }
  }

  /** The attempts that the policy of the k-th call, a step, allows are those of its name. */
  lemma FailureDecided(n: Names, k: nat, log: Log, runPolicy: Option<RetryPolicy>)
    requires Bounded(n) && |n.sleeps| <= k < |n.sleeps| + |n.steps| && !Done(log)
    ensures var step := n.steps[k - |n.sleeps|];
            var begun := Begin(log, FunctionKind, None, StoredWithAttempt(PolicyOf(step.attempts), runPolicy));
            WillRetry(begun, runPolicy, FAILURE) <==> |log| + 1 < step.attempts
  {
    var policy := StoredWithAttempt(PolicyOf(n.steps[k - |n.sleeps|].attempts), runPolicy).value;
    assert policy.nonRetryableErrors == ["fatal"];
    assert !("fatal" <= "again") by {
      assert "fatal"[0] != "again"[0];
    }
  }

  /** The log of the k-th call, a step, after the begin of its next attempt. */
  function BegunLog(n: Names, s: System, k: nat): Log
    requires |n.sleeps| <= k < |n.sleeps| + |n.steps|
  {
    Begin(Get(s.memo, NameOf(n, k)), FunctionKind, None,
          StoredWithAttempt(PolicyOf(n.steps[k - |n.sleeps|].attempts), s.run.retryPolicy))
  }

  function With(n: Names, s: System, k: nat, log: Log, exec: Exec): System {
    s.(memo := Put(s.memo, NameOf(n, k), log), exec := exec)
  }

  /** The closure of a step runs; what follows it decides the rest. */
  lemma StepBegins(n: Names, s: System, k: nat, fails: nat, es: seq<Event>, t: System)
    requires Bounded(n) && Live(n, s, k, fails) && |n.sleeps| <= k < |n.sleeps| + |n.steps|
    requires Goes(Greedy(n), With(n, s, k, BegunLog(n, s, k), Executing(Results(n, k))), es, t)
    ensures Goes(Greedy(n), s, [BeginStep(None)] + es, t)
  {
    assert Next(Greedy(n), s, BeginStep(None)) == With(n, s, k, BegunLog(n, s, k), Executing(Results(n, k)));
    Then(Greedy(n), s, BeginStep(None), es, t);
  }

  /** The system after a failed attempt and its rescheduling. */
  function PutBack(n: Names, s: System, k: nat): System
    requires |n.sleeps| <= k < |n.sleeps| + |n.steps|
  {
    With(n, s, k, Fail(BegunLog(n, s, k), s.run.retryPolicy, FAILURE), Idle).(run := R.RetryRow(s.run, 0, s.now))
  }

  lemma StepFails(n: Names, s: System, k: nat, fails: nat, es: seq<Event>, t: System) returns (all: seq<Event>)
    requires Bounded(n) && Live(n, s, k, fails) && |n.sleeps| <= k < |n.sleeps| + |n.steps|
    requires fails + 1 < n.steps[k - |n.sleeps|].attempts && Goes(Greedy(n), PutBack(n, s, k), es, t)
    ensures Goes(Greedy(n), s, all, t)
  {
    var p, rs, begun := Greedy(n), Results(n, k), BegunLog(n, s, k);
    FailureDecided(n, k, Get(s.memo, NameOf(n, k)), s.run.retryPolicy);
    var failed := With(n, s, k, Fail(begun, s.run.retryPolicy, FAILURE), Rescheduling(rs, 0));
    Then(p, failed, Reschedule(None), es, t);
    AttemptFails(n, s, k, [Reschedule(None)] + es, t);
    all := [ClosureFails(FAILURE)] + ([FailStep(0, None)] + ([Reschedule(None)] + es));
    StepBegins(n, s, k, fails, all, t);
    all := [BeginStep(None)] + all;
  }

  lemma AttemptFails(n: Names, s: System, k: nat, es: seq<Event>, t: System)
    requires |n.sleeps| <= k < |n.sleeps| + |n.steps|
    requires WillRetry(BegunLog(n, s, k), s.run.retryPolicy, FAILURE)
    requires var after := Fail(BegunLog(n, s, k), s.run.retryPolicy, FAILURE);
             Goes(Greedy(n), With(n, s, k, after, Rescheduling(Results(n, k), 0)), es, t)
    ensures Goes(Greedy(n), With(n, s, k, BegunLog(n, s, k), Executing(Results(n, k))),
                 [ClosureFails(FAILURE)] + ([FailStep(0, None)] + es), t)
  {
    var p, rs, begun := Greedy(n), Results(n, k), BegunLog(n, s, k);
    FailSchedules(n, s, k);
    Then(p, With(n, s, k, begun, Failing(rs, FAILURE)), FailStep(0, None), es, t);
    Then(p, With(n, s, k, begun, Executing(rs)), ClosureFails(FAILURE), [FailStep(0, None)] + es, t);
  }

  lemma FailSchedules(n: Names, s: System, k: nat)
    requires |n.sleeps| <= k < |n.sleeps| + |n.steps|
    requires WillRetry(BegunLog(n, s, k), s.run.retryPolicy, FAILURE)
    ensures var failing := With(n, s, k, BegunLog(n, s, k), Failing(Results(n, k), FAILURE));
            var after := Fail(BegunLog(n, s, k), s.run.retryPolicy, FAILURE);
            Next(Greedy(n), failing, FailStep(0, None)) == With(n, s, k, after, Rescheduling(Results(n, k), 0))
  {
    var failing := With(n, s, k, BegunLog(n, s, k), Failing(Results(n, k), FAILURE));
    var after := Fail(BegunLog(n, s, k), s.run.retryPolicy, FAILURE);
    assert Next(Greedy(n), failing, FailStep(0, None)).memo == Put(s.memo, NameOf(n, k), after);
  }

  lemma PutBackRests(n: Names, s: System, k: nat, fails: nat)
    requires Bounded(n) && Live(n, s, k, fails) && |n.sleeps| <= k < |n.sleeps| + |n.steps|
    requires fails + 1 < n.steps[k - |n.sleeps|].attempts
    ensures Rests(n, PutBack(n, s, k), k, fails + 1)
  {
    FailureDecided(n, k, Get(s.memo, NameOf(n, k)), s.run.retryPolicy);
    ProgressPut(n, s.memo, k, fails, Fail(BegunLog(n, s, k), s.run.retryPolicy, FAILURE));
    NothingToWake(n, PutBack(n, s, k).memo, k, fails + 1);
  }

  /** The system after an attempt that succeeds. */
  function Passed(n: Names, s: System, k: nat): System
    requires |n.sleeps| <= k < |n.sleeps| + |n.steps|
  {
    With(n, s, k, Complete(BegunLog(n, s, k), OUTPUT), At(Results(n, k + 1)))
  }

  lemma StepSucceeds(n: Names, s: System, k: nat, fails: nat, es: seq<Event>, t: System) returns (all: seq<Event>)
    requires Bounded(n) && Live(n, s, k, fails) && |n.sleeps| <= k < |n.sleeps| + |n.steps|
    requires Goes(Greedy(n), Passed(n, s, k), es, t)
    ensures Goes(Greedy(n), s, all, t)
  {
    AttemptSucceeds(n, s, k, es, t);
    all := [ClosureReturns(OUTPUT)] + ([CompleteStep(true)] + es);
    StepBegins(n, s, k, fails, all, t);
    all := [BeginStep(None)] + all;
  }

  lemma AttemptSucceeds(n: Names, s: System, k: nat, es: seq<Event>, t: System)
    requires |n.sleeps| <= k < |n.sleeps| + |n.steps| && Goes(Greedy(n), Passed(n, s, k), es, t)
    ensures Goes(Greedy(n), With(n, s, k, BegunLog(n, s, k), Executing(Results(n, k))),
                 [ClosureReturns(OUTPUT)] + ([CompleteStep(true)] + es), t)
  {
    var p, rs, begun := Greedy(n), Results(n, k), BegunLog(n, s, k);
    CompletePasses(n, s, k);
    Then(p, With(n, s, k, begun, Completing(rs, OUTPUT)), CompleteStep(true), es, t);
    Then(p, With(n, s, k, begun, Executing(rs)), ClosureReturns(OUTPUT), [CompleteStep(true)] + es, t);
  }

  lemma CompletePasses(n: Names, s: System, k: nat)
    requires |n.sleeps| <= k < |n.sleeps| + |n.steps|
    ensures var completing := With(n, s, k, BegunLog(n, s, k), Completing(Results(n, k), OUTPUT));
            Next(Greedy(n), completing, CompleteStep(true)) == Passed(n, s, k)
  {
    var begun := BegunLog(n, s, k);
    var completing := With(n, s, k, begun, Completing(Results(n, k), OUTPUT));
    ResultsNext(n, k);
    assert Next(Greedy(n), completing, CompleteStep(true)).memo == Put(s.memo, NameOf(n, k), Complete(begun, OUTPUT));
  }

  lemma PassedLives(n: Names, s: System, k: nat, fails: nat)
    requires Bounded(n) && Live(n, s, k, fails) && |n.sleeps| <= k < |n.sleeps| + |n.steps|
    ensures Live(n, Passed(n, s, k), k + 1, 0)
  {
    ProgressPut(n, s.memo, k, fails, Complete(BegunLog(n, s, k), OUTPUT));
  }

  /** The rest of the run, claimed as often as sleeps and retries are left. */
  lemma {:induction false} Finishes(n: Names, s: System, k: nat, fails: nat) returns (es: seq<Event>, t: System)
    requires Bounded(n) && Live(n, s, k, fails)
    ensures Goes(Greedy(n), s, es, t) && t.run.status.Completed?
    ensures t.run.attempts == s.run.attempts + ClaimsLeft(n, k, fails)
    decreases |n.sleeps| + |n.steps| - k, if |n.sleeps| <= k < |n.sleeps| + |n.steps|
                                         then n.steps[k - |n.sleeps|].attempts - fails else 0, 1
  {
    var p := Greedy(n);
    if k == |n.sleeps| + |n.steps| {
      es, t := [Finish], Next(p, s, Finish);
      LastEvent(p, s, Finish);
    } else if k < |n.sleeps| {
      AsleepRests(n, s, k);
      es, t := FinishesLater(n, Asleep(n, s, k), k + 1, 0);
      SleepPauses(n, s, k, es, t);
      es := [BeginStep(None)] + ([SleepRun(None)] + es);
    } else {
      es, t := StepsOn(n, s, k, fails);
    }
  }

  lemma {:induction false} FinishesLater(n: Names, s: System, k: nat, fails: nat) returns (es: seq<Event>, t: System)
    requires Bounded(n) && Rests(n, s, k, fails)
    ensures Goes(Greedy(n), s, es, t) && t.run.status.Completed?
    ensures t.run.attempts == s.run.attempts + 1 + ClaimsLeft(n, k, fails)
    decreases |n.sleeps| + |n.steps| - k, if |n.sleeps| <= k < |n.sleeps| + |n.steps|
                                         then n.steps[k - |n.sleeps|].attempts - fails else 0, 2
  {
    es, t := Finishes(n, Reclaimed(n, s, k), k, fails);
    es := Resume(n, s, k, fails, es, t);
  }

  lemma {:induction false} StepsOn(n: Names, s: System, k: nat, fails: nat) returns (es: seq<Event>, t: System)
    requires Bounded(n) && Live(n, s, k, fails) && |n.sleeps| <= k < |n.sleeps| + |n.steps|
    ensures Goes(Greedy(n), s, es, t) && t.run.status.Completed?
    ensures t.run.attempts == s.run.attempts + ClaimsLeft(n, k, fails)
    decreases |n.sleeps| + |n.steps| - k, n.steps[k - |n.sleeps|].attempts - fails, 0
  {
    ClaimsLeftNext(n, k, fails);
    if fails + 1 < n.steps[k - |n.sleeps|].attempts {
      PutBackRests(n, s, k, fails);
      var later;
      later, t := FinishesLater(n, PutBack(n, s, k), k, fails + 1);
      es := StepFails(n, s, k, fails, later, t);
    } else {
      es, t := LastAttempt(n, s, k, fails);
    }
  }

  lemma {:induction false} LastAttempt(n: Names, s: System, k: nat, fails: nat) returns (es: seq<Event>, t: System)
    requires Bounded(n) && Live(n, s, k, fails) && |n.sleeps| <= k < |n.sleeps| + |n.steps|
    ensures Goes(Greedy(n), s, es, t) && t.run.status.Completed?
    ensures t.run.attempts == s.run.attempts + ClaimsLeft(n, k + 1, 0)
    decreases |n.sleeps| + |n.steps| - k, 0
  {
    PassedLives(n, s, k, fails);
    var later;
    later, t := Finishes(n, Passed(n, s, k), k + 1, 0);
    es := StepSucceeds(n, s, k, fails, later, t);
  }

  lemma GreedyUses(n: Names, runPolicy: Option<RetryPolicy>)
    requires Bounded(n)
    ensures PlainNames(Greedy(n)) && Uses(Greedy(n), n, runPolicy)
  {
    var p := Greedy(n);
    forall rs | p(rs).Step? ensures StepIn(n, p(rs).name, MaxAttempts(p(rs).policy, runPolicy)) {
      var step := n.steps[|rs| - |n.sleeps|];
      assert MaxAttempts(PolicyOf(step.attempts), runPolicy) == step.attempts;
    }
  }

  /** The bound on claims is the least one: for all names there is code that uses them, and a run of it
      without losses, that completes after exactly so many claims. */
  lemma BoundIsMet(n: Names, s: System) returns (es: seq<Event>)
    requires Bounded(n) && Initial(s)
    ensures PlainNames(Greedy(n)) && Uses(Greedy(n), n, s.run.retryPolicy)
    ensures Legal(Greedy(n), s, es) && Losses(es) == 0
    ensures Final(Greedy(n), s, es).run.attempts == ClaimBound(n)
    ensures Final(Greedy(n), s, es).run.status.Completed?
  {
    GreedyUses(n, s.run.retryPolicy);
    var t;
    es, t := FinishesLater(n, s, 0, 0);
  }
}
