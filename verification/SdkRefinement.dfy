/** The calls of the SDK, as their contracts in SdkContext tell them, are runs of the replay protocol. */
module SdkRefinement {
  import opened Basics
  import opened RetryPolicies
  import L = StepLog
  import P = Programs
  import R = Runs
  import opened Replay
  import C = SdkContext

  // ----- The events of a call -----

  /** The tries of CompleteStep as the protocol sees them. A value too large is refused again and again;
      a run that became terminal refuses once, and the SDK takes that for success. */
  function CommitEvents(tries: seq<C.Try>, terminal: bool): seq<Event> {
    if tries == [] then [RpcError(C.TRANSPORT_ERROR)]
    else
      match tries[0]
      case LostRequest => CommitEvents(tries[1..], terminal)
      case LostReply => (if terminal then [] else [CompleteStep(false)]) + CommitEvents(tries[1..], terminal)
      case Answered => [if terminal then CompleteRefused else CompleteStep(true)]
  }

  function Lost(t: C.Try): Option<string> {
    if t.Answered? then None else Some(C.TRANSPORT_ERROR)
  }

  function FailEvents(c: C.Call, retries: bool): seq<Event> {
    if c.name == "" || c.fail.LostRequest? then [RpcError(C.Refusal(c.fail).message)]
    else [FailStep(c.jitterMs, Lost(c.fail))] + if retries then [Reschedule(Lost(c.fail))] else []
  }

  function StepEvents(log: L.Log, c: C.Call, runPolicy: Option<RetryPolicy>, payloadMax: nat): seq<Event> {
    if c.begin.LostRequest? then [RpcError(C.TRANSPORT_ERROR)]
    else
      [BeginStep(Lost(c.begin))]
      + if L.Done(log) || c.begin.LostReply? then []
        else
          match c.outcome
          case Value(v) => [ClosureReturns(v)] + CommitEvents(if |v| <= payloadMax then c.tries else [], false)
          case Failure(f) => [ClosureFails(f)] + FailEvents(c, C.Retries(log, c, runPolicy))
          case Panics(message) => [Panic(message)]
  }

  function SleepEvents(log: L.Log, begin: C.Try, pause: C.Try): seq<Event> {
    if begin.LostRequest? then [RpcError(C.TRANSPORT_ERROR)]
    else
      [BeginStep(Lost(begin))]
      + if L.Done(log) || begin.LostReply? then []
        else if pause.LostRequest? then [RpcError(C.TRANSPORT_ERROR)]
        else [SleepRun(Lost(pause))]
  }

  // ----- Where the events lead -----

  function ExecAfter(rs: seq<Bytes>, ending: C.Ending): Exec {
    match ending
    case Obtained(v) => At(rs + [v])
    case Paused => Idle
    case Failed(message) => Raised(message)
  }

  /** The ending comes from a lost or refused call or from a panic, not from the code. */
  predicate Faults(log: L.Log, c: C.Call, payloadMax: nat) {
    || !c.begin.Answered?
    || (!L.Done(log) &&
        match c.outcome
        case Value(v) => C.Answered !in c.tries || |v| > payloadMax
        case Failure(_) => c.name == "" || !c.fail.Answered?
        case Panics(_) => true)
  }

  /** The system after one step call on a run that is not terminal. */
  function AfterStep(p: P.Program, s: System, c: C.Call, payloadMax: nat): System
    requires s.exec.At?
  {
    var policy := s.run.retryPolicy;
    var log := P.Get(s.memo, c.name);
    s.(memo := if c.begin.LostRequest? then s.memo
               else Put(s.memo, c.name, C.LogAfter(log, c, policy, payloadMax)),
    exec := ExecAfter(s.exec.rs, C.EndingOf(log, c, policy, payloadMax)),
    run := if C.Retries(log, c, policy)
           then R.RetryRow(s.run, c.outcome.failure.retryAfterMs.GetOr(c.jitterMs), s.now) else s.run,
    faulted := s.faulted || Faults(log, c, payloadMax))
  }

  /** The call that the code makes where it stands. */
  predicate IsCall(p: P.Program, s: System, c: C.Call) {
    && s.exec.At? && p(s.exec.rs) == P.Step(c.name, c.request)
    && (c.outcome.Value? ==> c.outcome.value != [])
  }

  function AfterCommit(s: System, name: string, tries: seq<C.Try>, terminal: bool): System
    requires s.exec.Completing?
  {
    s.(memo := if C.Reached(tries) && !terminal
               then Put(s.memo, name, L.Complete(P.Get(s.memo, name), s.exec.value)) else s.memo,
    exec := if C.Answered in tries then At(s.exec.rs + [s.exec.value]) else Raised(C.TRANSPORT_ERROR),
    faulted := s.faulted || C.Answered !in tries)
  }

  /** The retry loop, whether or not the run has become terminal meanwhile. */
  lemma {:induction false} CommitRefines(p: P.Program, s: System, name: string, tries: seq<C.Try>, terminal: bool)
    requires s.exec.Completing? && p(s.exec.rs).Step? && p(s.exec.rs).name == name
    requires terminal ==> s.run.status.IsTerminal()
    ensures Reaches(p, s, CommitEvents(tries, terminal), AfterCommit(s, name, tries, terminal))
    decreases |tries|
  {
    if tries == [] {
      LastEvent(p, s, RpcError(C.TRANSPORT_ERROR));
    } else {
      assert tries == [tries[0]] + tries[1..];
      match tries[0]
      case LostRequest =>
        CommitRefines(p, s, name, tries[1..], terminal);
        assert C.Reached(tries) <==> C.Reached(tries[1..]);
      case LostReply => LostReplyRefines(p, s, name, tries, terminal);
      case Answered => LastEvent(p, s, if terminal then CompleteRefused else CompleteStep(true));
    }
  }

  lemma {:induction false} LostReplyRefines(p: P.Program, s: System, name: string, tries: seq<C.Try>, terminal: bool)
    requires s.exec.Completing? && p(s.exec.rs).Step? && p(s.exec.rs).name == name
    requires (terminal ==> s.run.status.IsTerminal()) && tries != [] && tries[0].LostReply?
    ensures Reaches(p, s, CommitEvents(tries, terminal), AfterCommit(s, name, tries, terminal))
    decreases |tries|, 0
  {
    assert tries == [tries[0]] + tries[1..];
    if terminal {
      CommitRefines(p, s, name, tries[1..], true);
      assert [] + CommitEvents(tries[1..], true) == CommitEvents(tries[1..], true);
    } else {
      var s' := Next(p, s, CompleteStep(false));
      CommitRefines(p, s', name, tries[1..], false);
      assert Put(s'.memo, name, L.Complete(P.Get(s'.memo, name), s.exec.value)) == s'.memo;
      OneEvent(p, s, CompleteStep(false), CommitEvents(tries[1..], false), AfterCommit(s, name, tries, false));
    }
  }

  /** A step call is a run of the protocol that ends where the SDK's contract says. */
  lemma StepRefinesProtocol(p: P.Program, s: System, c: C.Call, payloadMax: nat)
    requires IsCall(p, s, c)
    ensures Reaches(p, s, StepEvents(P.Get(s.memo, c.name), c, s.run.retryPolicy, payloadMax),
                    AfterStep(p, s, c, payloadMax))
  {
    var log := P.Get(s.memo, c.name);
    if c.begin.LostRequest? {
      LastEvent(p, s, RpcError(C.TRANSPORT_ERROR));
    } else if L.Done(log) || c.begin.LostReply? {
      assert [BeginStep(Lost(c.begin))] + [] == [BeginStep(Lost(c.begin))];
      LastEvent(p, s, BeginStep(Lost(c.begin)));
    } else {
      match c.outcome
      case Value(v) => SuccessRefines(p, s, c, v, payloadMax);
      case Failure(f) => FailureRefines(p, s, c, f, payloadMax);
      case Panics(message) =>
        LastEvent(p, Started(s, c), Panic(message));
        BeginRefines(p, s, c, [Panic(message)], AfterStep(p, s, c, payloadMax));
    }
  }

  /** The attempt is begun and the closure is running. */
  function Started(s: System, c: C.Call): System
    requires s.exec.At?
  {
    s.(memo := Put(s.memo, c.name, C.Begun(P.Get(s.memo, c.name), c, s.run.retryPolicy)),
    exec := Executing(s.exec.rs))
  }

  lemma BeginRefines(p: P.Program, s: System, c: C.Call, es: seq<Event>, t: System)
    requires IsCall(p, s, c) && !L.Done(P.Get(s.memo, c.name)) && Reaches(p, Started(s, c), es, t)
    ensures Reaches(p, s, [BeginStep(None)] + es, t)
  {
    assert Next(p, s, BeginStep(None)) == Started(s, c);
    OneEvent(p, s, BeginStep(None), es, t);
  }

  lemma SuccessRefines(p: P.Program, s: System, c: C.Call, v: Bytes, payloadMax: nat)
    requires IsCall(p, s, c) && c.begin.Answered? && c.outcome == C.Value(v) && !L.Done(P.Get(s.memo, c.name))
    ensures Reaches(p, s, StepEvents(P.Get(s.memo, c.name), c, s.run.retryPolicy, payloadMax),
                    AfterStep(p, s, c, payloadMax))
  {
    var started := Started(s, c);
    var completing := started.(exec := Completing(s.exec.rs, v));
    var tries := if |v| <= payloadMax then c.tries else [];
    var t := AfterCommit(completing, c.name, tries, false);
    CommitRefines(p, completing, c.name, tries, false);
    OneEvent(p, started, ClosureReturns(v), CommitEvents(tries, false), t);
    BeginRefines(p, s, c, [ClosureReturns(v)] + CommitEvents(tries, false), t);
    CommitEndsStep(p, s, c, v, payloadMax);
  }

  lemma CommitEndsStep(p: P.Program, s: System, c: C.Call, v: Bytes, payloadMax: nat)
    requires IsCall(p, s, c) && c.begin.Answered? && c.outcome == C.Value(v) && !L.Done(P.Get(s.memo, c.name))
    ensures AfterCommit(Started(s, c).(exec := Completing(s.exec.rs, v)), c.name,
                        if |v| <= payloadMax then c.tries else [], false)
         == AfterStep(p, s, c, payloadMax)
  {
    var log := P.Get(s.memo, c.name);
    var begun := C.Begun(log, c, s.run.retryPolicy);
    PutTwice(s.memo, c.name, begun, L.Complete(begun, v));
    assert !C.Reached([]);
    assert C.Stores(log, c, payloadMax) <==> C.Reached(c.tries) && |v| <= payloadMax;
    assert C.LogAfter(log, c, s.run.retryPolicy, payloadMax)
        == if C.Stores(log, c, payloadMax) then L.Complete(begun, v) else begun;
  }

  lemma PutTwice(m: P.Memo, name: string, a: L.Log, b: L.Log)
    ensures Put(Put(m, name, a), name, b) == Put(m, name, b) && P.Get(Put(m, name, a), name) == a
  {
  }

  /** From the failed closure on: `x` is the system that has the error in hand. */
  function AfterFail(p: P.Program, x: System, c: C.Call): System
    requires x.exec.Failing? && P.Get(x.memo, c.name) != []
  {
    var log := P.Get(x.memo, c.name);
    var reached := c.name != "" && !c.fail.LostRequest?;
    var retries := reached && L.WillRetry(log, x.run.retryPolicy, x.exec.failure);
    var answered := c.name != "" && c.fail.Answered?;
    x.(memo := if reached then Put(x.memo, c.name, L.Fail(log, x.run.retryPolicy, x.exec.failure)) else x.memo,
    exec := if !answered then Raised(C.Refusal(c.fail).message)
            else if retries then Idle else Raised(x.exec.failure.message),
    run := if retries then R.RetryRow(x.run, x.exec.failure.retryAfterMs.GetOr(c.jitterMs), x.now) else x.run,
    faulted := x.faulted || !answered)
  }

  lemma RetryRefines(p: P.Program, x: System, c: C.Call)
    requires x.exec.Failing? && p(x.exec.rs).Step? && p(x.exec.rs).name == c.name && P.Get(x.memo, c.name) != []
    requires c.name != "" && !c.fail.LostRequest?
    requires L.WillRetry(P.Get(x.memo, c.name), x.run.retryPolicy, x.exec.failure)
    ensures Reaches(p, x, [FailStep(c.jitterMs, Lost(c.fail))] + [Reschedule(Lost(c.fail))], AfterFail(p, x, c))
  {
    var failed := Next(p, x, FailStep(c.jitterMs, Lost(c.fail)));
    LastEvent(p, failed, Reschedule(Lost(c.fail)));
    OneEvent(p, x, FailStep(c.jitterMs, Lost(c.fail)), [Reschedule(Lost(c.fail))], AfterFail(p, x, c));
  }

  lemma FinalFailureRefines(p: P.Program, x: System, c: C.Call)
    requires x.exec.Failing? && p(x.exec.rs).Step? && p(x.exec.rs).name == c.name && P.Get(x.memo, c.name) != []
    requires c.name != "" && !c.fail.LostRequest? ==>
               !L.WillRetry(P.Get(x.memo, c.name), x.run.retryPolicy, x.exec.failure)
    ensures Reaches(p, x, FailEvents(c, false), AfterFail(p, x, c))
  {
    if c.name == "" || c.fail.LostRequest? {
      LastEvent(p, x, RpcError(C.Refusal(c.fail).message));
    } else {
      assert [FailStep(c.jitterMs, Lost(c.fail))] + [] == [FailStep(c.jitterMs, Lost(c.fail))];
      LastEvent(p, x, FailStep(c.jitterMs, Lost(c.fail)));
    }
  }

  lemma FailureRefines(p: P.Program, s: System, c: C.Call, f: StepError, payloadMax: nat)
    requires IsCall(p, s, c) && c.begin.Answered? && c.outcome == C.Failure(f) && !L.Done(P.Get(s.memo, c.name))
    ensures Reaches(p, s, StepEvents(P.Get(s.memo, c.name), c, s.run.retryPolicy, payloadMax),
                    AfterStep(p, s, c, payloadMax))
  {
    var started := Started(s, c);
    var failing := started.(exec := Failing(s.exec.rs, f));
    var retries := C.Retries(P.Get(s.memo, c.name), c, s.run.retryPolicy);
    var t := AfterFail(p, failing, c);
    if retries {
      RetryRefines(p, failing, c);
    } else {
      FinalFailureRefines(p, failing, c);
    }
    OneEvent(p, started, ClosureFails(f), FailEvents(c, retries), t);
    BeginRefines(p, s, c, [ClosureFails(f)] + FailEvents(c, retries), t);
    FailEndsStep(p, s, c, f, payloadMax);
  }

  lemma FailEndsStep(p: P.Program, s: System, c: C.Call, f: StepError, payloadMax: nat)
    requires IsCall(p, s, c) && c.begin.Answered? && c.outcome == C.Failure(f) && !L.Done(P.Get(s.memo, c.name))
    ensures AfterFail(p, Started(s, c).(exec := Failing(s.exec.rs, f)), c) == AfterStep(p, s, c, payloadMax)
  {
    var begun := C.Begun(P.Get(s.memo, c.name), c, s.run.retryPolicy);
    PutTwice(s.memo, c.name, begun, L.Fail(begun, s.run.retryPolicy, f));
  }

  /** The system after one sleep call on a run that is not terminal. */
  function AfterSleep(p: P.Program, s: System, begin: C.Try, pause: C.Try): System
    requires s.exec.At? && p(s.exec.rs).Sleep?
  {
    var name, seconds := p(s.exec.rs).name, p(s.exec.rs).seconds;
    var log := P.Get(s.memo, name);
    var open := begin.Answered? && !L.Done(log);
    s.(memo := if begin.LostRequest? then s.memo
               else Put(s.memo, name, L.Begin(log, L.SleepKind, None, StoredWithAttempt(None, s.run.retryPolicy))),
    exec := if !begin.Answered? || (open && !pause.Answered?) then Raised(C.TRANSPORT_ERROR)
            else if open then Idle else At(s.exec.rs + [[]]),
    run := if open && !pause.LostRequest? && seconds > 0 then R.SleepingRow(s.run, seconds, s.now) else s.run,
    faulted := s.faulted || !begin.Answered? || (open && !pause.Answered?))
  }

  /** And so is a sleep call. */
  lemma SleepRefinesProtocol(p: P.Program, s: System, begin: C.Try, pause: C.Try)
    requires s.exec.At? && p(s.exec.rs).Sleep?
    ensures Reaches(p, s, SleepEvents(P.Get(s.memo, p(s.exec.rs).name), begin, pause), AfterSleep(p, s, begin, pause))
  {
    var t := AfterSleep(p, s, begin, pause);
    if begin.LostRequest? {
      LastEvent(p, s, RpcError(C.TRANSPORT_ERROR));
    } else if L.Done(P.Get(s.memo, p(s.exec.rs).name)) || begin.LostReply? {
      assert [BeginStep(Lost(begin))] + [] == [BeginStep(Lost(begin))];
      LastEvent(p, s, BeginStep(Lost(begin)));
    } else {
      var pausing := Next(p, s, BeginStep(None));
      var e := if pause.LostRequest? then RpcError(C.TRANSPORT_ERROR) else SleepRun(Lost(pause));
      LastEvent(p, pausing, e);
      assert Next(p, pausing, e) == t;
      OneEvent(p, s, BeginStep(None), [e], t);
    }
  }

  /** So everything the replay theorems say of reachable systems holds across the calls of the SDK. */
  lemma StepKeepsInvariant(p: P.Program, s: System, c: C.Call, payloadMax: nat)
    requires P.PlainNames(p) && Invariant(p, s) && IsCall(p, s, c)
    ensures Invariant(p, AfterStep(p, s, c, payloadMax))
  {
    StepRefinesProtocol(p, s, c, payloadMax);
    InvariantHolds(p, s, StepEvents(P.Get(s.memo, c.name), c, s.run.retryPolicy, payloadMax));
  }
}
