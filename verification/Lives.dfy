/** What one execution of a run is made of: the requests and their fates, what others do in between, and
    where that leaves the run. */
module Lives {
  import opened Basics
  import opened RetryPolicies
  import L = StepLog
  import T = StepTable
  import P = Programs
  import R = Runs
  import W = Workers
  import opened Replay
  import opened WorkerServices
  import C = SdkContext
  import S = SdkRefinement

  /** What others do to the run between two requests. */
  datatype Other = Elapse(micros: nat) | CancelRun | Beat(worker: WorkerId)

  /** A request, what happens before it, and what becomes of it. */
  datatype Request = Request(before: seq<Other>, fate: C.Try)

  /** One call of the code: what its closure produces, and the requests that the call may make. */
  datatype Turn = Turn(
    outcome: C.Outcome,
    begin: Request,
    tries: seq<Request>,
    fail: Request,
    pause: Request,
    jitterMs: nat)

  /** One execution: what happens before the poll, the poll, the calls in turn, and the report. */
  datatype Life = Life(
    before: seq<Other>,
    worker: WorkerId,
    filter: R.Filter,
    wakes: bool,
    turns: seq<Turn>,
    report: Request,
    text: Bytes)

  /** JSON text is never empty. */
  predicate Json(turns: seq<Turn>) {
    forall i :: 0 <= i < |turns| && turns[i].outcome.Value? ==> turns[i].outcome.value != []
  }

  // ----- What others do -----

  /** What others change: the runs, the workers and the clock. */
  datatype Scene = Scene(runs: R.Table, workers: W.Table, now: Instant)

  function Act(run: RunId, extensionSecs: int, s: Scene, other: Other): Scene {
    match other
    case Elapse(micros) => s.(now := s.now + micros)
    case CancelRun =>
      if run in s.runs then s.(runs := R.Execute(s.runs, s.now, R.Cancel(run, s.runs[run].namespace))) else s
    case Beat(worker) =>
      if W.Accepts(s.workers, worker) then
        s.(workers := W.Beaten(s.workers, worker, s.now),
        runs := R.Execute(s.runs, s.now, R.ExtendVisibility(worker, extensionSecs)))
      else s
  }

  function ActAll(run: RunId, extensionSecs: int, s: Scene, others: seq<Other>): Scene
    decreases |others|
  {
    if others == [] then s else ActAll(run, extensionSecs, Act(run, extensionSecs, s, others[0]), others[1..])
  }

  /** Nobody cancels the run. */
  predicate Calm(others: seq<Other>) {
    CancelRun !in others
  }

  predicate CalmTries(tries: seq<Request>) {
    forall i :: 0 <= i < |tries| ==> Calm(tries[i].before)
  }

  predicate CalmTurn(turn: Turn) {
    Calm(turn.begin.before) && CalmTries(turn.tries) && Calm(turn.fail.before) && Calm(turn.pause.before)
  }

  /** The same row but for the end of its lease. */
  predicate SameButLease(r: R.Run, r': R.Run) {
    r'.(availableAt := r.availableAt) == r && (r.availableAt.Some? <==> r'.availableAt.Some?)
  }

  /** The claims and the policy stay, and a terminal status is final. */
  predicate Onward(r: R.Run, r': R.Run) {
    && r'.attempts == r.attempts && r'.retryPolicy == r.retryPolicy
    && (r.status.IsTerminal() ==> r'.status == r.status)
  }

  /** Whatever others do, the run stays, a terminal status is final, and nothing but a cancellation does
      more to it than extend its lease. */
  lemma {:induction false} OthersOnRow(run: RunId, extensionSecs: int, s: Scene, others: seq<Other>)
    requires run in s.runs && (s.runs[run].status.IsTerminal() <==> s.runs[run].availableAt.None?)
    ensures var s' := ActAll(run, extensionSecs, s, others);
            && run in s'.runs
            && Onward(s.runs[run], s'.runs[run])
            && (Calm(others) ==> SameButLease(s.runs[run], s'.runs[run]))
    decreases |others|
  {
    if others != [] {
      OthersOnRow(run, extensionSecs, Act(run, extensionSecs, s, others[0]), others[1..]);
    }
  }

  /** The requests as the SDK's contracts see them. */
  function Fates(tries: seq<Request>): (fates: seq<C.Try>)
    ensures |fates| == |tries| && forall i :: 0 <= i < |tries| ==> fates[i] == tries[i].fate
  {
    seq(|tries|, i requires 0 <= i < |tries| => tries[i].fate)
  }

  function CallOf(name: string, request: Option<RetryPolicy>, turn: Turn): C.Call {
    C.Call(name, request, turn.outcome, turn.begin.fate, Fates(turn.tries), turn.fail.fate, turn.jitterMs)
  }

  // ----- The tables and the system -----

  /** The tables show the run as the system has it; reserved step names do not matter. */
  ghost predicate Shows(runs: R.Table, steps: seq<T.Row>, run: RunId, s: System) {
    && run in runs && runs[run] == s.run
    && forall name :: !L.Reserved(name) ==> P.Get(s.memo, name) == T.LogOf(steps, run, name)
  }

  /** Changing one log in the table and in the memo. */
  lemma ShowsChange(runs: R.Table, steps: seq<T.Row>, runs': R.Table, steps': seq<T.Row>, run: RunId, s: System,
                    name: string, log: L.Log, t: System)
    requires Shows(runs, steps, run, s) && T.ChangedOnly(steps, steps', run, name, log)
    requires run in runs' && runs'[run] == t.run && t.memo == Put(s.memo, name, log)
    ensures Shows(runs', steps', run, t)
  {
    forall other | !L.Reserved(other) ensures P.Get(t.memo, other) == T.LogOf(steps', run, other) {
      assert other != name ==> T.LogOf(steps', run, other) == T.LogOf(steps, run, other);
    }
  }

  /** Changing the row alone. */
  lemma ShowsRow(runs: R.Table, steps: seq<T.Row>, runs': R.Table, run: RunId, s: System, t: System)
    requires Shows(runs, steps, run, s) && run in runs' && runs'[run] == t.run && t.memo == s.memo
    ensures Shows(runs', steps, run, t)
  {
  }

  /** A claim by the only poll of a call. */
  lemma OneLook(rows: R.Table, rows': R.Table, look: Look, f: R.Filter, worker: WorkerId, visibilitySecs: int,
                run: RunId)
    requires look.others == [] && ClaimedByLook(rows, rows', [look], f, worker, visibilitySecs, run)
    ensures R.FirstAvailable(rows, f, look.at, run)
    ensures rows' == rows[run := R.Claimed(rows[run], worker, visibilitySecs, look.at)]
  {
    var i :| 0 <= i < 1 && ClaimedAt(rows, rows', [look], f, worker, visibilitySecs, run, i);
    assert Seen(rows, [look], 0) == rows && Seen(rows, [look], 1) == rows;
  }

  lemma ShowsWoken(runs: R.Table, steps: seq<T.Row>, runs': R.Table, steps': seq<T.Row>, run: RunId, s: System,
                   wakes: bool, t: System)
    requires Shows(runs, steps, run, s)
    requires forall name :: !L.Reserved(name) ==>
               T.LogOf(steps', run, name) ==
               if wakes then L.Wake(T.LogOf(steps, run, name)) else T.LogOf(steps, run, name)
    requires run in runs' && runs'[run] == t.run && t.memo == if wakes then WakeMemo(s.memo) else s.memo
    ensures Shows(runs', steps', run, t)
  {
  }

  // ----- Where the calls end -----

  /** What the answer to BeginStep makes of a step: nothing yet if its closure is to run. */
  function BeginEnding(log: L.Log): Option<C.Ending> {
    if !L.Done(log) then None
    else Some(if P.Cached(log) == [] then C.Failed(P.DECODE_ERROR) else C.Obtained(P.Cached(log)))
  }

  /** The calls of others in between leave a step where the SDK's contract says: the same ending, memo and
      position; and the same row, but for its lease, or the instant of its retry. */
  predicate StepSettled(p: P.Program, s: System, s': System, c: C.Call, ending: C.Ending, payloadMax: nat)
    requires s.exec.At?
  {
    var log, t := P.Get(s.memo, c.name), S.AfterStep(p, s, c, payloadMax);
    && ending == C.EndingOf(log, c, s.run.retryPolicy, payloadMax)
    && s'.memo == t.memo && s'.exec == t.exec && s'.faulted == t.faulted && SameButLease(t.run, s'.run)
    && (C.Retries(log, c, s.run.retryPolicy) && s.run.status.Running? ==>
          s'.run.availableAt == Some(s'.now + c.outcome.failure.retryAfterMs.GetOr(c.jitterMs) * MICROS_PER_MILLI))
  }

  /** And a sleep. */
  predicate SleepSettled(p: P.Program, s: System, s': System, begin: C.Try, pause: C.Try, ending: C.Ending)
    requires s.exec.At? && p(s.exec.rs).Sleep?
  {
    var log, t := P.Get(s.memo, p(s.exec.rs).name), S.AfterSleep(p, s, begin, pause);
    && ending == (if !begin.Answered? then C.Failed(C.TRANSPORT_ERROR)
                  else if L.Done(log) then C.Obtained([])
                  else if pause.Answered? then C.Paused else C.Failed(C.TRANSPORT_ERROR))
    && s'.memo == t.memo && s'.exec == t.exec && s'.faulted == t.faulted && SameButLease(t.run, s'.run)
    && (t.run.status.Sleeping? && s.run.status.Running? ==>
          s'.run.availableAt == Some(s'.now + p(s.exec.rs).seconds * MICROS_PER_SECOND))
  }

  /** The step is over with BeginStep. */
  lemma BeginSettles(p: P.Program, s: System, s': System, c: C.Call, ending: C.Ending, payloadMax: nat)
    requires S.IsCall(p, s, c) && SameButLease(s.run, s'.run)
    requires var log := P.Get(s.memo, c.name);
             && Some(ending) == (if !c.begin.Answered? then Some(C.Refusal(c.begin)) else BeginEnding(log))
             && s'.memo == (if c.begin.LostRequest? then s.memo
                            else Put(s.memo, c.name, C.Begun(log, c, s.run.retryPolicy)))
             && s'.faulted == (s.faulted || !c.begin.Answered?)
             && s'.exec == S.ExecAfter(s.exec.rs, ending)
    ensures StepSettled(p, s, s', c, ending, payloadMax)
  {
  }

  lemma PanicSettles(p: P.Program, s: System, s': System, c: C.Call, payloadMax: nat)
    requires S.IsCall(p, s, c) && c.begin.Answered? && c.outcome.Panics? && !L.Done(P.Get(s.memo, c.name))
    requires s'.exec == Raised(c.outcome.message) && s'.faulted && SameButLease(s.run, s'.run)
    requires s'.memo == Put(s.memo, c.name, C.Begun(P.Get(s.memo, c.name), c, s.run.retryPolicy))
    ensures StepSettled(p, s, s', c, C.Failed(c.outcome.message), payloadMax)
  {
  }

  lemma CommitSettles(p: P.Program, s: System, x: System, s': System, c: C.Call, ending: C.Ending, payloadMax: nat)
    requires S.IsCall(p, s, c) && c.begin.Answered? && c.outcome.Value? && !L.Done(P.Get(s.memo, c.name))
    requires x.memo == S.Started(s, c).memo && x.faulted == s.faulted
    requires x.exec == Completing(s.exec.rs, c.outcome.value)
    requires CommitSettled(x, s', c.name, c.outcome.value, c.tries, ending, payloadMax)
    requires SameButLease(s.run, s'.run)
    ensures StepSettled(p, s, s', c, ending, payloadMax)
  {
    S.CommitEndsStep(p, s, c, c.outcome.value, payloadMax);
  }

  lemma FailSettles(p: P.Program, s: System, x: System, s': System, c: C.Call, ending: C.Ending, payloadMax: nat)
    requires S.IsCall(p, s, c) && c.begin.Answered? && c.outcome.Failure? && !L.Done(P.Get(s.memo, c.name))
    requires x.memo == S.Started(s, c).memo && x.faulted == s.faulted && SameButLease(s.run, x.run)
    requires x.exec == Failing(s.exec.rs, c.outcome.failure)
    requires P.Get(x.memo, c.name) != []
    requires var t := S.AfterFail(p, x, c);
             && s'.memo == t.memo && s'.exec == t.exec && s'.faulted == t.faulted && s'.run == t.run
             && s'.now == x.now
    requires s'.exec == S.ExecAfter(s.exec.rs, ending) && !ending.Obtained?
    requires ending.Failed? ==> s'.exec == Raised(ending.message)
    ensures StepSettled(p, s, s', c, ending, payloadMax)
  {
    S.FailEndsStep(p, s, c, c.outcome.failure, payloadMax);
    assert P.Get(S.Started(s, c).memo, c.name) == P.Get(x.memo, c.name);
  }

  /** The row after a Sleep call. */
  predicate PausedRow(r: R.Run, s': System, pause: C.Try, seconds: nat) {
    if pause.LostRequest? || seconds == 0 then SameButLease(r, s'.run)
    else
      && SameButLease(R.SleepingRow(r, seconds, s'.now), s'.run)
      && (r.status.Running? ==> s'.run.availableAt == Some(s'.now + seconds * MICROS_PER_SECOND))
  }

  lemma SleepAnswered(p: P.Program, s: System, s': System, begin: C.Try, pause: C.Try, ending: C.Ending)
    requires s.exec.At? && p(s.exec.rs).Sleep? && SameButLease(s.run, s'.run)
    requires var name := p(s.exec.rs).name;
             var log := P.Get(s.memo, name);
             && (begin.Answered? ==> L.Done(log))
             && ending == (if !begin.Answered? then C.Refusal(begin) else C.Obtained([]))
             && s'.memo == (if begin.LostRequest? then s.memo
                            else Put(s.memo, name,
                                     L.Begin(log, L.SleepKind, None, StoredWithAttempt(None, s.run.retryPolicy))))
             && s'.faulted == (s.faulted || !begin.Answered?)
             && s'.exec == S.ExecAfter(s.exec.rs, ending)
    ensures SleepSettled(p, s, s', begin, pause, ending)
  {
  }

  lemma PauseSettles(p: P.Program, s: System, x: System, s': System, begin: C.Try, pause: C.Try, ending: C.Ending)
    requires s.exec.At? && p(s.exec.rs).Sleep? && SameButLease(s.run, x.run) && begin.Answered?
    requires var name := p(s.exec.rs).name;
             var log := P.Get(s.memo, name);
             && !L.Done(log)
             && x.memo == Put(s.memo, name,
                              L.Begin(log, L.SleepKind, None, StoredWithAttempt(None, s.run.retryPolicy)))
             && x.faulted == s.faulted
    requires ending == if pause.Answered? then C.Paused else C.Failed(C.TRANSPORT_ERROR)
    requires s'.memo == x.memo && s'.faulted == (x.faulted || !pause.Answered?)
    requires s'.exec == S.ExecAfter(s.exec.rs, ending) && PausedRow(x.run, s', pause, p(s.exec.rs).seconds)
    ensures SleepSettled(p, s, s', begin, pause, ending)
  {
  }

  /** The CompleteStep loop with others, but no cancellation, in between. */
  predicate CommitSettled(s: System, s': System, name: string, value: Bytes, fates: seq<C.Try>, ending: C.Ending,
                          payloadMax: nat)
    requires s.exec.Completing?
  {
    var tries := if |value| <= payloadMax then fates else [];
    var t := S.AfterCommit(s, name, tries, false);
    && ending == (if C.Answered in tries then C.Obtained(value) else C.Failed(C.TRANSPORT_ERROR))
    && s'.memo == t.memo && s'.exec == t.exec && s'.faulted == t.faulted
  }

  /** The memo after the first i tries. */
  function CommitMemo(m: P.Memo, name: string, value: Bytes, fates: seq<C.Try>, fits: bool): P.Memo {
    if fits && C.Reached(fates) then Put(m, name, L.Complete(P.Get(m, name), value)) else m
  }

  lemma CommitMemoNext(m: P.Memo, name: string, value: Bytes, fates: seq<C.Try>, fits: bool, i: nat)
    requires i < |fates|
    ensures fates[..i + 1] == fates[..i] + [fates[i]]
    ensures var before := CommitMemo(m, name, value, fates[..i], fits);
            CommitMemo(m, name, value, fates[..i + 1], fits) ==
            if fates[i].LostRequest? || !fits then before
            else Put(before, name, L.Complete(P.Get(before, name), value))
    ensures fates[i].Answered? ==> CommitMemo(m, name, value, fates, fits) ==
                                   CommitMemo(m, name, value, fates[..i + 1], fits)
  {
    C.ReachedNext(fates, i);
    if !fates[i].LostRequest? {
      C.ReachedAtLast(fates, i);
    }
    var log := P.Get(m, name);
    assert L.Complete(L.Complete(log, value), value) == L.Complete(log, value);
    S.PutTwice(m, name, L.Complete(log, value), L.Complete(log, value));
  }

  /** One round of the loop: others act, then the request is made. */
  predicate TryMade(x: System, x': System, name: string, value: Bytes, try: Request, fits: bool,
                    ending: Option<C.Ending>)
    requires x.exec.Completing?
  {
    var over := x'.run.status.IsTerminal();
    && ending == (if try.fate.Answered? && (over || fits) then Some(C.Obtained(value)) else None)
    && x' == x.(now := x'.now, run := x'.run,
                exec := if ending.None? then x.exec else At(x.exec.rs + [value]),
                memo := if try.fate.LostRequest? || over || !fits then x.memo
                        else Put(x.memo, name, L.Complete(P.Get(x.memo, name), value)))
    && Onward(x.run, x'.run) && (Calm(try.before) ==> SameButLease(x.run, x'.run))
  }

  /** The system after the first i rounds, none of which ended the loop. */
  predicate InLoop(s: System, x: System, name: string, value: Bytes, tries: seq<Request>, i: nat, fits: bool)
    requires i <= |tries|
  {
    && x == s.(now := x.now, run := x.run, memo := x.memo)
    && (fits ==> C.Answered !in Fates(tries)[..i])
    && Onward(s.run, x.run) && (CalmTries(tries) ==> SameButLease(s.run, x.run))
    && (CalmTries(tries) && !s.run.status.IsTerminal() ==>
          x.memo == CommitMemo(s.memo, name, value, Fates(tries)[..i], fits))
  }

  lemma LoopGoesOn(s: System, x: System, x': System, name: string, value: Bytes, tries: seq<Request>, i: nat,
                   fits: bool)
    requires i < |tries| && s.exec.Completing? && InLoop(s, x, name, value, tries, i, fits)
    requires TryMade(x, x', name, value, tries[i], fits, None)
    ensures InLoop(s, x', name, value, tries, i + 1, fits)
  {
    CommitMemoNext(s.memo, name, value, Fates(tries), fits, i);
  }

  /** How the loop ends: with the value if some try is answered and it fits, or the run was cancelled. */
  predicate LoopEnded(s: System, s': System, name: string, value: Bytes, tries: seq<Request>, payloadMax: nat,
                      ending: C.Ending)
    requires s.exec.Completing?
  {
    && Onward(s.run, s'.run) && (CalmTries(tries) ==> SameButLease(s.run, s'.run))
    && (|value| <= payloadMax ==>
          ending == if C.Answered in Fates(tries) then C.Obtained(value) else C.Failed(C.TRANSPORT_ERROR))
    && (CalmTries(tries) && !s.run.status.IsTerminal() ==>
          CommitSettled(s, s', name, value, Fates(tries), ending, payloadMax))
  }

  lemma LoopAnswered(s: System, x: System, x': System, name: string, value: Bytes, tries: seq<Request>, i: nat,
                     payloadMax: nat)
    requires i < |tries| && s.exec.Completing? && s.exec.value == value
    requires InLoop(s, x, name, value, tries, i, |value| <= payloadMax)
    requires TryMade(x, x', name, value, tries[i], |value| <= payloadMax, Some(C.Obtained(value)))
    ensures LoopEnded(s, x', name, value, tries, payloadMax, C.Obtained(value))
  {
    CommitMemoNext(s.memo, name, value, Fates(tries), |value| <= payloadMax, i);
    assert Fates(tries)[i].Answered?;
  }

  lemma LoopGivenUp(s: System, x: System, name: string, value: Bytes, tries: seq<Request>, payloadMax: nat)
    requires s.exec.Completing? && s.exec.value == value
    requires InLoop(s, x, name, value, tries, |tries|, |value| <= payloadMax)
    ensures LoopEnded(s, x.(exec := Raised(C.TRANSPORT_ERROR), faulted := true), name, value, tries, payloadMax,
                      C.Failed(C.TRANSPORT_ERROR))
  {
    assert Fates(tries)[..|tries|] == Fates(tries);
  }

  // ----- What one execution leaves behind -----

  /** The row after the report and the executors lost with it: a value completes a RUNNING run, an error
      fails it, and a pause, a lost request, a run that is over and an output too large leave it. */
  predicate Reported(row: R.Run, ending: C.Ending, fate: C.Try, payloadMax: nat, row': R.Run, lost: int) {
    match ending
    case Paused => row' == row && lost == 0
    case Obtained(output) =>
      if fate.LostRequest? || row.status.IsTerminal() || |output| > payloadMax then row' == row && lost == 1
      else
        && lost == 0 && row'.output == Some(output)
        && row'.status == if row.status.Running? then R.Completed else row.status
    case Failed(message) =>
      if fate.LostRequest? || row.status.IsTerminal() then row' == row && lost == 1
      else
        && lost == 0
        && if row.status.Running? then row'.status.Failed? && row'.error == Some(message) else row' == row
  }

  predicate CalmTurns(turns: seq<Turn>) {
    forall i :: 0 <= i < |turns| ==> CalmTurn(turns[i])
  }

  /** The code sleeps for a second at least. */
  ghost predicate LongSleeps(code: P.Program) {
    forall rs :: code(rs).Sleep? ==> code(rs).seconds > 0
  }

  /** Nothing puts the run back: the code does not sleep, and no closure fails. */
  ghost predicate Straight(code: P.Program, turns: seq<Turn>) {
    && (forall rs :: !code(rs).Sleep?)
    && (forall i :: 0 <= i < |turns| ==> !turns[i].outcome.Failure?)
  }

  /** The code makes no more calls than these. */
  ghost predicate EndsIn(code: P.Program, calls: nat) {
    forall rs :: |rs| == calls ==> !code(rs).Calls()
  }

  function HowItEnds(a: P.Action): C.Ending
    requires !a.Calls()
  {
    if a.Return? then C.Obtained(a.output) else C.Failed(a.error)
  }

  /** The run waits for another claim. */
  predicate Resting(r: R.Run) {
    r.status.Pending? || r.status.Sleeping?
  }

  predicate Going(r: R.Run) {
    r.status.Running? || Resting(r)
  }

  /** Nobody cancels the run during the execution; there is a turn for every call that the code makes; and
      the report reaches the server, with an output that fits. */
  ghost predicate Carried(code: P.Program, turns: seq<Turn>, report: Request, payloadMax: nat) {
    && CalmTurns(turns) && Calm(report.before) && !report.fate.LostRequest?
    && EndsIn(code, |turns|)
    && (forall rs :: code(rs).Return? ==> |code(rs).output| <= payloadMax)
  }

  /** Every request is answered, every value fits, and no closure panics. */
  predicate Smooth(turn: Turn, payloadMax: nat) {
    && turn.begin.fate.Answered? && turn.fail.fate.Answered? && turn.pause.fate.Answered?
    && C.Answered in Fates(turn.tries)
    && !turn.outcome.Panics? && (turn.outcome.Value? ==> |turn.outcome.value| <= payloadMax)
  }

  ghost predicate AllSmooth(code: P.Program, turns: seq<Turn>, payloadMax: nat) {
    && (forall i :: 0 <= i < |turns| ==> Smooth(turns[i], payloadMax))
    && (forall rs :: code(rs).Step? ==> code(rs).name != "")
  }

  /** Nobody executes the run any more, and it waits for another claim or is over. */
  predicate PutDown(r: R.Run) {
    Resting(r) || r.status.Completed? || r.status.Failed?
  }

  predicate SmoothCall(c: C.Call, payloadMax: nat) {
    && c.begin.Answered? && c.fail.Answered? && C.Answered in c.tries && c.name != ""
    && !c.outcome.Panics? && (c.outcome.Value? ==> |c.outcome.value| <= payloadMax)
  }

  /** A call of a RUNNING run that obtains its result leaves the run RUNNING; one that does not leaves it
      RUNNING only with an error. */
  lemma StepLeaves(p: P.Program, s: System, s': System, c: C.Call, ending: C.Ending, payloadMax: nat)
    requires s.exec.At? && s.run.status.Running? && StepSettled(p, s, s', c, ending, payloadMax)
    ensures ending.Obtained? ==> s'.run.status.Running?
    ensures ending.Paused? ==> s'.run.status.Pending? && c.outcome.Failure?
    ensures !c.outcome.Failure? ==> s'.run.status.Running?
    ensures s'.run.status.Running? || s'.run.status.Pending?
    ensures SmoothCall(c, payloadMax) ==> s'.faulted == s.faulted
  {
  }

  lemma SleepLeaves(p: P.Program, s: System, s': System, begin: C.Try, pause: C.Try, ending: C.Ending)
    requires s.exec.At? && p(s.exec.rs).Sleep? && s.run.status.Running?
    requires SleepSettled(p, s, s', begin, pause, ending)
    ensures ending.Obtained? ==> s'.run.status.Running?
    ensures ending.Paused? && p(s.exec.rs).seconds > 0 ==> s'.run.status.Sleeping?
    ensures s'.run.status.Running? || s'.run.status.Sleeping?
    ensures begin.Answered? && pause.Answered? ==> s'.faulted == s.faulted
  {
  }

  /** The types that a worker polls for: those it asks for among those it registered. */
  function Narrowed(workers: W.Table, worker: WorkerId, f: R.Filter): R.Filter
    requires worker in workers
  {
    f.(types := EffectiveTypes(workers[worker].types, f.types))
  }

  predicate MayClaim(s: Scene, run: RunId, worker: WorkerId, f: R.Filter) {
    PollRefusal(s.workers, worker, f).None? && R.FirstAvailable(s.runs, Narrowed(s.workers, worker, f), s.now, run)
  }

  /** The poll is admitted, and the run is the one that became available first. */
  ghost predicate FirstInLine(s: Scene, run: RunId, worker: WorkerId, f: R.Filter) {
    && MayClaim(s, run, worker, f)
    && forall other :: R.FirstAvailable(s.runs, Narrowed(s.workers, worker, f), s.now, other) ==> other == run
  }

  /** Where the run stands between two executions. */
  datatype Stage = Stage(scene: Scene, system: System, losses: nat)

  datatype Limits = Limits(extensionSecs: int, stepMax: nat, outputMax: nat)

  /** What one life does: the poll claims the run only if it may, and always if the run is first in line;
      without a claim the run is as others left it; and an execution that is carried through loses no
      executor, puts the run down unless the code sleeps for less than a second, finishes it if nothing
      puts it back, and meets no fault if it was smooth. */
  ghost predicate Lived(code: P.Program, run: RunId, limits: Limits, before: Stage, life: Life, claimed: bool,
                        after: Stage)
  {
    var scene := ActAll(run, limits.extensionSecs, before.scene, life.before);
    var carried := claimed && life.wakes && Carried(code, life.turns, life.report, limits.outputMax);
    && run in scene.runs
    && (claimed ==> MayClaim(scene, run, life.worker, life.filter))
    && (FirstInLine(scene, run, life.worker, life.filter) ==> claimed)
    && after.system.run.attempts == before.system.run.attempts + (if claimed then 1 else 0)
    && (before.system.run.status.IsTerminal() ==> after.system.run.status == before.system.run.status)
    && (!claimed ==>
          && after.losses == before.losses
          && after.system == before.system.(now := scene.now, run := scene.runs[run]))
    && (carried ==> after.losses == before.losses && (LongSleeps(code) ==> PutDown(after.system.run)))
    && (carried && Straight(code, life.turns) ==> after.system.run.status.IsTerminal())
    && (carried && AllSmooth(code, life.turns, limits.stepMax) ==> !after.system.faulted)
  }

  /** The lives of a run, from stage to stage. */
  ghost predicate Story(code: P.Program, run: RunId, limits: Limits, lives: seq<Life>, claimed: seq<bool>,
                        stages: seq<Stage>)
  {
    && |claimed| <= |lives| && |stages| == |claimed| + 1
    && forall i :: 0 <= i < |claimed| ==> Lived(code, run, limits, stages[i], lives[i], claimed[i], stages[i + 1])
  }

  lemma OneMoreLife(code: P.Program, run: RunId, limits: Limits, lives: seq<Life>, claimed: seq<bool>,
                    stages: seq<Stage>, last: bool, stage: Stage)
    requires Story(code, run, limits, lives, claimed, stages) && |claimed| < |lives|
    requires Lived(code, run, limits, stages[|claimed|], lives[|claimed|], last, stage)
    ensures Story(code, run, limits, lives, claimed + [last], stages + [stage])
  {
  }

  ghost predicate AllCarried(code: P.Program, lives: seq<Life>, limits: Limits) {
    forall i :: 0 <= i < |lives| ==> lives[i].wakes && Carried(code, lives[i].turns, lives[i].report, limits.outputMax)
  }

  /** Whenever a life comes to its poll and the run is not over, the run is first in line. */
  ghost predicate FoundFirst(run: RunId, limits: Limits, lives: seq<Life>, stages: seq<Stage>)
    requires |stages| == |lives| + 1
  {
    forall i :: 0 <= i < |lives| ==>
      var scene := ActAll(run, limits.extensionSecs, stages[i].scene, lives[i].before);
      run in scene.runs && !scene.runs[run].status.IsTerminal() ==>
        FirstInLine(scene, run, lives[i].worker, lives[i].filter)
  }

  /** No executor is lost; and while the run is not over, every life that finds it first claims it. */
  lemma {:induction false} StoryCounts(code: P.Program, run: RunId, limits: Limits, lives: seq<Life>,
                                       claimed: seq<bool>, stages: seq<Stage>, k: nat)
    requires Story(code, run, limits, lives, claimed, stages) && |claimed| == |lives| && k <= |lives|
    requires AllCarried(code, lives, limits)
    ensures stages[k].losses == stages[0].losses
    ensures (forall i :: 0 <= i < k ==> claimed[i]) ==>
              stages[k].system.run.attempts == stages[0].system.run.attempts + k
    ensures FoundFirst(run, limits, lives, stages) && !stages[k].system.run.status.IsTerminal() ==>
              forall i :: 0 <= i < k ==> claimed[i]
  {
    if k > 0 {
      StoryCounts(code, run, limits, lives, claimed, stages, k - 1);
      assert Lived(code, run, limits, stages[k - 1], lives[k - 1], claimed[k - 1], stages[k]);
    }
  }
}
