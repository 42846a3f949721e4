/** The `step_runs` table as the step repository writes it: rows carrying an attempt number and a
    latest flag. Every repository call refines one operation of StepLog on the log of one step. */
module StepTable {
  import opened Basics
  import opened RetryPolicies
  import opened StepLog

  datatype Row = Row(runId: RunId, stepId: string, attemptNumber: int, isLatest: bool, body: Attempt)

  predicate Of(r: Row, run: RunId, step: string) {
    r.runId == run && r.stepId == step
  }

  predicate Latest(r: Row, run: RunId, step: string) {
    Of(r, run, step) && r.isLatest
  }

  /** The WHERE clause of most statements: the current row of one step. */
  function LatestOf(run: RunId, step: string): Row -> bool {
    (r: Row) => Latest(r, run, step)
  }

  function OfStep(run: RunId, step: string): Row -> bool {
    (r: Row) => Of(r, run, step)
  }

  // ----- SQL on a sequence of rows -----

  /** UPDATE ... SET change WHERE chosen */
  function Update(rows: seq<Row>, chosen: Row -> bool, change: Row -> Row): (r: seq<Row>)
    ensures |r| == |rows|
    ensures forall i :: 0 <= i < |rows| ==> r[i] == if chosen(rows[i]) then change(rows[i]) else rows[i]
  {
    seq(|rows|, i requires 0 <= i < |rows| => if chosen(rows[i]) then change(rows[i]) else rows[i])
  }

  /** SELECT ... WHERE chosen, as fetch_optional reads it */
  function SelectOne(rows: seq<Row>, chosen: Row -> bool): Option<Row> {
    if rows == [] then None
    else if chosen(rows[0]) then Some(rows[0])
    else SelectOne(rows[1..], chosen)
  }

  /** COALESCE(MAX(attempt_number), 0) over the rows of one step; attempt numbers are positive. */
  function MaxAttempt(rows: seq<Row>, run: RunId, step: string): int {
    if rows == [] then 0
    else
      var rest := MaxAttempt(rows[1..], run, step);
      if Of(rows[0], run, step) && rows[0].attemptNumber > rest then rows[0].attemptNumber else rest
  }

  /** The rows of one step in insertion order. */
  function Filter(rows: seq<Row>, run: RunId, step: string): (h: seq<Row>)
    ensures forall i :: 0 <= i < |h| ==> Of(h[i], run, step)
  {
    if rows == [] then []
    else (if Of(rows[0], run, step) then [rows[0]] else []) + Filter(rows[1..], run, step)
  }

  // ----- The refinement -----

  /** Numbered 1..n in insertion order, and flagged exactly at the end. */
  predicate Numbered(h: seq<Row>) {
    forall i :: 0 <= i < |h| ==> h[i].attemptNumber == i + 1 && (h[i].isLatest <==> i == |h| - 1)
  }

  ghost predicate Valid(rows: seq<Row>) {
    forall run: RunId, step: string :: Numbered(Filter(rows, run, step))
  }

  function Bodies(h: seq<Row>): (log: Log)
    ensures |log| == |h|
    ensures forall i :: 0 <= i < |h| ==> log[i] == h[i].body
  {
    seq(|h|, i requires 0 <= i < |h| => h[i].body)
  }

  /** The attempt log that the rows of one step stand for. */
  function LogOf(rows: seq<Row>, run: RunId, step: string): Log {
    Bodies(Filter(rows, run, step))
  }

  /** The table changed the log of one step to `log` and left every other step alone. */
  ghost predicate ChangedOnly(before: seq<Row>, after: seq<Row>, run: RunId, step: string, log: Log) {
    && Valid(after)
    && LogOf(after, run, step) == log
    && forall r: RunId, s: string :: (r, s) != (run, step) ==> LogOf(after, r, s) == LogOf(before, r, s)
  }

  lemma FilterHead(rows: seq<Row>, run: RunId, step: string)
    requires rows != []
    ensures var h := Filter(rows, run, step);
            var tail := Filter(rows[1..], run, step);
            if Of(rows[0], run, step) then h != [] && h[0] == rows[0] && h[1..] == tail else h == tail
  {
  }

  lemma UpdateHead(rows: seq<Row>, chosen: Row -> bool, change: Row -> Row)
    requires rows != []
    ensures Update(rows, chosen, change) ==
            [if chosen(rows[0]) then change(rows[0]) else rows[0]] + Update(rows[1..], chosen, change)
  {
  }

  lemma {:induction false} FilterOfUpdate(
    rows: seq<Row>, chosen: Row -> bool, change: Row -> Row, run: RunId, step: string)
    requires forall r :: Of(change(r), r.runId, r.stepId)
    ensures Filter(Update(rows, chosen, change), run, step) == Update(Filter(rows, run, step), chosen, change)
  {
    if rows != [] {
      FilterOfUpdate(rows[1..], chosen, change, run, step);
      UpdateHead(rows, chosen, change);
      FilterHead(rows, run, step);
      FilterHead(Update(rows, chosen, change), run, step);
      if Of(rows[0], run, step) {
        UpdateHead(Filter(rows, run, step), chosen, change);
      }
    }
  }

  lemma {:induction false} FilterOfInsert(rows: seq<Row>, row: Row, run: RunId, step: string)
    ensures Filter(rows + [row], run, step) ==
            Filter(rows, run, step) + if Of(row, run, step) then [row] else []
  {
    if rows == [] {
      assert rows + [row] == [row];
    } else {
      FilterOfInsert(rows[1..], row, run, step);
      assert (rows + [row])[1..] == rows[1..] + [row];
    }
  }

  lemma {:induction false} SelectSeesFilter(rows: seq<Row>, run: RunId, step: string)
    ensures SelectOne(rows, LatestOf(run, step)) ==
            SelectOne(Filter(rows, run, step), LatestOf(run, step))
  {
    if rows != [] {
      SelectSeesFilter(rows[1..], run, step);
      FilterHead(rows, run, step);
    }
  }

  lemma {:induction false} SelectFindsLast(h: seq<Row>, chosen: Row -> bool)
    requires forall i :: 0 <= i < |h| ==> (chosen(h[i]) <==> i == |h| - 1)
    ensures SelectOne(h, chosen) == if h == [] then None else Some(h[|h| - 1])
  {
    if h != [] {
      assert chosen(h[0]) <==> 0 == |h| - 1;
      forall i | 0 <= i < |h[1..]| ensures chosen(h[1..][i]) <==> i == |h[1..]| - 1 {
        assert h[1..][i] == h[i + 1];
      }
      SelectFindsLast(h[1..], chosen);
    }
  }

  /** The flag read by the repository is the last attempt of the log. */
  lemma SelectReadsLast(rows: seq<Row>, run: RunId, step: string)
    requires Valid(rows)
    ensures var row := SelectOne(rows, LatestOf(run, step));
            var log := LogOf(rows, run, step);
            if log == [] then row.None?
            else row.Some? && row.value.body == Last(log) && row.value.attemptNumber == |log|
  {
    var h := Filter(rows, run, step);
    assert Numbered(h);
    SelectSeesFilter(rows, run, step);
    SelectFindsLast(h, LatestOf(run, step));
  }

  lemma {:induction false} SelectFirst(rows: seq<Row>, run: RunId, step: string)
    ensures SelectOne(rows, OfStep(run, step)) ==
            if Filter(rows, run, step) == [] then None else Some(Filter(rows, run, step)[0])
  {
    if rows != [] {
      SelectFirst(rows[1..], run, step);
      FilterHead(rows, run, step);
    }
  }

  lemma {:induction false} MaxOfFilter(rows: seq<Row>, run: RunId, step: string)
    ensures MaxAttempt(rows, run, step) == MaxAttempt(Filter(rows, run, step), run, step)
  {
    if rows != [] {
      MaxOfFilter(rows[1..], run, step);
      FilterHead(rows, run, step);
    }
  }

  lemma {:induction false} MaxOfRising(h: seq<Row>, run: RunId, step: string, from: nat)
    requires forall i :: 0 <= i < |h| ==> Of(h[i], run, step) && h[i].attemptNumber == from + i + 1
    ensures MaxAttempt(h, run, step) == if h == [] then 0 else from + |h|
  {
    if h != [] {
      forall i | 0 <= i < |h[1..]|
        ensures Of(h[1..][i], run, step) && h[1..][i].attemptNumber == from + 1 + i + 1
      {
        assert h[1..][i] == h[i + 1];
      }
      MaxOfRising(h[1..], run, step, from + 1);
    }
  }

  lemma NextAttemptNumber(rows: seq<Row>, run: RunId, step: string)
    requires Numbered(Filter(rows, run, step)) || CurrentCleared(Filter(rows, run, step))
    ensures MaxAttempt(rows, run, step) == |Filter(rows, run, step)|
  {
    MaxOfFilter(rows, run, step);
    MaxOfRising(Filter(rows, run, step), run, step, 0);
  }

  /** Between the two statements of a transaction: numbered, but nothing flagged. */
  predicate CurrentCleared(h: seq<Row>) {
    forall i :: 0 <= i < |h| ==> h[i].attemptNumber == i + 1 && !h[i].isLatest
  }

  // ----- The statements the repository is made of -----

  function Rewritten(body: Attempt -> Attempt): Row -> Row {
    (r: Row) => r.(body := body(r.body))
  }

  function RunningOf(run: RunId, step: string): Row -> bool {
    (r: Row) => Latest(r, run, step) && r.body.status == Running
  }

  function Retired(): Row -> Row {
    (r: Row) => r.(isLatest := false)
  }

  function PendingSleepOf(run: RunId): Row -> bool {
    (r: Row) => r.runId == run && r.body.kind.SleepKind? && r.body.status == Running && r.isLatest
  }

  function Woken(): Attempt -> Attempt {
    (a: Attempt) => a.(status := Completed)
  }

  function Rewrite(rows: seq<Row>, run: RunId, step: string, onlyRunning: bool, body: Attempt -> Attempt): seq<Row> {
    Update(rows, if onlyRunning then RunningOf(run, step) else LatestOf(run, step), Rewritten(body))
  }

  function Retire(rows: seq<Row>, run: RunId, step: string): seq<Row> {
    Update(rows, LatestOf(run, step), Retired())
  }

  function Insert(rows: seq<Row>, run: RunId, step: string, body: Attempt): seq<Row> {
    rows + [Row(run, step, MaxAttempt(rows, run, step) + 1, true, body)]
  }

  function WakeAll(rows: seq<Row>, run: RunId): seq<Row> {
    Update(rows, PendingSleepOf(run), Rewritten(Woken()))
  }

  /** How many rows an UPDATE reaches: `rows_affected`. */
  function Affected(rows: seq<Row>, chosen: Row -> bool): nat {
    if rows == [] then 0 else (if chosen(rows[0]) then 1 else 0) + Affected(rows[1..], chosen)
  }

  lemma {:induction false} AffectedSeesFilter(rows: seq<Row>, run: RunId, step: string)
    ensures Affected(rows, RunningOf(run, step)) == Affected(Filter(rows, run, step), RunningOf(run, step))
  {
    if rows != [] {
      AffectedSeesFilter(rows[1..], run, step);
      FilterHead(rows, run, step);
    }
  }

  lemma {:induction false} AffectedAtEnd(h: seq<Row>, chosen: Row -> bool)
    requires forall i :: 0 <= i < |h| && chosen(h[i]) ==> i == |h| - 1
    ensures Affected(h, chosen) == if h != [] && chosen(h[|h| - 1]) then 1 else 0
  {
    if h != [] {
      forall i | 0 <= i < |h[1..]| && chosen(h[1..][i]) ensures i == |h[1..]| - 1 {
        assert h[1..][i] == h[i + 1];
      }
      AffectedAtEnd(h[1..], chosen);
    }
  }

  /** An UPDATE of the running current row reaches one row if the last attempt is running, and none
      otherwise. */
  lemma AffectedCountsRunning(rows: seq<Row>, run: RunId, step: string)
    requires Valid(rows)
    ensures Affected(rows, RunningOf(run, step)) == if InProgress(LogOf(rows, run, step)) then 1 else 0
  {
    var h := Filter(rows, run, step);
    assert Numbered(h);
    AffectedSeesFilter(rows, run, step);
    AffectedAtEnd(h, RunningOf(run, step));
  }

  /** A statement that reaches only flagged rows changes at most the last attempt. */
  lemma LastRewritten(h: seq<Row>, chosen: Row -> bool, body: Attempt -> Attempt)
    requires Numbered(h)
    requires forall i :: 0 <= i < |h| && chosen(h[i]) ==> h[i].isLatest
    ensures var after := Update(h, chosen, Rewritten(body));
            && Numbered(after)
            && Bodies(after) ==
               if h != [] && chosen(h[|h| - 1]) then SetLast(Bodies(h), body(Last(Bodies(h)))) else Bodies(h)
  {
    var after := Update(h, chosen, Rewritten(body));
    forall i | 0 <= i < |h|
      ensures after[i].attemptNumber == h[i].attemptNumber && after[i].isLatest == h[i].isLatest
      ensures i < |h| - 1 ==> after[i] == h[i]
    {
      assert chosen(h[i]) ==> h[i].isLatest;
    }
  }

  lemma RewriteRefines(rows: seq<Row>, run: RunId, step: string, onlyRunning: bool, body: Attempt -> Attempt)
    requires Valid(rows)
    ensures var log := LogOf(rows, run, step);
            ChangedOnly(rows, Rewrite(rows, run, step, onlyRunning, body), run, step,
                        if log != [] && (onlyRunning ==> InProgress(log)) then SetLast(log, body(Last(log))) else log)
  {
    var log := LogOf(rows, run, step);
    var expected := if log != [] && (onlyRunning ==> InProgress(log)) then SetLast(log, body(Last(log))) else log;
    forall r: RunId, s: string
      ensures var after := Rewrite(rows, run, step, onlyRunning, body);
              && Numbered(Filter(after, r, s))
              && LogOf(after, r, s) == if (r, s) == (run, step) then expected else LogOf(rows, r, s)
    {
      RewriteOne(rows, run, step, onlyRunning, body, r, s);
    }
  }

  /** The statement on the history of one step. */
  lemma RewriteHistory(h: seq<Row>, run: RunId, step: string, onlyRunning: bool, body: Attempt -> Attempt,
                       r: RunId, s: string)
    requires Numbered(h) && forall i :: 0 <= i < |h| ==> Of(h[i], r, s)
    ensures var after := Update(h, if onlyRunning then RunningOf(run, step) else LatestOf(run, step), Rewritten(body));
            var log := Bodies(h);
            && Numbered(after)
            && Bodies(after) ==
               if (r, s) == (run, step) && log != [] && (onlyRunning ==> InProgress(log))
               then SetLast(log, body(Last(log))) else log
  {
    var chosen := if onlyRunning then RunningOf(run, step) else LatestOf(run, step);
    LastRewritten(h, chosen, body);
    if h != [] {
      var last := h[|h| - 1];
      assert chosen(last) <==> (r, s) == (run, step) && (onlyRunning ==> last.body.status == Running);
    }
  }

  lemma RewriteOne(rows: seq<Row>, run: RunId, step: string, onlyRunning: bool, body: Attempt -> Attempt,
                   r: RunId, s: string)
    requires Valid(rows)
    ensures var after := Rewrite(rows, run, step, onlyRunning, body);
            var log := LogOf(rows, r, s);
            && Numbered(Filter(after, r, s))
            && LogOf(after, r, s) ==
               if (r, s) == (run, step) && log != [] && (onlyRunning ==> InProgress(log))
               then SetLast(log, body(Last(log))) else log
  {
    assert Numbered(Filter(rows, r, s));
    FilterOfUpdate(rows, if onlyRunning then RunningOf(run, step) else LatestOf(run, step), Rewritten(body), r, s);
    RewriteHistory(Filter(rows, r, s), run, step, onlyRunning, body, r, s);
  }

  lemma WakeHistory(h: seq<Row>, run: RunId, r: RunId, s: string)
    requires Numbered(h) && forall i :: 0 <= i < |h| ==> Of(h[i], r, s)
    ensures var after := Update(h, PendingSleepOf(run), Rewritten(Woken()));
            Numbered(after) && Bodies(after) == if r == run then Wake(Bodies(h)) else Bodies(h)
  {
    LastRewritten(h, PendingSleepOf(run), Woken());
    if h != [] {
      assert PendingSleepOf(run)(h[|h| - 1]) <==>
             r == run && InProgress(Bodies(h)) && Last(Bodies(h)).kind.SleepKind?;
    }
  }

  lemma WakeAllRefines(rows: seq<Row>, run: RunId, r: RunId, s: string)
    requires Valid(rows)
    ensures Numbered(Filter(WakeAll(rows, run), r, s))
    ensures LogOf(WakeAll(rows, run), r, s) ==
            if r == run then Wake(LogOf(rows, r, s)) else LogOf(rows, r, s)
  {
    assert Numbered(Filter(rows, r, s));
    FilterOfUpdate(rows, PendingSleepOf(run), Rewritten(Woken()), r, s);
    WakeHistory(Filter(rows, r, s), run, r, s);
  }

  /** Retiring the current attempt and inserting a new one appends to the log. */
  lemma RetireInsertRefines(rows: seq<Row>, run: RunId, step: string, body: Attempt)
    requires Valid(rows)
    ensures ChangedOnly(rows, Insert(Retire(rows, run, step), run, step, body), run, step,
                        LogOf(rows, run, step) + [body])
  {
    forall r: RunId, s: string
      ensures var after := Insert(Retire(rows, run, step), run, step, body);
              && Numbered(Filter(after, r, s))
              && LogOf(after, r, s) == LogOf(rows, r, s) + if (r, s) == (run, step) then [body] else []
    {
      RetireInsertOne(rows, run, step, body, r, s);
    }
  }

  lemma RetireInsertOne(rows: seq<Row>, run: RunId, step: string, body: Attempt, r: RunId, s: string)
    requires Valid(rows)
    ensures var after := Insert(Retire(rows, run, step), run, step, body);
            && Numbered(Filter(after, r, s))
            && LogOf(after, r, s) == LogOf(rows, r, s) + if (r, s) == (run, step) then [body] else []
  {
    var h := Filter(rows, r, s);
    assert Numbered(h);
    var retired := Retire(rows, run, step);
    var row := Row(run, step, MaxAttempt(retired, run, step) + 1, true, body);
    FilterOfInsert(retired, row, r, s);
    FilterOfUpdate(rows, LatestOf(run, step), Retired(), r, s);
    if (r, s) == (run, step) {
      RetiredLog(h, run, step);
      NextAttemptNumber(retired, run, step);
      AppendedLog(Filter(retired, run, step), row);
    } else {
      assert Update(h, LatestOf(run, step), Retired()) == h;
    }
  }

  lemma RetiredLog(h: seq<Row>, run: RunId, step: string)
    requires Numbered(h) && forall i :: 0 <= i < |h| ==> Of(h[i], run, step)
    ensures var after := Update(h, LatestOf(run, step), Retired());
            CurrentCleared(after) && Bodies(after) == Bodies(h)
  {
  }

  lemma AppendedLog(h: seq<Row>, row: Row)
    requires CurrentCleared(h) && row.attemptNumber == |h| + 1 && row.isLatest
    ensures Numbered(h + [row]) && Bodies(h + [row]) == Bodies(h) + [row.body]
  {
  }

  datatype FailReply = FailReply(scheduledRetry: bool, delayMs: Option<nat>)

  class StepRepository {
    var rows: seq<Row>
    const payloadMax: nat

    constructor (payloadMax: nat)
      ensures rows == [] && Valid(rows) && this.payloadMax == payloadMax
    {
      this.rows := [];
      this.payloadMax := payloadMax;
    }

    method Begin(run: RunId, step: string, kind: StepKind, input: Option<Bytes>, policy: Option<RetryPolicy>)
      returns (reply: Result<BeginReply>)
      requires Valid(rows)
      modifies this`rows
      ensures input.Some? && |input.value| > payloadMax ==> reply == Err(InvalidArgument) && rows == old(rows)
      ensures !(input.Some? && |input.value| > payloadMax) ==>
                var log := LogOf(old(rows), run, step);
                && reply == Ok(BeginReplyFor(log))
                && ChangedOnly(old(rows), rows, run, step, StepLog.Begin(log, kind, input, policy))
      ensures Valid(rows)
    {
      if input.Some? && |input.value| > payloadMax {
        return Err(InvalidArgument);
      }
      var existing := SelectOne(rows, LatestOf(run, step));
      SelectReadsLast(rows, run, step);
      if existing.Some? && existing.value.body.status == Completed {
        return Ok(BeginReply(false, existing.value.body.output));
      }
      var body := Attempt(kind, Running, input, None, None, policy);
      RetireInsertRefines(rows, run, step, body);
      rows := Retire(rows, run, step);
      rows := Insert(rows, run, step, body);
      return Ok(BeginReply(true, None));
    }

    method Complete(run: RunId, step: string, output: Bytes) returns (reply: Result<()>)
      requires Valid(rows)
      modifies this`rows
      ensures var log := LogOf(old(rows), run, step);
              && reply == (if |output| > payloadMax then Err(InvalidArgument)
                           else if log == [] then Err(NotFound)
                           else Ok(()))
              && (reply.Err? ==> rows == old(rows))
              && (reply.Ok? ==> ChangedOnly(old(rows), rows, run, step, StepLog.Complete(log, output)))
      ensures Valid(rows)
    {
      if |output| > payloadMax {
        return Err(InvalidArgument);
      }
      SelectReadsLast(rows, run, step);
      var latest := SelectOne(rows, LatestOf(run, step));
      if latest.None? {
        return Err(NotFound);
      }
      var finish := (a: Attempt) => a.(status := Completed, output := Some(output));
      AffectedCountsRunning(rows, run, step);
      var affected := Affected(rows, RunningOf(run, step));
      RewriteRefines(rows, run, step, true, finish);
      ghost var before := rows;
      rows := Rewrite(rows, run, step, true, finish);
      if affected == 0 {
        assert ChangedOnly(before, rows, run, step, LogOf(before, run, step));
        SelectReadsLast(rows, run, step);
        var existing := SelectOne(rows, LatestOf(run, step));
        if existing.Some? && existing.value.body.status == Completed {
          return Ok(());
        }
        var body := Attempt(latest.value.body.kind, Completed, None, Some(output), None, None);
        RetireInsertRefines(rows, run, step, body);
        rows := Retire(rows, run, step);
        rows := Insert(rows, run, step, body);
      }
      return Ok(());
    }

    /** `jitterMs` stands for the delay that the backoff library computes. */
    method Fail(run: RunId, step: string, runPolicy: Option<RetryPolicy>, error: StepError, jitterMs: nat)
      returns (reply: Result<FailReply>)
      requires Valid(rows)
      modifies this`rows
      ensures var log := LogOf(old(rows), run, step);
              && reply == (if log == [] then Err(NotFound)
                           else if WillRetry(log, runPolicy, error)
                           then Ok(FailReply(true, Some(error.retryAfterMs.GetOr(jitterMs))))
                           else Ok(FailReply(false, None)))
              && (reply.Err? ==> rows == old(rows))
              && (reply.Ok? ==> ChangedOnly(old(rows), rows, run, step, StepLog.Fail(log, runPolicy, error)))
      ensures Valid(rows)
    {
      SelectReadsLast(rows, run, step);
      var info := SelectOne(rows, LatestOf(run, step));
      var mark := (a: Attempt) => a.(status := Failed, error := Some(error.message));
      if info.Some? {
        var policy := PolicyAtFailure(info.value.body.policy, runPolicy);
        var shouldRetry := !error.nonRetryable && !IsNonRetryable(policy, error.message)
                           && ShouldRetry(policy, info.value.attemptNumber);
        if shouldRetry {
          var delayMs := error.retryAfterMs.GetOr(jitterMs);
          RewriteRefines(rows, run, step, false, mark);
          rows := Rewrite(rows, run, step, false, mark);
          return Ok(FailReply(true, Some(delayMs)));
        }
      }
      if info.None? {
        return Err(NotFound);
      }
      AffectedCountsRunning(rows, run, step);
      var affected := Affected(rows, RunningOf(run, step));
      RewriteRefines(rows, run, step, true, mark);
      rows := Rewrite(rows, run, step, true, mark);
      if affected == 0 {
        var body := Attempt(info.value.body.kind, Failed, None, None, Some(error.message), None);
        RetireInsertRefines(rows, run, step, body);
        rows := Retire(rows, run, step);
        rows := Insert(rows, run, step, body);
      }
      return Ok(FailReply(false, None));
    }

    /** `list` by step in order of creation, with a page of one row: the oldest attempt. */
    method ListOne(run: RunId, step: string) returns (attempt: Option<Attempt>)
      ensures attempt == if LogOf(rows, run, step) == [] then None else Some(LogOf(rows, run, step)[0])
    {
      SelectFirst(rows, run, step);
      var row := SelectOne(rows, OfStep(run, step));
      return if row.Some? then Some(row.value.body) else None;
    }

    method CompletePendingSleeps(run: RunId)
      requires Valid(rows)
      modifies this`rows
      ensures Valid(rows)
      ensures forall r: RunId, s: string ::
                LogOf(rows, r, s) == if r == run then Wake(LogOf(old(rows), r, s)) else LogOf(old(rows), r, s)
    {
      forall r: RunId, s: string
        ensures Numbered(Filter(WakeAll(rows, run), r, s))
        ensures LogOf(WakeAll(rows, run), r, s) == if r == run then Wake(LogOf(rows, r, s)) else LogOf(rows, r, s)
      {
        WakeAllRefines(rows, run, r, s);
      }
      rows := WakeAll(rows, run);
    }

    /** `text` is the payload read as UTF-8, when it is that. */
    method RecordLifecycleEvent(run: RunId, kind: StepKind, output: Option<Bytes>, text: Option<string>)
      returns (reply: Result<()>)
      requires Valid(rows)
      modifies this`rows
      ensures reply == (if !kind.IsLifecycle() || (output.Some? && |output.value| > payloadMax)
                        then Err(InvalidArgument) else Ok(()))
      ensures reply.Err? ==> rows == old(rows)
      ensures reply.Ok? ==>
                var step := LifecycleStep(kind);
                var error := if kind.WorkflowFailed? then text else None;
                ChangedOnly(old(rows), rows, run, step, Lifecycle(LogOf(old(rows), run, step), kind, output, error))
      ensures Valid(rows)
    {
      if !kind.IsLifecycle() {
        return Err(InvalidArgument);
      }
      var step := LifecycleStep(kind);
      if output.Some? && |output.value| > payloadMax {
        return Err(InvalidArgument);
      }
      var status := LifecycleStatus(kind);
      var error := if kind.WorkflowFailed? then text else None;
      SelectReadsLast(rows, run, step);
      var current := SelectOne(rows, LatestOf(run, step));
      var rewrite := (a: Attempt) => a.(status := status, output := output, error := error);
      RewriteRefines(rows, run, step, false, rewrite);
      rows := Rewrite(rows, run, step, false, rewrite);
      if current.None? {
        var body := Attempt(kind, status, None, output, error, None);
        RetireInsertRefines(rows, run, step, body);
        rows := Retire(rows, run, step);
        rows := Insert(rows, run, step, body);
      }
      return Ok(());
    }
  }
}
