/** The `workflow_runs` table: one row per run, serving as queue entry, lease and schedule template.
    Each repository statement is a function on the table; RunRepository executes them in place. */
module Runs {
  import opened Basics
  import opened RetryPolicies

  datatype RunStatus =
    | Pending | Running | Sleeping
    | Completed | Failed | Cancelled
    | Scheduled | Paused
  {
    predicate IsTerminal() {
      Completed? || Failed? || Cancelled?
    }

    predicate CanCancel() {
      Pending? || Running? || Sleeping?
    }

    predicate IsScheduleTemplate() {
      Scheduled? || Paused?
    }
  }

  datatype Run = Run(
    namespace: string,
    externalId: string,
    taskQueue: string,
    workflowType: string,
    status: RunStatus,
    input: Bytes,
    output: Option<Bytes>,
    lockedBy: Option<WorkerId>,
    attempts: nat,
    error: Option<string>,
    createdAt: Option<Instant>,
    startedAt: Option<Instant>,
    finishedAt: Option<Instant>,
    availableAt: Option<Instant>,
    retryPolicy: Option<RetryPolicy>,
    cronExpr: Option<string>,
    scheduleId: Option<RunId>,
    lastFiredAt: Option<Instant>,
    maxCatchup: int)

  type Table = map<RunId, Run>

  datatype NewRun = NewRun(
    namespace: string,
    externalId: string,
    taskQueue: string,
    workflowType: string,
    input: Bytes,
    retryPolicy: Option<RetryPolicy>,
    cronExpr: Option<string>,
    scheduleId: Option<RunId>)

  const DEFAULT_MAX_CATCHUP := 50

  function FreshRow(n: NewRun, now: Instant): Run {
    Run(n.namespace, n.externalId, n.taskQueue, n.workflowType, Pending, n.input, None, None, 0, None,
        Some(now), None, None, Some(now), n.retryPolicy, n.cronExpr, n.scheduleId, None, DEFAULT_MAX_CATCHUP)
  }

  function InstanceRow(template: Run, templateId: RunId, externalId: string, fireAt: Instant, now: Instant): Run {
    Run(template.namespace, externalId, template.taskQueue, template.workflowType, Pending, template.input,
        None, None, 0, None, Some(now), None, None, Some(fireAt), template.retryPolicy, None,
        Some(templateId), None, DEFAULT_MAX_CATCHUP)
  }

  /** What an instance takes over from its template. */
  predicate CopyOf(template: Run, r: Run) {
    && r.namespace == template.namespace
    && r.taskQueue == template.taskQueue && r.workflowType == template.workflowType
    && r.input == template.input && r.retryPolicy == template.retryPolicy
  }

  /** The columns that `update` writes. */
  datatype TemplateColumns = TemplateColumns(
    status: RunStatus,
    availableAt: Option<Instant>,
    cronExpr: Option<string>,
    scheduleId: Option<RunId>,
    maxCatchup: int,
    lastFiredAt: Option<Instant>)

  datatype Filter = Filter(namespace: string, taskQueue: string, types: seq<string>)

  datatype Op =
    | Create(id: RunId, params: NewRun)
    | CreateInstance(template: RunId, newId: RunId, externalId: string, fireAt: Instant)
    | UpdateNextFire(id: RunId, nextFireAt: Instant, last: Option<Instant>)
    | UpdateColumns(id: RunId, columns: TemplateColumns)
    | Poll(filter: Filter, worker: WorkerId, visibilitySecs: int, chosen: Option<RunId>)
    | Complete(id: RunId, output: Bytes)
    | Fail(id: RunId, error: string)
    | Cancel(id: RunId, namespace: string)
    | ScheduleSleep(id: RunId, secs: nat)
    | ScheduleRetry(id: RunId, delayMs: nat)
    | ExtendVisibility(worker: WorkerId, extensionSecs: int)

  // ----- Statements on one row -----

  predicate Waiting(r: Run) {
    r.status.Pending? || r.status.Sleeping? || r.status.Running?
  }

  predicate Due(r: Run, now: Instant) {
    r.availableAt.Some? && r.availableAt.value <= now
  }

  predicate Matches(r: Run, f: Filter) {
    r.namespace == f.namespace && r.taskQueue == f.taskQueue && (f.types == [] || r.workflowType in f.types)
  }

  predicate Eligible(r: Run, f: Filter, now: Instant) {
    Matches(r, f) && Waiting(r) && Due(r, now)
  }

  function Claimed(r: Run, worker: WorkerId, visibilitySecs: int, now: Instant): Run {
    r.(status := Running, lockedBy := Some(worker), availableAt := Some(now + visibilitySecs * MICROS_PER_SECOND),
    startedAt := r.startedAt.Or(Some(now)), attempts := r.attempts + 1)
  }

  /** The output column is written whatever the status. */
  function CompletedRow(r: Run, output: Bytes, now: Instant): Run {
    var r' := if r.status.Running?
              then r.(status := Completed, finishedAt := Some(now), lockedBy := None, availableAt := None) else r;
    r'.(output := Some(output))
  }

  function FailedRow(r: Run, error: string, now: Instant): Run {
    if r.status.Running?
    then r.(status := Failed, error := Some(error), finishedAt := Some(now), lockedBy := None, availableAt := None)
    else r
  }

  function CancelledRow(r: Run, now: Instant): Run {
    if r.status.CanCancel()
    then r.(status := Cancelled, finishedAt := Some(now), lockedBy := None, availableAt := None)
    else r
  }

  function SleepingRow(r: Run, secs: nat, now: Instant): Run {
    if r.status.Running?
    then r.(status := Sleeping, availableAt := Some(now + secs * MICROS_PER_SECOND), lockedBy := None)
    else r
  }

  function RetryRow(r: Run, delayMs: nat, now: Instant): Run {
    if r.status.Running?
    then r.(status := Pending, lockedBy := None, availableAt := Some(now + delayMs * MICROS_PER_MILLI))
    else r
  }

  function ExtendedRow(r: Run, worker: WorkerId, extensionSecs: int, now: Instant): Run {
    if r.lockedBy == Some(worker) && r.status.Running? then
      var from := if r.availableAt.Some? && r.availableAt.value >= now then r.availableAt.value else now;
      r.(availableAt := Some(from + extensionSecs * MICROS_PER_SECOND))
    else r
  }

  function WithColumns(r: Run, c: TemplateColumns): Run {
    r.(status := c.status, availableAt := c.availableAt, cronExpr := c.cronExpr, scheduleId := c.scheduleId,
    maxCatchup := c.maxCatchup, lastFiredAt := c.lastFiredAt)
  }

  /** The check `chk_available_at`: only terminal rows may lack the time they are available. */
  predicate Storable(c: TemplateColumns) {
    c.status.IsTerminal() || c.availableAt.Some?
  }

  // ----- Statements on the table -----

  /** The ON CONFLICT target of an instance: one row per (schedule_id, available_at). */
  predicate SlotTaken(rows: Table, template: RunId, fireAt: Instant) {
    exists id :: id in rows && rows[id].scheduleId == Some(template) && rows[id].availableAt == Some(fireAt)
  }

  /** `chosen` is an eligible row that became available first. */
  predicate FirstAvailable(rows: Table, f: Filter, now: Instant, chosen: RunId) {
    && chosen in rows
    && Eligible(rows[chosen], f, now)
    && forall id :: id in rows && Eligible(rows[id], f, now) ==>
                      rows[chosen].availableAt.value <= rows[id].availableAt.value
  }

  /** When a statement is issued in the histories of a store: identifiers are fresh, a poll picks a first
      available row, and the schedule statements name template rows. */
  predicate CanExecute(rows: Table, now: Instant, op: Op) {
    match op
    case Create(id, _) => id !in rows
    case CreateInstance(template, newId, _, _) =>
      newId !in rows && template in rows && rows[template].status.IsScheduleTemplate()
    case UpdateNextFire(id, _, _) => id in rows && rows[id].status.IsScheduleTemplate()
    case UpdateColumns(id, c) =>
      id in rows && c.status.IsScheduleTemplate() && c.availableAt.Some? &&
      (rows[id].status.IsScheduleTemplate() || (rows[id].status.Pending? && rows[id].cronExpr.Some?))
    case Poll(f, _, _, chosen) =>
      (match chosen
       case Some(id) => FirstAvailable(rows, f, now, id)
       case None => forall id :: id in rows ==> !Eligible(rows[id], f, now))
    case _ => true
  }

  function Execute(rows: Table, now: Instant, op: Op): Table {
    match op
    case Create(id, params) => rows[id := FreshRow(params, now)]
    case CreateInstance(template, newId, externalId, fireAt) =>
      if template !in rows || SlotTaken(rows, template, fireAt) then rows
      else rows[newId := InstanceRow(rows[template], template, externalId, fireAt, now)]
    case UpdateNextFire(id, nextFireAt, last) =>
      if id in rows
      then rows[id := rows[id].(availableAt := Some(nextFireAt), lastFiredAt := last.Or(rows[id].lastFiredAt))]
      else rows
    case UpdateColumns(id, c) => if id in rows && Storable(c) then rows[id := WithColumns(rows[id], c)] else rows
    case Poll(_, worker, visibilitySecs, chosen) =>
      if chosen.Some? && chosen.value in rows
      then rows[chosen.value := Claimed(rows[chosen.value], worker, visibilitySecs, now)] else rows
    case Complete(id, output) => if id in rows then rows[id := CompletedRow(rows[id], output, now)] else rows
    case Fail(id, error) => if id in rows then rows[id := FailedRow(rows[id], error, now)] else rows
    case Cancel(id, namespace) =>
      if id in rows && rows[id].namespace == namespace then rows[id := CancelledRow(rows[id], now)] else rows
    case ScheduleSleep(id, secs) => if id in rows then rows[id := SleepingRow(rows[id], secs, now)] else rows
    case ScheduleRetry(id, delayMs) => if id in rows then rows[id := RetryRow(rows[id], delayMs, now)] else rows
    case ExtendVisibility(worker, extensionSecs) =>
      map id | id in rows :: ExtendedRow(rows[id], worker, extensionSecs, now)
  }

  /** Statements of others, one after the other. */
  function Meanwhile(rows: Table, others: seq<(Instant, Op)>): Table
    decreases |others|
  {
    if others == [] then rows else Meanwhile(Execute(rows, others[0].0, others[0].1), others[1..])
  }

  // ----- The invariant of a row -----

  /** RUNNING exactly under a lock; terminal exactly when not available and finished; a completed run
      has its output. */
  predicate RowInvariant(r: Run) {
    && (r.status.Running? <==> r.lockedBy.Some?)
    && (r.status.IsTerminal() <==> r.availableAt.None?)
    && (r.status.IsTerminal() <==> r.finishedAt.Some?)
    && (r.status.Completed? ==> r.output.Some?)
  }

  ghost predicate TableInvariant(rows: Table) {
    forall id :: id in rows ==> RowInvariant(rows[id])
  }

  /** How one statement can change a row that exists: it keeps the invariant, never leaves a terminal
      status, counts a claim exactly when it is the poll that chose the row, and turns nothing else
      into RUNNING. */
  lemma StatementOnRow(rows: Table, now: Instant, op: Op, id: RunId)
    requires TableInvariant(rows) && CanExecute(rows, now, op) && id in rows
    ensures var rows' := Execute(rows, now, op);
            && id in rows'
            && RowInvariant(rows'[id])
            && (rows[id].status.IsTerminal() ==> rows'[id].status == rows[id].status)
            && rows'[id].attempts == rows[id].attempts + (if op.Poll? && op.chosen == Some(id) then 1 else 0)
            && (rows'[id].status.Running? ==> rows[id].status.Running? || (op.Poll? && op.chosen == Some(id)))
  {
    assert RowInvariant(rows[id]);
  }

  /** The status machine: the only moves there are, and who makes them. */
  lemma StatusMoves(rows: Table, now: Instant, op: Op, id: RunId)
    requires CanExecute(rows, now, op) && id in rows
    ensures var from := rows[id].status;
            Execute(rows, now, op)[id].status ==
            match op
            case Poll(_, _, _, chosen) => if chosen == Some(id) then Running else from
            case Complete(i, _) => if i == id && from.Running? then Completed else from
            case Fail(i, _) => if i == id && from.Running? then Failed else from
            case ScheduleSleep(i, _) => if i == id && from.Running? then Sleeping else from
            case ScheduleRetry(i, _) => if i == id && from.Running? then Pending else from
            case Cancel(i, namespace) =>
              if i == id && namespace == rows[id].namespace && (from.Pending? || from.Sleeping? || from.Running?)
              then Cancelled else from
            case UpdateColumns(i, columns) => if i == id && Storable(columns) then columns.status else from
            case _ => from
  {
  }

  /** Completing a run leaves it COMPLETED with the output if and only if it was RUNNING, or COMPLETED
      before; in any other status it is given the output all the same and stays what it was. */
  lemma CompleteWritesOutput(rows: Table, now: Instant, id: RunId, output: Bytes)
    requires id in rows
    ensures var r, r' := rows[id], Execute(rows, now, Complete(id, output))[id];
            && r'.output == Some(output)
            && (r'.status.Completed? <==> r.status.Running? || r.status.Completed?)
            && (!r'.status.Completed? ==> r'.status == r.status)
  {
  }

  /** A run asleep that has an output. */
  lemma OutputWithoutCompletion(id: RunId, params: NewRun, now: Instant, worker: WorkerId, output: Bytes)
    ensures var rows := map[id := SleepingRow(Claimed(FreshRow(params, now), worker, 1, now), 1, now)];
            var after := Execute(rows, now, Complete(id, output));
            RowInvariant(rows[id]) && after[id].status.Sleeping? && after[id].output == Some(output)
  {
  }

  /** What no statement changes: the run's identity, its input and policy, and its first start. */
  predicate SameIdentity(r: Run, r': Run) {
    && r'.namespace == r.namespace && r'.externalId == r.externalId
    && r'.taskQueue == r.taskQueue && r'.workflowType == r.workflowType
    && r'.input == r.input && r'.retryPolicy == r.retryPolicy && r'.createdAt == r.createdAt
    && (r.startedAt.Some? ==> r'.startedAt == r.startedAt)
    && (r.finishedAt.Some? ==> r'.finishedAt == r.finishedAt)
  }

  lemma StatementKeepsIdentity(rows: Table, now: Instant, op: Op, id: RunId)
    requires TableInvariant(rows) && CanExecute(rows, now, op) && id in rows
    ensures id in Execute(rows, now, op) && SameIdentity(rows[id], Execute(rows, now, op)[id])
  {
    assert RowInvariant(rows[id]);
  }

  /** Rows are only added by the two inserts, and a row starts waiting, unclaimed and never attempted. */
  lemma StatementAddsRows(rows: Table, now: Instant, op: Op, id: RunId)
    requires CanExecute(rows, now, op) && id !in rows && id in Execute(rows, now, op)
    ensures (op.Create? && op.id == id) || (op.CreateInstance? && op.newId == id)
    ensures var r := Execute(rows, now, op)[id];
            RowInvariant(r) && r.status.Pending? && r.attempts == 0
  {
  }

  lemma StatementKeepsInvariant(rows: Table, now: Instant, op: Op)
    requires TableInvariant(rows) && CanExecute(rows, now, op)
    ensures TableInvariant(Execute(rows, now, op))
  {
    forall id | id in Execute(rows, now, op) ensures RowInvariant(Execute(rows, now, op)[id]) {
      if id in rows {
        StatementOnRow(rows, now, op, id);
      } else {
        StatementAddsRows(rows, now, op, id);
      }
    }
  }

  lemma {:induction false} EarliestOf(rows: Table, among: set<RunId>) returns (first: RunId)
    requires among != {} && among <= rows.Keys
    requires forall id :: id in among ==> rows[id].availableAt.Some?
    ensures first in among
    ensures forall id :: id in among ==> rows[first].availableAt.value <= rows[id].availableAt.value
    decreases |among|
  {
    var some: RunId :| some in among;
    var rest := among - {some};
    first := some;
    if rest != {} {
      var best := EarliestOf(rows, rest);
      first := if rows[best].availableAt.value < rows[some].availableAt.value then best else some;
    }
    forall id | id in among ensures rows[first].availableAt.value <= rows[id].availableAt.value {
      assert id == some || id in rest;
    }
  }

  /** A poll always has a row to choose when one is eligible. */
  lemma FirstAvailableExists(rows: Table, f: Filter, now: Instant)
    requires exists id :: id in rows && Eligible(rows[id], f, now)
    ensures exists id :: FirstAvailable(rows, f, now, id)
  {
    var eligible := set id | id in rows && Eligible(rows[id], f, now);
    var some: RunId :| some in rows && Eligible(rows[some], f, now);
    assert some in eligible;
    var first := EarliestOf(rows, eligible);
    assert FirstAvailable(rows, f, now, first);
  }
}
