/** The schedule handlers: the writers of a template's state other than the coordinator. */
module ScheduleServices {
  import opened Basics
  import opened CronSlots
  import opened Catchup
  import R = Runs
  import opened RunRepositories
  import L = Leases
  import opened Coordinators

  /** The template row that a request names, in its namespace. */
  predicate Names(rows: R.Table, id: RunId, namespace: string) {
    id in rows && rows[id].namespace == namespace
  }

  predicate ActiveUnder(r: R.Run, namespace: string, externalId: string) {
    r.namespace == namespace && r.externalId == externalId && !r.status.IsTerminal()
  }

  function ColumnsOf(r: R.Run): R.TemplateColumns {
    R.TemplateColumns(r.status, r.availableAt, r.cronExpr, r.scheduleId, r.maxCatchup, r.lastFiredAt)
  }

  function StatusFor(enabled: bool): R.RunStatus {
    if enabled then R.Scheduled else R.Paused
  }

  /** Only the row `id` changed, to `row`. */
  ghost predicate Wrote(before: R.Table, after: R.Table, id: RunId, row: R.Run) {
    after == before[id := row]
  }

  /** Writing the schedule columns of a template is the template's own step. */
  lemma WroteTemplate(r: R.Run, c: Cron, now: Instant, cronExpr: string, maxCatchup: int, enabled: bool)
    requires IsTemplate(r) && ValidLimit(maxCatchup)
    ensures var upserted := UpsertedRow(r, c, now, cronExpr, maxCatchup, enabled);
            && IsTemplate(upserted) && upserted.cronExpr == Some(cronExpr)
            && TemplateOf(upserted) == UpsertedTemplate(c, TemplateOf(r), now, maxCatchup, enabled)
    ensures var paused := r.(status := R.Paused);
            IsTemplate(paused) && TemplateOf(paused) == PausedTemplate(TemplateOf(r))
    ensures var resumed := ResumedRow(r, c, now);
            IsTemplate(resumed) && TemplateOf(resumed) == ResumedTemplate(c, TemplateOf(r), now)
  {
  }

  /** The answer shows the row as a schedule. That fails, after the write, for a row that lacks the
      expression or a time. */
  function Answer(r: R.Run): (reply: Result<()>)
    ensures reply.Ok? <==> r.cronExpr.Some? && r.availableAt.Some? && r.createdAt.Some?
    ensures reply.Err? ==> reply.error.InvalidArgument?
  {
    if r.cronExpr.None? || r.availableAt.None? || r.createdAt.None? then Err(InvalidArgument) else Ok(())
  }

  /** Nothing asks whether the row is a schedule. Pause, resume and upsert keep the invariant of a row if
      and only if the row is neither RUNNING nor terminal: they leave its lock and its end in place. */
  lemma ScheduleWritesKeepInvariant(r: R.Run, c: Cron, now: Instant, cronExpr: string, maxCatchup: int, enabled: bool)
    requires R.RowInvariant(r)
    ensures var ordinary := !r.status.Running? && !r.status.IsTerminal();
            && (R.RowInvariant(r.(status := R.Paused)) <==> ordinary)
            && (R.RowInvariant(ResumedRow(r, c, now)) <==> ordinary)
            && (R.RowInvariant(UpsertedRow(r, c, now, cronExpr, maxCatchup, enabled)) <==> ordinary)
  {
  }

  /** A claimed run that is paused as a schedule keeps its lock. */
  lemma PausedRunKeepsItsLock(params: R.NewRun, worker: WorkerId, now: Instant)
    ensures var claimed := R.Claimed(R.FreshRow(params, now), worker, 1, now);
            var paused := claimed.(status := R.Paused);
            R.RowInvariant(claimed) && !R.RowInvariant(paused) && paused.lockedBy == Some(worker)
  {
  }

  function UpsertedRow(r: R.Run, c: Cron, now: Instant, cronExpr: string, maxCatchup: int, enabled: bool): R.Run {
    r.(cronExpr := Some(cronExpr), availableAt := Some(After(c, now)), maxCatchup := maxCatchup,
    status := StatusFor(enabled))
  }

  function ResumedRow(r: R.Run, c: Cron, now: Instant): R.Run {
    r.(status := R.Scheduled, availableAt := Some(After(c, now)))
  }

  /** What a request to create a schedule says. */
  datatype Request = Request(
    namespace: string,
    scheduleId: string,
    params: R.NewRun,
    cronExpr: string,
    maxCatchup: int,
    enabled: bool)

  predicate Incomplete(q: Request) {
    q.namespace == "" || q.scheduleId == "" || q.params.taskQueue == "" || q.params.workflowType == "" ||
    q.cronExpr == ""
  }

  /** The first slot after now. */
  ghost predicate NextSlot(c: Cron, now: Instant, slot: Instant) {
    now < slot && exists k: nat :: c(k) == slot && forall i: nat :: i < k ==> c(i) <= now
  }

  /** The row is the schedule that the request asks for, as far as an upsert writes it. */
  ghost predicate Asked(r: R.Run, q: Request, parse: Parser, now: Instant) {
    && ActiveUnder(r, q.namespace, "schedule:" + q.scheduleId)
    && r.status == (if q.enabled then R.Scheduled else R.Paused)
    && r.cronExpr == Some(q.cronExpr) && r.maxCatchup == q.maxCatchup
    && r.availableAt.Some? && parse(q.cronExpr).Some?
    && NextSlot(parse(q.cronExpr).value, now, r.availableAt.value)
  }

  /** What becomes of the table: a refused request leaves it; if some run is active under the schedule's id
      then one such run is rewritten and nothing is added; and otherwise one row is, for the request's
      type and queue. */
  ghost predicate Upserts(before: R.Table, after: R.Table, q: Request, parse: Parser, now: Instant, newId: RunId,
                          reply: Result<()>, id: RunId)
  {
    var name := "schedule:" + q.scheduleId;
    var existing := exists other :: other in before && ActiveUnder(before[other], q.namespace, name);
    && (reply.Ok? ==> id in after && Asked(after[id], q, parse, now))
    && (existing ==> after.Keys == before.Keys)
    && (existing && after != before ==>
          id in before && ActiveUnder(before[id], q.namespace, name) && R.CopyOf(before[id], after[id]))
    && (!existing && after != before ==>
          && id == newId && reply.Ok? && after.Keys == before.Keys + {newId}
          && after[id].taskQueue == q.params.taskQueue && after[id].workflowType == q.params.workflowType
          && after[id].input == q.params.input && after[id].retryPolicy.None? && after[id].scheduleId.None?
          && after[id].createdAt == Some(now) && after[id].lastFiredAt.None?)
    && (forall other :: other in before && other != id ==> other in after && after[other] == before[other])
  }

  lemma AfterIsNextSlot(c: Cron, now: Instant)
    ensures NextSlot(c, now, After(c, now))
  {
    var n := UpTo(c, now);
    assert c(n) == After(c, now);
    forall i: nat | i < n ensures c(i) <= now {
      UpToCounts(c, now, i);
    }
  }

  /** The id under which a schedule is created is the one under which the next call looks for it: while the
      row of the first call is not terminal, whatever happened to it and to others meanwhile, a second call
      with the same namespace and schedule id adds no row; and it rewrites that row, if no other run is
      active under the id. */
  lemma SecondCallAddsNothing(
    before: R.Table, q: Request, parse: Parser, firstId: RunId, first: RunId, config: L.Config, s: L.Store,
    es: seq<L.Event>, after: R.Table, again: Request, secondId: RunId, reply: Result<()>, second: RunId)
    requires Upserts(before, s.runs, q, parse, s.now, firstId, Ok(()), first)
    requires R.TableInvariant(s.runs) && L.Legal(config, s, es)
    requires var later := L.Final(config, s, es);
             && first in later.runs && !later.runs[first].status.IsTerminal()
             && Upserts(later.runs, after, again, parse, later.now, secondId, reply, second)
    requires again.namespace == q.namespace && again.scheduleId == q.scheduleId
    ensures var later := L.Final(config, s, es);
            && after.Keys == later.runs.Keys
            && ((forall other :: other in later.runs && other != first ==>
                   !ActiveUnder(later.runs[other], q.namespace, "schedule:" + q.scheduleId)) ==>
                 after != later.runs ==> second == first)
  {
    L.IdentityIsFixed(config, s, es, first);
    var later := L.Final(config, s, es);
    assert ActiveUnder(later.runs[first], q.namespace, "schedule:" + q.scheduleId);
  }

  /** The run that a request creates. */
  function TemplateParams(q: Request): R.NewRun {
    q.params.(namespace := q.namespace, externalId := "schedule:" + q.scheduleId, retryPolicy := None,
    cronExpr := Some(q.cronExpr), scheduleId := None)
  }

  lemma ExistingUpserts(before: R.Table, q: Request, parse: Parser, now: Instant, newId: RunId, id: RunId)
    requires id in before && ActiveUnder(before[id], q.namespace, "schedule:" + q.scheduleId)
    requires parse(q.cronExpr).Some?
    ensures var row := UpsertedRow(before[id], parse(q.cronExpr).value, now, q.cronExpr, q.maxCatchup, q.enabled);
            Upserts(before, before[id := row], q, parse, now, newId, Answer(row), id)
  {
    AfterIsNextSlot(parse(q.cronExpr).value, now);
  }

  /** The row of a new schedule. */
  function CreatedRow(q: Request, c: Cron, now: Instant): R.Run {
    R.FreshRow(TemplateParams(q), now).(
    status := StatusFor(q.enabled), availableAt := Some(After(c, now)), maxCatchup := q.maxCatchup)
  }

  /** A created schedule is a template that has never fired. */
  lemma CreatedIsTemplate(q: Request, c: Cron, now: Instant)
    requires ValidLimit(q.maxCatchup)
    ensures IsTemplate(CreatedRow(q, c, now))
    ensures TemplateOf(CreatedRow(q, c, now)) == CreatedTemplate(c, now, q.maxCatchup, q.enabled)
  {
  }

  lemma CreatedUpserts(before: R.Table, q: Request, parse: Parser, now: Instant, newId: RunId)
    requires newId !in before && parse(q.cronExpr).Some?
    requires forall other :: other in before ==>
               !ActiveUnder(before[other], q.namespace, "schedule:" + q.scheduleId)
    ensures Upserts(before, before[newId := CreatedRow(q, parse(q.cronExpr).value, now)], q, parse, now, newId,
                    Ok(()), newId)
  {
    AfterIsNextSlot(parse(q.cronExpr).value, now);
  }

  class ScheduleService {
    const runs: RunRepository
    const parse: Parser

    constructor (runs: RunRepository, parse: Parser)
      ensures this.runs == runs && this.parse == parse
    {
      this.runs := runs;
      this.parse := parse;
    }

    /** Upsert by schedule id: whatever run is active under it keeps its last_fired_at and looks ahead
        from now under the new expression; otherwise a template is created. */
    method CreateWorkflowSchedule(q: Request, newId: RunId, now: Instant) returns (reply: Result<()>, id: RunId)
      requires newId !in runs.rows
      modifies runs`rows
      ensures Upserts(old(runs.rows), runs.rows, q, parse, now, newId, reply, id)
      ensures var refused := Incomplete(q) || parse(q.cronExpr).None?;
              var existing := exists other :: other in old(runs.rows) &&
                                ActiveUnder(old(runs.rows)[other], q.namespace, "schedule:" + q.scheduleId);
              if refused || (!existing && |q.params.input| > runs.payloadMax) then
                reply == Err(InvalidArgument) && runs.rows == old(runs.rows)
              else if existing then
                && id in old(runs.rows) && ActiveUnder(old(runs.rows)[id], q.namespace, "schedule:" + q.scheduleId)
                && var row := UpsertedRow(old(runs.rows)[id], parse(q.cronExpr).value, now, q.cronExpr, q.maxCatchup,
                                          q.enabled);
                   Wrote(old(runs.rows), runs.rows, id, row) && reply == Answer(row)
              else
                && id == newId && reply == Ok(())
                && Wrote(old(runs.rows), runs.rows, id, CreatedRow(q, parse(q.cronExpr).value, now))
    {
      id := newId;
      if Incomplete(q) {
        return Err(InvalidArgument), id;
      }
      var cron := parse(q.cronExpr);
      if cron.None? {
        return Err(InvalidArgument), id;
      }
      var firstFire := After(cron.value, now);
      var externalId := "schedule:" + q.scheduleId;
      if exists other :: other in runs.rows && ActiveUnder(runs.rows[other], q.namespace, externalId) {
        id :| id in runs.rows && ActiveUnder(runs.rows[id], q.namespace, externalId);
        ExistingUpserts(runs.rows, q, parse, now, newId, id);
        var columns := ColumnsOf(runs.rows[id]).(
          cronExpr := Some(q.cronExpr), availableAt := Some(firstFire), maxCatchup := q.maxCatchup,
          status := StatusFor(q.enabled));
        reply := runs.Update(id, columns, now);
        return Answer(runs.rows[id]), id;
      }
      CreatedUpserts(runs.rows, q, parse, now, newId);
      reply := CreateTemplate(q, firstFire, newId, now);
    }

    /** Nothing is active under the id: the run is created, and then made a template. */
    method CreateTemplate(q: Request, firstFire: Instant, newId: RunId, now: Instant) returns (reply: Result<()>)
      requires newId !in runs.rows
      modifies runs`rows
      ensures reply == if |q.params.input| > runs.payloadMax then Err(InvalidArgument) else Ok(())
      ensures runs.rows == if reply.Err? then old(runs.rows)
                           else old(runs.rows)[newId := R.FreshRow(TemplateParams(q), now).(
                                                          status := StatusFor(q.enabled),
                                                          availableAt := Some(firstFire), maxCatchup := q.maxCatchup)]
    {
      var created := runs.Create(newId, TemplateParams(q), now);
      if created.Err? {
        return Err(created.error);
      }
      var columns := ColumnsOf(runs.rows[newId]).(
        status := StatusFor(q.enabled), availableAt := Some(firstFire), maxCatchup := q.maxCatchup);
      reply := runs.Update(newId, columns, now);
      return Answer(runs.rows[newId]);
    }

    /** A terminal row has no time at which it is available, so the table refuses to pause it. Any other
        row is paused, and the answer may still fail. */
    method PauseWorkflowSchedule(id: RunId, namespace: string, now: Instant) returns (reply: Result<()>)
      modifies runs`rows
      ensures var rows := old(runs.rows);
              if namespace == "" then reply == Err(InvalidArgument) && runs.rows == rows
              else if !Names(rows, id, namespace) then reply == Err(NotFound) && runs.rows == rows
              else if rows[id].availableAt.None? then reply == Err(Internal) && runs.rows == rows
              else
                && Wrote(rows, runs.rows, id, rows[id].(status := R.Paused))
                && reply == Answer(rows[id])
    {
      if namespace == "" {
        return Err(InvalidArgument);
      }
      if !(id in runs.rows && runs.rows[id].namespace == namespace) {
        return Err(NotFound);
      }
      var schedule := runs.rows[id].(status := R.Paused);
      reply := runs.Update(id, ColumnsOf(schedule), now);
      if reply.Ok? {
        reply := Answer(schedule);
      }
    }

    method ResumeWorkflowSchedule(id: RunId, namespace: string, now: Instant) returns (reply: Result<()>)
      modifies runs`rows
      ensures var rows := old(runs.rows);
              if namespace == "" then reply == Err(InvalidArgument) && runs.rows == rows
              else if !Names(rows, id, namespace) then reply == Err(NotFound) && runs.rows == rows
              else if CronOf(parse, rows[id]).None? then reply == Err(InvalidArgument) && runs.rows == rows
              else
                var row := ResumedRow(rows[id], CronOf(parse, rows[id]).value, now);
                Wrote(rows, runs.rows, id, row) && reply == Answer(row)
      ensures reply.Ok? ==>
                && id in runs.rows && runs.rows[id].status.Scheduled? && runs.rows[id].cronExpr.Some?
                && parse(runs.rows[id].cronExpr.value).Some? && runs.rows[id].availableAt.Some?
                && NextSlot(parse(runs.rows[id].cronExpr.value).value, now, runs.rows[id].availableAt.value)
    {
      if namespace == "" {
        return Err(InvalidArgument);
      }
      if !(id in runs.rows && runs.rows[id].namespace == namespace) {
        return Err(NotFound);
      }
      var cron := CronOf(parse, runs.rows[id]);
      if cron.None? {
        return Err(InvalidArgument);
      }
      var nextFire := After(cron.value, now);
      AfterIsNextSlot(cron.value, now);
      var schedule := runs.rows[id].(status := R.Scheduled, availableAt := Some(nextFire));
      reply := runs.Update(id, ColumnsOf(schedule), now);
      if reply.Ok? {
        reply := Answer(schedule);
      }
    }

    /** Enabling and disabling are resume and pause. A new expression in the request is checked and then
        dropped: the row keeps its own. */
    method UpdateWorkflowSchedule(id: RunId, namespace: string, cronExpr: Option<string>, enabled: Option<bool>,
                                  now: Instant)
      returns (reply: Result<()>)
      modifies runs`rows
      ensures var rows := old(runs.rows);
              if namespace == "" then reply == Err(InvalidArgument) && runs.rows == rows
              else if !Names(rows, id, namespace) then reply == Err(NotFound) && runs.rows == rows
              else if (cronExpr.Some? && parse(cronExpr.value).None?)
                      || (enabled == Some(true) && CronOf(parse, rows[id]).None?) then
                reply == Err(InvalidArgument) && runs.rows == rows
              else if enabled == Some(false) && rows[id].availableAt.None? then
                reply == Err(Internal) && runs.rows == rows
              else
                var row := if enabled == Some(true) then ResumedRow(rows[id], CronOf(parse, rows[id]).value, now)
                           else if enabled == Some(false) then rows[id].(status := R.Paused)
                           else rows[id];
                Wrote(rows, runs.rows, id, row) && reply == Answer(row)
    {
      if namespace == "" {
        return Err(InvalidArgument);
      }
      if !(id in runs.rows && runs.rows[id].namespace == namespace) {
        return Err(NotFound);
      }
      if cronExpr.Some? && parse(cronExpr.value).None? {
        return Err(InvalidArgument);
      }
      var columns := ColumnsOf(runs.rows[id]);
      if enabled == Some(true) {
        var cron := CronOf(parse, runs.rows[id]);
        if cron.None? {
          return Err(InvalidArgument);
        }
        columns := columns.(availableAt := Some(After(cron.value, now)));
      }
      if enabled.Some? {
        reply := runs.Update(id, columns.(status := StatusFor(enabled.value)), now);
        if reply.Err? {
          return;
        }
      }
      return Answer(runs.rows[id]);
    }
  }
}
