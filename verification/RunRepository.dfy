/** The workflow repository: the statements of Runs executed in place on the table. */
module RunRepositories {
  import opened Basics
  import opened Runs

  datatype Claim = Claim(runId: RunId, workflowType: string, input: Bytes, lockedBy: Option<WorkerId>)

  class RunRepository {
    var rows: Table
    const payloadMax: nat

    constructor (payloadMax: nat)
      ensures rows == map[] && this.payloadMax == payloadMax
    {
      this.rows := map[];
      this.payloadMax := payloadMax;
    }

    method Create(id: RunId, params: NewRun, now: Instant) returns (reply: Result<RunId>)
      requires id !in rows
      modifies this`rows
      ensures reply == if |params.input| > payloadMax then Err(InvalidArgument) else Ok(id)
      ensures rows == if reply.Ok? then Execute(old(rows), now, Op.Create(id, params)) else old(rows)
      ensures reply.Ok? ==>
                && id in rows && rows == old(rows)[id := rows[id]]
                && rows[id].namespace == params.namespace && rows[id].externalId == params.externalId
                && rows[id].taskQueue == params.taskQueue && rows[id].workflowType == params.workflowType
                && rows[id].input == params.input && rows[id].retryPolicy == params.retryPolicy
                && rows[id].cronExpr == params.cronExpr && rows[id].scheduleId == params.scheduleId
                && rows[id].status.Pending? && rows[id].availableAt == Some(now) && rows[id].createdAt == Some(now)
                && rows[id].lockedBy.None? && rows[id].attempts == 0 && rows[id].maxCatchup == 50
                && rows[id].startedAt.None? && rows[id].finishedAt.None? && rows[id].lastFiredAt.None?
                && rows[id].output.None? && rows[id].error.None?
    {
      if |params.input| > payloadMax {
        return Err(InvalidArgument);
      }
      rows := rows[id := FreshRow(params, now)];
      return Ok(id);
    }

    /** Claims a first available row; among rows that became available together any may be chosen. */
    method PollWorkflow(filter: Filter, worker: WorkerId, visibilitySecs: int, now: Instant)
      returns (claim: Option<Claim>)
      modifies this`rows
      ensures var op := Poll(filter, worker, visibilitySecs, if claim.Some? then Some(claim.value.runId) else None);
              CanExecute(old(rows), now, op) && rows == Execute(old(rows), now, op)
      ensures claim.Some? ==>
                && claim.value.runId in old(rows) && claim.value.runId in rows
                && var r, r' := old(rows)[claim.value.runId], rows[claim.value.runId];
                   && r.namespace == filter.namespace && r.taskQueue == filter.taskQueue
                   && (filter.types == [] || r.workflowType in filter.types)
                   && (r.status.Pending? || r.status.Sleeping? || r.status.Running?)
                   && r.availableAt.Some? && r.availableAt.value <= now
                   && r' == r.(status := Running, lockedBy := Some(worker), attempts := r.attempts + 1,
                               availableAt := Some(now + visibilitySecs * 1_000_000),
                               startedAt := if r.startedAt.Some? then r.startedAt else Some(now))
                   && claim.value == Claim(claim.value.runId, r.workflowType, r.input, Some(worker))
      ensures claim.None? ==>
                forall id :: id in rows && rows[id].namespace == filter.namespace
                             && rows[id].taskQueue == filter.taskQueue
                             && (filter.types == [] || rows[id].workflowType in filter.types)
                             && (rows[id].status.Pending? || rows[id].status.Sleeping? || rows[id].status.Running?) ==>
                               rows[id].availableAt.Some? ==> rows[id].availableAt.value > now
    {
      if exists id :: id in rows && Eligible(rows[id], filter, now) {
        FirstAvailableExists(rows, filter, now);
        var task :| task in rows && FirstAvailable(rows, filter, now, task);
        rows := rows[task := Claimed(rows[task], worker, visibilitySecs, now)];
        return Some(Claim(task, rows[task].workflowType, rows[task].input, rows[task].lockedBy));
      }
      return None;
    }

    method Cancel(id: RunId, namespace: string, now: Instant) returns (cancelled: bool)
      modifies this`rows
      ensures rows == Execute(old(rows), now, Op.Cancel(id, namespace))
      ensures cancelled <==>
                id in old(rows) && old(rows)[id].namespace == namespace &&
                var status := old(rows)[id].status; status.Pending? || status.Sleeping? || status.Running?
      ensures rows == if cancelled
                      then old(rows)[id := old(rows)[id].(status := Cancelled, finishedAt := Some(now),
                                                          lockedBy := None, availableAt := None)]
                      else old(rows)
    {
      if id in rows && rows[id].namespace == namespace && rows[id].status.Running? {
        rows := rows[id := rows[id].(
          status := Cancelled, finishedAt := Some(now), lockedBy := None, availableAt := None)];
        return true;
      }
      if id in rows && rows[id].namespace == namespace && (rows[id].status.Pending? || rows[id].status.Sleeping?) {
        rows := rows[id := rows[id].(
          status := Cancelled, finishedAt := Some(now), lockedBy := None, availableAt := None)];
        return true;
      }
      assert rows == Execute(rows, now, Op.Cancel(id, namespace));
      return false;
    }

    method Complete(id: RunId, output: Bytes, now: Instant) returns (reply: Result<()>)
      modifies this`rows
      ensures reply == if |output| > payloadMax then Err(InvalidArgument) else Ok(())
      ensures rows == if reply.Ok? then Execute(old(rows), now, Op.Complete(id, output)) else old(rows)
      ensures reply.Ok? && id in old(rows) ==>
                rows == old(rows)[id := if old(rows)[id].status.Running?
                                        then old(rows)[id].(status := Completed, output := Some(output),
                                                            finishedAt := Some(now), lockedBy := None,
                                                            availableAt := None)
                                        else old(rows)[id].(output := Some(output))]
    {
      if |output| > payloadMax {
        return Err(InvalidArgument);
      }
      if id in rows && rows[id].status.Running? {
        rows := rows[id := rows[id].(
          status := Completed, finishedAt := Some(now), lockedBy := None, availableAt := None)];
      }
      if id in rows {
        rows := rows[id := rows[id].(output := Some(output))];
      }
      return Ok(());
    }

    method Fail(id: RunId, error: string, now: Instant)
      modifies this`rows
      ensures rows == Execute(old(rows), now, Op.Fail(id, error))
      ensures rows == if id in old(rows) && old(rows)[id].status.Running?
                      then old(rows)[id := old(rows)[id].(status := Failed, error := Some(error),
                                                          finishedAt := Some(now), lockedBy := None,
                                                          availableAt := None)]
                      else old(rows)
    {
      if id in rows {
        rows := rows[id := FailedRow(rows[id], error, now)];
      }
    }

    method ScheduleSleep(id: RunId, secs: nat, now: Instant)
      modifies this`rows
      ensures rows == Execute(old(rows), now, Op.ScheduleSleep(id, secs))
    {
      if id in rows {
        rows := rows[id := SleepingRow(rows[id], secs, now)];
      }
    }

    method ScheduleRetry(id: RunId, delayMs: nat, now: Instant)
      modifies this`rows
      ensures rows == Execute(old(rows), now, Op.ScheduleRetry(id, delayMs))
    {
      if id in rows {
        rows := rows[id := RetryRow(rows[id], delayMs, now)];
      }
    }

    method ExtendVisibility(worker: WorkerId, extensionSecs: int, now: Instant) returns (extended: nat)
      modifies this`rows
      ensures rows == Execute(old(rows), now, Op.ExtendVisibility(worker, extensionSecs))
      ensures extended == |set id | id in old(rows) && old(rows)[id].lockedBy == Some(worker)
                                    && old(rows)[id].status.Running?|
    {
      extended := |set id | id in rows && rows[id].lockedBy == Some(worker) && rows[id].status.Running?|;
      rows := map id | id in rows :: ExtendedRow(rows[id], worker, extensionSecs, now);
    }

    method CreateScheduleInstance(template: RunId, fireAt: Instant, newId: RunId, externalId: string, now: Instant)
      returns (created: Option<RunId>)
      requires newId !in rows
      modifies this`rows
      ensures rows == Execute(old(rows), now, CreateInstance(template, newId, externalId, fireAt))
      ensures created == if template in old(rows) && !SlotTaken(old(rows), template, fireAt) then Some(newId) else None
      ensures created.Some? ==>
                && newId in rows && rows == old(rows)[newId := rows[newId]]
                && CopyOf(old(rows)[template], rows[newId])
                && rows[newId].externalId == externalId && rows[newId].scheduleId == Some(template)
                && rows[newId].cronExpr.None?
                && rows[newId].status.Pending? && rows[newId].availableAt == Some(fireAt)
                && rows[newId].createdAt == Some(now) && rows[newId].startedAt.None? && rows[newId].finishedAt.None?
                && rows[newId].lockedBy.None? && rows[newId].attempts == 0
                && rows[newId].output.None? && rows[newId].error.None?
    {
      if template !in rows || SlotTaken(rows, template, fireAt) {
        return None;
      }
      rows := rows[newId := InstanceRow(rows[template], template, externalId, fireAt, now)];
      return Some(newId);
    }

    method UpdateNextFire(id: RunId, nextFireAt: Instant, last: Option<Instant>, now: Instant)
      modifies this`rows
      ensures rows == Execute(old(rows), now, Op.UpdateNextFire(id, nextFireAt, last))
      ensures id in old(rows) ==>
                rows == old(rows)[id := old(rows)[id].(
                                    availableAt := Some(nextFireAt),
                                    lastFiredAt := if last.None? then old(rows)[id].lastFiredAt else last)]
    {
      if id !in rows {
        return;
      }
      if last.Some? {
        rows := rows[id := rows[id].(availableAt := Some(nextFireAt), lastFiredAt := last)];
      } else {
        rows := rows[id := rows[id].(availableAt := Some(nextFireAt))];
      }
    }

    method Update(id: RunId, columns: TemplateColumns, now: Instant) returns (reply: Result<()>)
      modifies this`rows
      ensures reply == if id in old(rows) && !Storable(columns) then Err(Internal) else Ok(())
      ensures rows == Execute(old(rows), now, UpdateColumns(id, columns))
      ensures id in old(rows) && reply.Ok? ==>
                rows == old(rows)[id := old(rows)[id].(
                                    status := columns.status, availableAt := columns.availableAt,
                                    cronExpr := columns.cronExpr, scheduleId := columns.scheduleId,
                                    maxCatchup := columns.maxCatchup, lastFiredAt := columns.lastFiredAt)]
    {
      if id in rows {
        if !Storable(columns) {
          return Err(Internal);
        }
        rows := rows[id := WithColumns(rows[id], columns)];
      }
      return Ok(());
    }

    /** What others do to the table between two calls. */
    method OthersExecute(others: seq<(Instant, Op)>)
      modifies this`rows
      ensures rows == Meanwhile(old(rows), others)
    {
      for i := 0 to |others|
        invariant Meanwhile(rows, others[i..]) == Meanwhile(old(rows), others)
      {
        assert others[i..][0] == others[i] && others[i..][1..] == others[i + 1..];
        rows := Execute(rows, others[i].0, others[i].1);
      }
    }
  }
}
