/** The coordinator's tick over the due templates, and what happens when it stops half-way. */
module Coordinators {
  import opened Basics
  import opened CronSlots
  import opened Catchup
  import R = Runs
  import opened RunRepositories
  import L = Leases
  import W = Workers
  import opened TokenText

  /** Reading a cron expression; the cron library is a parameter. */
  type Parser = string -> Option<Cron>

  /** A row that stands as a schedule; its limit is an i32. */
  predicate IsScheduleRow(r: R.Run) {
    r.status.IsScheduleTemplate() && r.availableAt.Some? && ValidLimit(r.maxCatchup)
  }

  /** One with a cron expression. */
  predicate IsTemplate(r: R.Run) {
    IsScheduleRow(r) && r.cronExpr.Some?
  }

  function TemplateOf(r: R.Run): Template
    requires r.availableAt.Some?
  {
    Template(r.status.Scheduled?, r.availableAt.value, r.lastFiredAt, r.createdAt, r.maxCatchup)
  }

  function WithTimes(r: R.Run, t: Template): R.Run {
    r.(availableAt := Some(t.availableAt), lastFiredAt := t.lastFiredAt)
  }

  function CronOf(parse: Parser, r: R.Run): Option<Cron> {
    if r.cronExpr.Some? then parse(r.cronExpr.value) else None
  }

  /** The template row after it was processed. */
  function TickedRow(c: Cron, r: R.Run, now: Instant, allowed: bool): R.Run
    requires IsTemplate(r)
  {
    WithTimes(r, Tick(c, TemplateOf(r), now, allowed))
  }

  /** The external id of an instance. */
  function InstanceName(id: RunId): string {
    "schedule-instance-" + PrintUuid(id)
  }

  /** A poll for the template's type, in its namespace and queue. */
  function QueueOf(template: R.Run): R.Filter {
    R.Filter(template.namespace, template.taskQueue, [template.workflowType])
  }

  /** No two runs get one instance name; identifiers have 128 bits. */
  lemma InstanceNamesDiffer(a: RunId, b: RunId)
    requires a < UUID_LIMIT && b < UUID_LIMIT && a != b
    ensures InstanceName(a) != InstanceName(b)
  {
    UuidRoundTrip(a);
    UuidRoundTrip(b);
    var prefix := |"schedule-instance-"|;
    assert InstanceName(a)[prefix..] == PrintUuid(a) && InstanceName(b)[prefix..] == PrintUuid(b);
  }

  /** The table after one due template was processed. */
  function Processed(rows: R.Table, c: Cron, id: RunId, now: Instant, allowed: bool, newId: RunId): R.Table
    requires id in rows && IsTemplate(rows[id]) && newId !in rows
  {
    var t := TemplateOf(rows[id]);
    match TickOutcome(c, t, now, allowed)
    case RateLimited => rows
    case Fired(slot) =>
      var fired := R.Execute(rows, now, R.CreateInstance(id, newId, InstanceName(newId), slot));
      fired[id := TickedRow(c, rows[id], now, allowed)]
    case _ => rows[id := TickedRow(c, rows[id], now, allowed)]
  }

  /** One pass of the loop. A row without an expression is passed over. */
  function Visited(rows: R.Table, parse: Parser, id: RunId, now: Instant, allowed: bool, newId: RunId): R.Table {
    if id in rows && IsTemplate(rows[id]) && CronOf(parse, rows[id]).Some? && newId !in rows
    then Processed(rows, CronOf(parse, rows[id]).value, id, now, allowed, newId) else rows
  }

  /** What find_due_schedules returns: scheduled rows that are due, earliest first, and no row that was
      left out is earlier than one that was returned. */
  predicate DueBatch(rows: R.Table, now: Instant, limit: nat, batch: seq<RunId>) {
    && |batch| <= limit
    && (forall i, j :: 0 <= i < j < |batch| ==> batch[i] != batch[j])
    && (forall i :: 0 <= i < |batch| ==>
          batch[i] in rows && IsScheduleRow(rows[batch[i]])
          && rows[batch[i]].status.Scheduled? && rows[batch[i]].availableAt.value <= now)
    && (forall i, j :: 0 <= i < j < |batch| ==>
          rows[batch[i]].availableAt.value <= rows[batch[j]].availableAt.value)
    && (forall id :: id in rows && rows[id].status.Scheduled? && R.Due(rows[id], now) && id !in batch ==>
          |batch| == limit && forall i :: 0 <= i < |batch| ==>
            rows[batch[i]].availableAt.value <= rows[id].availableAt.value)
  }

  predicate FreshFor(rows: R.Table, ids: seq<RunId>) {
    && (forall i, j :: 0 <= i < j < |ids| ==> ids[i] != ids[j])
    && forall i :: 0 <= i < |ids| ==> ids[i] !in rows
  }

  /** How one processed template shows in the table. */
  ghost predicate Shows(before: R.Table, after: R.Table, c: Cron, id: RunId, now: Instant, allowed: bool, newId: RunId)
    requires id in before && IsTemplate(before[id])
  {
    var outcome := TickOutcome(c, TemplateOf(before[id]), now, allowed);
    && id in after && after[id] == TickedRow(c, before[id], now, allowed)
    && (newId in after <==> outcome.Fired? && !R.SlotTaken(before, id, outcome.slot))
    && (newId in after ==> after[newId] == InstanceOf(before[id], id, newId, now))
  }

  function InstanceOf(template: R.Run, id: RunId, newId: RunId, now: Instant): R.Run
    requires IsTemplate(template)
  {
    R.InstanceRow(template, id, InstanceName(newId), template.availableAt.value, now)
  }

  /** What one tick works on: the rows the query returned, the limiter's answers, the new identifiers. */
  datatype Batch = Batch(ids: seq<RunId>, permits: seq<bool>, newIds: seq<RunId>)

  ghost predicate ValidBatch(rows: R.Table, now: Instant, limit: nat, b: Batch) {
    && DueBatch(rows, now, limit, b.ids)
    && |b.permits| == |b.newIds| == |b.ids|
    && FreshFor(rows, b.newIds)
  }

  /** None of the due schedules is itself a row of another schedule. */
  ghost predicate PlainBatch(rows: R.Table, now: Instant, limit: nat, b: Batch) {
    ValidBatch(rows, now, limit, b) && forall i :: 0 <= i < |b.ids| ==> rows[b.ids[i]].scheduleId.None?
  }

  /** The table before the first pass and after each pass of the loop. */
  ghost predicate Stages(tables: seq<R.Table>, parse: Parser, now: Instant, b: Batch)
    requires |b.permits| == |b.newIds| == |b.ids|
  {
    && 1 <= |tables| <= |b.ids| + 1
    && forall i :: 0 <= i < |tables| - 1 ==> StageFollows(tables[i], tables[i + 1], parse, now, b, i)
  }

  ghost predicate StageFollows(rows: R.Table, rows': R.Table, parse: Parser, now: Instant, b: Batch, i: nat)
    requires |b.permits| == |b.newIds| == |b.ids| && i < |b.ids|
  {
    rows' == Visited(rows, parse, b.ids[i], now, b.permits[i], b.newIds[i])
  }

  lemma OneMoreStage(tables: seq<R.Table>, rows: R.Table, parse: Parser, now: Instant, b: Batch)
    requires |b.permits| == |b.newIds| == |b.ids| && Stages(tables, parse, now, b) && |tables| <= |b.ids|
    requires StageFollows(tables[|tables| - 1], rows, parse, now, b, |tables| - 1)
    ensures Stages(tables + [rows], parse, now, b)
  {
  }

  /** A row without a cron expression is passed over; any other shows its tick. */
  ghost predicate ShowsItem(before: R.Table, after: R.Table, parse: Parser, now: Instant, b: Batch, i: nat)
    requires |b.permits| == |b.newIds| == |b.ids| && i < |b.ids|
  {
    && b.ids[i] in before && IsScheduleRow(before[b.ids[i]])
    && if before[b.ids[i]].cronExpr.None? then
         b.ids[i] in after && after[b.ids[i]] == before[b.ids[i]] && b.newIds[i] !in after
       else
         && CronOf(parse, before[b.ids[i]]).Some?
         && Shows(before, after, CronOf(parse, before[b.ids[i]]).value, b.ids[i], now, b.permits[i], b.newIds[i])
  }

  /** The table after the first n templates of the batch: each of them shows its own tick, every other
      row is as before, and nothing else was added. */
  ghost predicate ProcessedUpTo(before: R.Table, after: R.Table, parse: Parser, now: Instant, b: Batch, n: nat)
    requires |b.permits| == |b.newIds| == |b.ids| && n <= |b.ids|
  {
    && (forall i :: 0 <= i < n ==> ShowsItem(before, after, parse, now, b, i))
    && (forall id :: id in before && id !in b.ids[..n] ==> id in after && after[id] == before[id])
    && (forall id :: id in after ==> id in before || id in b.newIds[..n])
  }

  lemma NewRowsAreInstances(before: R.Table, after: R.Table, parse: Parser, now: Instant, b: Batch, n: nat, id: RunId)
    returns (k: nat)
    requires |b.permits| == |b.newIds| == |b.ids| && n <= |b.ids|
    requires ProcessedUpTo(before, after, parse, now, b, n) && id in after && id !in before
    ensures k < n && after[id].scheduleId == Some(b.ids[k])
  {
    k :| 0 <= k < n && b.newIds[..n][k] == id;
    assert b.newIds[k] == id && ShowsItem(before, after, parse, now, b, k);
  }

  /** No row of the table after n templates has the slot columns of the next template unless it had
      them before. */
  lemma SlotColumnsStill(before: R.Table, after: R.Table, parse: Parser, now: Instant, limit: nat, b: Batch, n: nat,
                         id: RunId)
    requires PlainBatch(before, now, limit, b) && n < |b.ids|
    requires ProcessedUpTo(before, after, parse, now, b, n)
    requires id in after && after[id].scheduleId == Some(b.ids[n])
    ensures id in before && before[id] == after[id]
  {
    if id !in before {
      var k := NewRowsAreInstances(before, after, parse, now, b, n, id);
      assert false;
    } else if id in b.ids[..n] {
      var k :| 0 <= k < n && b.ids[..n][k] == id;
      assert b.ids[k] == id && ShowsItem(before, after, parse, now, b, k);
    }
  }

  /** Processing the earlier templates of a batch does not take or free a slot of the next one. */
  lemma SlotTakenStill(before: R.Table, after: R.Table, parse: Parser, now: Instant, limit: nat, b: Batch, n: nat,
                       slot: Instant)
    requires PlainBatch(before, now, limit, b) && n < |b.ids|
    requires ProcessedUpTo(before, after, parse, now, b, n)
    ensures R.SlotTaken(after, b.ids[n], slot) <==> R.SlotTaken(before, b.ids[n], slot)
  {
    if R.SlotTaken(after, b.ids[n], slot) {
      var id :| id in after && after[id].scheduleId == Some(b.ids[n]) && after[id].availableAt == Some(slot);
      SlotColumnsStill(before, after, parse, now, limit, b, n, id);
    }
    if R.SlotTaken(before, b.ids[n], slot) {
      var id :| id in before && before[id].scheduleId == Some(b.ids[n]) && before[id].availableAt == Some(slot);
      assert id !in b.ids[..n] && id in after && after[id] == before[id];
    }
  }

  lemma NextIsUntouched(before: R.Table, after: R.Table, parse: Parser, now: Instant, limit: nat, b: Batch, n: nat)
    requires PlainBatch(before, now, limit, b) && n < |b.ids|
    requires ProcessedUpTo(before, after, parse, now, b, n)
    ensures b.ids[n] in after && after[b.ids[n]] == before[b.ids[n]] && b.newIds[n] !in after
  {
    assert b.ids[n] !in b.ids[..n];
    assert b.newIds[n] !in b.newIds[..n];
  }

  /** Processing touches the template's row and possibly adds the new one. */
  lemma ProcessedFrame(rows: R.Table, c: Cron, id: RunId, now: Instant, allowed: bool, newId: RunId)
    requires id in rows && IsTemplate(rows[id]) && newId !in rows
    ensures var rows' := Processed(rows, c, id, now, allowed, newId);
            && Shows(rows, rows', c, id, now, allowed, newId)
            && (forall other :: other in rows && other != id ==> other in rows' && rows'[other] == rows[other])
            && (forall other :: other in rows' ==> other in rows || other == newId)
  {
  }

  /** A slot that fires enters the template's own queue: a poll for its type, in its namespace and queue,
      finds the instance at once, and one at least hands out some run. */
  lemma InstanceCanBePolled(rows: R.Table, c: Cron, id: RunId, now: Instant, allowed: bool, newId: RunId)
    requires id in rows && IsTemplate(rows[id]) && newId !in rows && rows[id].availableAt.value <= now
    requires newId in Processed(rows, c, id, now, allowed, newId)
    ensures var rows' := Processed(rows, c, id, now, allowed, newId);
            && R.CopyOf(rows[id], rows'[newId])
            && R.Eligible(rows'[newId], QueueOf(rows[id]), now)
            && exists first :: R.FirstAvailable(rows', QueueOf(rows[id]), now, first)
  {
    var rows' := Processed(rows, c, id, now, allowed, newId);
    assert R.Eligible(rows'[newId], QueueOf(rows[id]), now);
    R.FirstAvailableExists(rows', QueueOf(rows[id]), now);
  }

  lemma ProcessNext(before: R.Table, after: R.Table, parse: Parser, c: Cron, now: Instant, limit: nat, b: Batch, n: nat)
    requires PlainBatch(before, now, limit, b) && n < |b.ids|
    requires ProcessedUpTo(before, after, parse, now, b, n)
    requires CronOf(parse, before[b.ids[n]]) == Some(c)
    ensures b.ids[n] in after && IsTemplate(after[b.ids[n]]) && b.newIds[n] !in after
    ensures ProcessedUpTo(before, Processed(after, c, b.ids[n], now, b.permits[n], b.newIds[n]), parse, now, b, n + 1)
  {
    NextIsUntouched(before, after, parse, now, limit, b, n);
    var after' := Processed(after, c, b.ids[n], now, b.permits[n], b.newIds[n]);
    ProcessedFrame(after, c, b.ids[n], now, b.permits[n], b.newIds[n]);
    assert ShowsItem(before, after', parse, now, b, n) by {
      SlotTakenStill(before, after, parse, now, limit, b, n, before[b.ids[n]].availableAt.value);
    }
    ItemsStay(before, after, after', parse, now, limit, b, n);
    Extend(before, after, after', parse, now, b, n);
  }

  /** A row without a cron expression stays, and nothing is added for it. */
  lemma PassNext(before: R.Table, after: R.Table, parse: Parser, now: Instant, limit: nat, b: Batch, n: nat)
    requires PlainBatch(before, now, limit, b) && n < |b.ids|
    requires ProcessedUpTo(before, after, parse, now, b, n) && before[b.ids[n]].cronExpr.None?
    ensures ProcessedUpTo(before, after, parse, now, b, n + 1)
  {
    NextIsUntouched(before, after, parse, now, limit, b, n);
    Extend(before, after, after, parse, now, b, n);
  }

  lemma Extend(before: R.Table, after: R.Table, after': R.Table, parse: Parser, now: Instant, b: Batch, n: nat)
    requires |b.permits| == |b.newIds| == |b.ids| && n < |b.ids|
    requires ProcessedUpTo(before, after, parse, now, b, n)
    requires forall i :: 0 <= i < n ==> ShowsItem(before, after', parse, now, b, i)
    requires ShowsItem(before, after', parse, now, b, n)
    requires forall other :: other in after && other != b.ids[n] ==> other in after' && after'[other] == after[other]
    requires forall other :: other in after' ==> other in after || other == b.newIds[n]
    ensures ProcessedUpTo(before, after', parse, now, b, n + 1)
  {
    ExtendRows(before, after, after', b.ids, b.newIds, n);
  }

  /** The frame of one more row: nothing but the processed rows changes, nothing but new rows is added. */
  lemma ExtendRows(before: R.Table, after: R.Table, after': R.Table, ids: seq<RunId>, newIds: seq<RunId>, n: nat)
    requires n < |ids| && n < |newIds|
    requires forall id :: id in before && id !in ids[..n] ==> id in after && after[id] == before[id]
    requires forall id :: id in after ==> id in before || id in newIds[..n]
    requires forall id :: id in after && id != ids[n] ==> id in after' && after'[id] == after[id]
    requires forall id :: id in after' ==> id in after || id == newIds[n]
    ensures forall id :: id in before && id !in ids[..n + 1] ==> id in after' && after'[id] == before[id]
    ensures forall id :: id in after' ==> id in before || id in newIds[..n + 1]
  {
    assert ids[..n + 1] == ids[..n] + [ids[n]];
    assert newIds[..n + 1] == newIds[..n] + [newIds[n]];
  }

  lemma ItemsStay(before: R.Table, after: R.Table, after': R.Table, parse: Parser, now: Instant, limit: nat, b: Batch,
                  n: nat)
    requires PlainBatch(before, now, limit, b) && n < |b.ids|
    requires ProcessedUpTo(before, after, parse, now, b, n)
    requires forall other :: other in after && other != b.ids[n] ==> other in after' && after'[other] == after[other]
    requires forall other :: other in after' ==> other in after || other == b.newIds[n]
    ensures forall i :: 0 <= i < n ==> ShowsItem(before, after', parse, now, b, i)
  {
    forall i | 0 <= i < n ensures ShowsItem(before, after', parse, now, b, i) {
      assert ShowsItem(before, after, parse, now, b, i);
      assert b.ids[i] != b.ids[n] && b.newIds[i] != b.newIds[n] && b.newIds[i] != b.ids[n];
    }
  }

  /** The passes of one tick do not get in each other's way: every due template shows its own tick, every
      other row is as before, and nothing else was added. */
  lemma {:induction false} EachShowsItsTick(
    tables: seq<R.Table>, parse: Parser, now: Instant, limit: nat, b: Batch, n: nat)
    requires tables != [] && PlainBatch(tables[0], now, limit, b)
    requires Stages(tables, parse, now, b) && n < |tables|
    requires n <= |b.ids| && ReadableUpTo(parse, tables[0], b, n)
    ensures ProcessedUpTo(tables[0], tables[n], parse, now, b, n)
  {
    if n == 0 {
      NothingProcessed(tables[0], parse, now, b);
    } else {
      EachShowsItsTick(tables, parse, now, limit, b, n - 1);
      assert StageFollows(tables[n - 1], tables[n], parse, now, b, n - 1);
      VisitNext(tables[0], tables[n - 1], parse, now, limit, b, n - 1, tables[n]);
    }
  }

  /** A row that is not SCHEDULED, or whose time has not come, is left alone by the whole tick. */
  lemma {:induction false} OnlyDueSchedulesMove(
    tables: seq<R.Table>, parse: Parser, now: Instant, limit: nat, b: Batch, n: nat, id: RunId)
    requires tables != [] && ValidBatch(tables[0], now, limit, b) && Stages(tables, parse, now, b) && n < |tables|
    requires id in tables[0]
    requires !tables[0][id].status.Scheduled? || tables[0][id].availableAt.None?
             || tables[0][id].availableAt.value > now
    ensures id in tables[n] && tables[n][id] == tables[0][id]
  {
    if n > 0 {
      OnlyDueSchedulesMove(tables, parse, now, limit, b, n - 1, id);
      assert StageFollows(tables[n - 1], tables[n], parse, now, b, n - 1);
      assert b.ids[n - 1] != id && b.newIds[n - 1] != id;
    }
  }

  /** If no more schedules are due than a tick may take, it visits all of them. */
  lemma EveryDueScheduleIsVisited(rows: R.Table, now: Instant, limit: nat, batch: seq<RunId>, due: set<RunId>)
    requires DueBatch(rows, now, limit, batch) && |due| <= limit
    requires due == set id | id in rows && rows[id].status.Scheduled? && rows[id].availableAt.Some? &&
                             rows[id].availableAt.value <= now
    ensures forall id :: id in batch <==> id in due
  {
    DistinctSize(batch);
    if id :| id in due && id !in batch {
      SubsetSize(Elements(batch) + {id}, due);
    }
  }

  function Elements(ids: seq<RunId>): set<RunId> {
    set id | id in ids
  }

  lemma {:induction false} DistinctSize(ids: seq<RunId>)
    requires forall i, j :: 0 <= i < j < |ids| ==> ids[i] != ids[j]
    ensures |Elements(ids)| == |ids|
  {
    if ids == [] {
      assert Elements(ids) == {};
    } else {
      var n := |ids| - 1;
      DistinctSize(ids[..n]);
      assert ids == ids[..n] + [ids[n]];
      assert Elements(ids) == Elements(ids[..n]) + {ids[n]};
      assert ids[n] !in Elements(ids[..n]);
    }
  }

  lemma NothingProcessed(rows: R.Table, parse: Parser, now: Instant, b: Batch)
    requires |b.permits| == |b.newIds| == |b.ids|
    ensures ProcessedUpTo(rows, rows, parse, now, b, 0)
  {
  }

  lemma VisitNext(before: R.Table, after: R.Table, parse: Parser, now: Instant, limit: nat, b: Batch, n: nat,
                  after': R.Table)
    requires PlainBatch(before, now, limit, b) && n < |b.ids| && !Unreadable(parse, before, b.ids[n])
    requires ProcessedUpTo(before, after, parse, now, b, n)
    requires StageFollows(after, after', parse, now, b, n)
    ensures ProcessedUpTo(before, after', parse, now, b, n + 1)
  {
    NextIsUntouched(before, after, parse, now, limit, b, n);
    if before[b.ids[n]].cronExpr.None? {
      PassNext(before, after, parse, now, limit, b, n);
    } else {
      ProcessNext(before, after, parse, CronOf(parse, before[b.ids[n]]).value, now, limit, b, n);
    }
  }

  /** A pass leaves the rows and the identifiers of the later passes alone. */
  predicate StillToVisit(before: R.Table, rows: R.Table, b: Batch, n: nat)
    requires |b.newIds| == |b.ids|
  {
    forall i :: n <= i < |b.ids| ==>
      b.ids[i] in before && b.ids[i] in rows && rows[b.ids[i]] == before[b.ids[i]] && b.newIds[i] !in rows
  }

  lemma VisitLeavesOthers(
    before: R.Table, rows: R.Table, parse: Parser, now: Instant, limit: nat, b: Batch, n: nat)
    requires ValidBatch(before, now, limit, b) && n < |b.ids| && StillToVisit(before, rows, b, n)
    ensures var rows' := Visited(rows, parse, b.ids[n], now, b.permits[n], b.newIds[n]);
            && StillToVisit(before, rows', b, n + 1)
            && Created(rows', b.newIds[..n + 1]) ==
               Created(rows, b.newIds[..n]) + if b.newIds[n] in rows' then 1 else 0
  {
    var rows' := Visited(rows, parse, b.ids[n], now, b.permits[n], b.newIds[n]);
    assert forall other :: other in rows && other != b.ids[n] ==> other in rows' && rows'[other] == rows[other];
    assert forall other :: other in rows' ==> other in rows || other == b.newIds[n];
    forall i | n + 1 <= i < |b.ids|
      ensures b.ids[i] in rows' && rows'[b.ids[i]] == before[b.ids[i]] && b.newIds[i] !in rows'
    {
      assert b.ids[i] != b.ids[n] && b.newIds[i] != b.newIds[n];
    }
    forall i | 0 <= i < n ensures b.newIds[i] in rows <==> b.newIds[i] in rows' {
      assert b.newIds[i] != b.newIds[n] && b.ids[n] in before && b.newIds[i] !in before;
    }
    CreatedNext(rows, rows', b.newIds, n);
  }

  /** How many of the identifiers were used. */
  function Created(rows: R.Table, ids: seq<RunId>): nat {
    if ids == [] then 0
    else Created(rows, ids[..|ids| - 1]) + if ids[|ids| - 1] in rows then 1 else 0
  }

  lemma {:induction false} CreatedSame(before: R.Table, after: R.Table, ids: seq<RunId>)
    requires forall id :: id in ids ==> (id in before <==> id in after)
    ensures Created(before, ids) == Created(after, ids)
  {
    if ids != [] {
      CreatedSame(before, after, ids[..|ids| - 1]);
    }
  }

  lemma CreatedNext(before: R.Table, after: R.Table, ids: seq<RunId>, n: nat)
    requires n < |ids| && (forall i :: 0 <= i < n ==> (ids[i] in before <==> ids[i] in after))
    ensures Created(after, ids[..n + 1]) == Created(before, ids[..n]) + if ids[n] in after then 1 else 0
  {
    CreatedSame(before, after, ids[..n]);
    assert ids[..n + 1][..n] == ids[..n];
  }

  /** The row has a cron expression that the library refuses. */
  predicate Unreadable(parse: Parser, rows: R.Table, id: RunId) {
    id in rows && rows[id].cronExpr.Some? && parse(rows[id].cronExpr.value).None?
  }

  ghost predicate ReadableUpTo(parse: Parser, rows: R.Table, b: Batch, n: nat)
    requires n <= |b.ids|
  {
    forall i :: 0 <= i < n ==> !Unreadable(parse, rows, b.ids[i])
  }

  class Coordinator {
    const runs: RunRepository
    const parse: Parser

    constructor (runs: RunRepository, parse: Parser)
      ensures this.runs == runs && this.parse == parse
    {
      this.runs := runs;
      this.parse := parse;
    }

    /** One iteration of the loop. */
    method Process(id: RunId, c: Cron, now: Instant, allowed: bool, newId: RunId) returns (fired: bool)
      requires id in runs.rows && IsTemplate(runs.rows[id]) && newId !in runs.rows
      modifies runs`rows
      ensures runs.rows == Processed(old(runs.rows), c, id, now, allowed, newId)
      ensures fired <==> newId in runs.rows
      ensures fired ==>
                && R.CopyOf(old(runs.rows)[id], runs.rows[newId])
                && runs.rows[newId].status.Pending? && runs.rows[newId].attempts == 0
                && runs.rows[newId].availableAt == old(runs.rows)[id].availableAt
                && runs.rows[newId].scheduleId == Some(id) && runs.rows[newId].cronExpr.None?
      ensures old(runs.rows)[id].availableAt.value <= now ==>
                (fired ==> R.Eligible(runs.rows[newId], QueueOf(old(runs.rows)[id]), now))
    {
      var template := runs.rows[id];
      var currentFireAt := template.availableAt.value;
      if template.maxCatchup == 0 {
        runs.UpdateNextFire(id, After(c, now), Some(now), now);
        return false;
      }
      var cursor := template.lastFiredAt.Or(template.createdAt).GetOr(currentFireAt);
      var missedCount := |TakeUpTo(c, cursor, now)|;
      if missedCount > Limit(template.maxCatchup) {
        var skipTo := Nth(c, cursor, missedCount - Limit(template.maxCatchup));
        runs.UpdateNextFire(id, skipTo, Some(now), now);
        return false;
      }
      if !allowed {
        return false;
      }
      var created := runs.CreateScheduleInstance(id, currentFireAt, newId, InstanceName(newId), now);
      var nextFire := After(c, currentFireAt);
      runs.UpdateNextFire(id, nextFire, Some(currentFireAt), now);
      return created.Some?;
    }

    /** A row without an expression is passed over. An expression that does not parse ends the tick: the
        templates after it wait for the next one. */
    method FireDueSchedules(limit: nat, b: Batch, now: Instant)
      returns (reply: Result<nat>, processed: nat, ghost tables: seq<R.Table>)
      requires ValidBatch(runs.rows, now, limit, b)
      modifies runs`rows
      ensures Stages(tables, parse, now, b) && |tables| == processed + 1
      ensures tables[0] == old(runs.rows) && tables[processed] == runs.rows
      ensures ReadableUpTo(parse, old(runs.rows), b, processed)
      ensures if processed == |b.ids| then reply == Ok(Created(runs.rows, b.newIds))
              else reply == Err(InvalidState) && Unreadable(parse, old(runs.rows), b.ids[processed])
    {
      ghost var before := runs.rows;
      var fired := 0;
      processed, tables := 0, [before];
      while processed < |b.ids|
        invariant 0 <= processed <= |b.ids|
        invariant Stages(tables, parse, now, b) && |tables| == processed + 1
        invariant tables[0] == before && tables[processed] == runs.rows
        invariant StillToVisit(before, runs.rows, b, processed)
        invariant ReadableUpTo(parse, before, b, processed)
        invariant fired == Created(runs.rows, b.newIds[..processed])
      {
        if Unreadable(parse, runs.rows, b.ids[processed]) {
          return Err(InvalidState), processed, tables;
        }
        var wasFired := Visit(before, limit, b, processed, now);
        fired := if wasFired then fired + 1 else fired;
        OneMoreStage(tables, runs.rows, parse, now, b);
        tables := tables + [runs.rows];
        processed := processed + 1;
      }
      assert b.newIds[..processed] == b.newIds;
      return Ok(fired), processed, tables;
    }

    /** One pass of the loop over a readable row. */
    method Visit(ghost before: R.Table, ghost limit: nat, b: Batch, n: nat, now: Instant) returns (fired: bool)
      requires ValidBatch(before, now, limit, b) && n < |b.ids| && StillToVisit(before, runs.rows, b, n)
      requires !Unreadable(parse, runs.rows, b.ids[n])
      modifies runs`rows
      ensures StageFollows(old(runs.rows), runs.rows, parse, now, b, n) && StillToVisit(before, runs.rows, b, n + 1)
      ensures Created(runs.rows, b.newIds[..n + 1]) == Created(old(runs.rows), b.newIds[..n]) + if fired then 1 else 0
    {
      VisitLeavesOthers(before, runs.rows, parse, now, limit, b, n);
      var id := b.ids[n];
      if runs.rows[id].cronExpr.None? {
        return false;
      }
      fired := Process(id, parse(runs.rows[id].cronExpr.value).value, now, b.permits[n], b.newIds[n]);
    }
  }

  /** The other half of the coordinator's round: `mark_stale_workers`. */
  method MarkStaleWorkers(workers: W.WorkerRepository, thresholdSecs: int, now: Instant)
    modifies workers
    ensures workers.workers.Keys == old(workers.workers).Keys
    ensures forall id :: id in workers.workers ==>
              (workers.workers[id].status.Offline? <==>
               old(workers.workers)[id].status.Offline? || W.Stale(old(workers.workers)[id], thresholdSecs, now))
  {
    var _ := workers.MarkStaleOffline(thresholdSecs, now);
  }

  // ----- Stopping between creating the instance and advancing the template -----

  /** The instance still waits where it was created, so the unique index still knows its slot. */
  ghost predicate InstanceUnclaimed(rows: R.Table, instance: RunId, template: RunId, slot: Instant) {
    && instance in rows
    && rows[instance].status.Pending?
    && rows[instance].cronExpr.None?
    && rows[instance].scheduleId == Some(template)
    && rows[instance].availableAt == Some(slot)
  }

  predicate Touches(e: L.Event, instance: RunId) {
    e.Statement? && ((e.op.Poll? && e.op.chosen == Some(instance)) || (e.op.Cancel? && e.op.id == instance))
  }

  /** Nothing but a claim or a cancellation moves a waiting instance off its slot. */
  lemma {:induction false} InstanceStays(
    config: L.Config, s: L.Store, es: seq<L.Event>, instance: RunId, template: RunId, slot: Instant)
    requires R.TableInvariant(s.runs) && L.Legal(config, s, es)
    requires InstanceUnclaimed(s.runs, instance, template, slot)
    requires forall i :: 0 <= i < |es| ==> !Touches(es[i], instance)
    ensures InstanceUnclaimed(L.Final(config, s, es).runs, instance, template, slot)
    decreases |es|
  {
    if es != [] {
      assert !Touches(es[0], instance);
      assert R.RowInvariant(s.runs[instance]);
      L.EventKeepsInvariant(config, s, es[0]);
      assert forall i :: 0 <= i < |es[1..]| ==> es[1..][i] == es[i + 1];
      InstanceStays(config, L.Apply(config, s, es[0]), es[1..], instance, template, slot);
    }
  }

  /** The coordinator created an instance for the due slot and stopped. Whatever happens until the tick
      is run again, if it fires then it creates a second instance exactly when no row of the schedule
      still stands on the slot, and the template advances as the uninterrupted tick would have. */
  lemma CrashBeforeAdvance(
    config: L.Config, s: L.Store, es: seq<L.Event>, c: Cron, id: RunId, first: RunId, second: RunId, allowed: bool)
    requires R.TableInvariant(s.runs) && id in s.runs && IsTemplate(s.runs[id]) && first !in s.runs
    requires TickOutcome(c, TemplateOf(s.runs[id]), s.now, true).Fired?
    requires var create := L.Statement(R.CreateInstance(id, first, InstanceName(first), s.runs[id].availableAt.value));
             var crashed := L.Apply(config, s, create);
             && !R.SlotTaken(s.runs, id, s.runs[id].availableAt.value)
             && L.Legal(config, crashed, es)
             && var later := L.Final(config, crashed, es);
                && id in later.runs && later.runs[id] == s.runs[id] && second !in later.runs
                && TickOutcome(c, TemplateOf(later.runs[id]), later.now, allowed).Fired?
    ensures var slot := s.runs[id].availableAt.value;
            var create := L.Statement(R.CreateInstance(id, first, InstanceName(first), slot));
            var later := L.Final(config, L.Apply(config, s, create), es);
            var rerun := Processed(later.runs, c, id, later.now, allowed, second);
            && (second in rerun <==> !R.SlotTaken(later.runs, id, slot))
            && ((forall i :: 0 <= i < |es| ==> !Touches(es[i], first)) ==> second !in rerun)
            && rerun[id] == Processed(s.runs, c, id, s.now, true, first)[id]
  {
    var slot := s.runs[id].availableAt.value;
    var create := L.Statement(R.CreateInstance(id, first, InstanceName(first), slot));
    var crashed := L.Apply(config, s, create);
    L.EventKeepsInvariant(config, s, create);
    if forall i :: 0 <= i < |es| ==> !Touches(es[i], first) {
      InstanceStays(config, crashed, es, first, id, slot);
    }
  }

  /** Claiming the instance in between moves it off its slot, and the repeated tick fires the slot again. */
  lemma ClaimedInstanceIsDuplicated(rows: R.Table, id: RunId, first: RunId, second: RunId, worker: WorkerId,
                                    visibilitySecs: int, now: Instant, c: Cron)
    requires id in rows && IsTemplate(rows[id]) && first !in rows && second !in rows && first != second
    requires rows[id].availableAt.value <= now && visibilitySecs > 0
    requires TickOutcome(c, TemplateOf(rows[id]), now, true).Fired?
    requires !R.SlotTaken(rows, id, rows[id].availableAt.value)
    ensures var slot := rows[id].availableAt.value;
            var crashed := R.Execute(rows, now, R.CreateInstance(id, first, InstanceName(first), slot));
            var claimed := crashed[first := R.Claimed(crashed[first], worker, visibilitySecs, now)];
            var rerun := Processed(claimed, c, id, now, true, second);
            && first in rerun && second in rerun
            && rerun[first].scheduleId == rerun[second].scheduleId == Some(id)
            && rerun[second].availableAt == Some(slot)
  {
    var slot := rows[id].availableAt.value;
    var crashed := R.Execute(rows, now, R.CreateInstance(id, first, InstanceName(first), slot));
    var claimed := crashed[first := R.Claimed(crashed[first], worker, visibilitySecs, now)];
    forall other | other in claimed
      ensures !(claimed[other].scheduleId == Some(id) && claimed[other].availableAt == Some(slot))
    {
      assert other == first || (other in rows && rows[other] == claimed[other]);
    }
  }
}
