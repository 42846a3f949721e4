/** The catch-up history of one schedule on the tables: which of the slots that its ticks asked for got a
    run, whatever other workers, clients and schedules do in between. */
module Instances {
  import opened Basics
  import opened CronSlots
  import opened Catchup
  import opened Coordinators
  import R = Runs
  import L = Leases

  /** A tick that comes to this template, or anything else that happens in the store. */
  datatype Moment = Visit(allowed: bool, newId: RunId) | Other(e: L.Event)

  /** A slot that a tick asked for, and the run created for it, if the insert was not dropped. */
  datatype Asked = Asked(slot: Instant, run: Option<RunId>)

  /** The store, the history that the template's own columns tell, and what became of each slot. */
  datatype Ledger = Ledger(store: L.Store, world: World, asked: seq<Asked>)

  /** Writes of the template's times, and instances of it, come from its own visits only. */
  predicate Foreign(e: L.Event, id: RunId) {
    e.Statement? ==>
      match e.op
      case CreateInstance(template, _, _, _) => template != id
      case UpdateNextFire(i, _, _) => i != id
      case UpdateColumns(i, columns) => i != id && columns.scheduleId != Some(id)
      case Create(_, params) => params.scheduleId != Some(id)
      case _ => true
  }

  predicate Possible(l: Ledger, id: RunId, m: Moment) {
    match m
    case Visit(_, newId) => newId !in l.store.runs
    case Other(e) => L.Enabled(l.store, e) && Foreign(e, id)
  }

  /** The columns of the template tell the history, and the clocks agree. */
  predicate InStep(l: Ledger, id: RunId) {
    && id in l.store.runs && IsTemplate(l.store.runs[id])
    && TemplateOf(l.store.runs[id]) == l.world.template
    && l.store.now == l.world.now
  }

  function Next(config: L.Config, l: Ledger, id: RunId, m: Moment): Ledger
    requires InStep(l, id) && Possible(l, id, m)
  {
    match m
    case Other(e) =>
      Ledger(L.Apply(config, l.store, e), if e.Tick? then Apply(l.world, Wait(e.micros)) else l.world, l.asked)
    case Visit(allowed, newId) =>
      if !Processes(l.world) then l
      else
        var outcome := TickOutcome(l.world.cron, l.world.template, l.world.now, allowed);
        Ledger(l.store.(runs := Processed(l.store.runs, l.world.cron, id, l.store.now, allowed, newId)),
               Apply(l.world, CoordinatorTick(allowed)),
               if outcome.Fired?
               then l.asked + [Asked(outcome.slot,
                                     if R.SlotTaken(l.store.runs, id, outcome.slot) then None else Some(newId))]
               else l.asked)
  }

  /** The event of the template's own history. */
  function Told(m: Moment): seq<Event> {
    match m
    case Visit(allowed, _) => [CoordinatorTick(allowed)]
    case Other(e) => if e.Tick? then [Wait(e.micros)] else []
  }

  function AllTold(ms: seq<Moment>): seq<Event> {
    if ms == [] then [] else Told(ms[0]) + AllTold(ms[1..])
  }

  lemma NextInStep(config: L.Config, l: Ledger, id: RunId, m: Moment)
    requires InStep(l, id) && Possible(l, id, m)
    ensures InStep(Next(config, l, id, m), id)
    ensures Next(config, l, id, m).world ==
            if Told(m) == [] then l.world else Apply(l.world, Told(m)[0])
    ensures Next(config, l, id, m).world.cron == l.world.cron
    ensures Next(config, l, id, m).world.template.maxCatchup == l.world.template.maxCatchup
  {
  }

  predicate Runs(config: L.Config, l: Ledger, id: RunId, ms: seq<Moment>)
    requires InStep(l, id)
    decreases |ms|
  {
    ms != [] ==>
      && Possible(l, id, ms[0])
      && (NextInStep(config, l, id, ms[0]); Runs(config, Next(config, l, id, ms[0]), id, ms[1..]))
  }

  function After(config: L.Config, l: Ledger, id: RunId, ms: seq<Moment>): (r: Ledger)
    requires InStep(l, id) && Runs(config, l, id, ms)
    ensures InStep(r, id)
    decreases |ms|
  {
    if ms == [] then l
    else
      NextInStep(config, l, id, ms[0]);
      After(config, Next(config, l, id, ms[0]), id, ms[1..])
  }

  // ----- The tables tell a history of Catchup -----

  lemma {:induction false} ToldOnlyTicks(ms: seq<Moment>)
    ensures OnlyTicks(AllTold(ms)) && ValidEvents(AllTold(ms))
  {
    if ms != [] {
      ToldOnlyTicks(ms[1..]);
    }
  }

  /** So its theorems about slots hold of the template on the tables. */
  lemma {:induction false} TablesTellHistory(config: L.Config, l: Ledger, id: RunId, ms: seq<Moment>)
    requires InStep(l, id) && Runs(config, l, id, ms) && ValidLimit(l.world.template.maxCatchup)
    ensures ValidEvents(AllTold(ms))
    ensures After(config, l, id, ms).world == Final(l.world, AllTold(ms))
    decreases |ms|
  {
    ToldOnlyTicks(ms);
    if ms != [] {
      NextInStep(config, l, id, ms[0]);
      TablesTellHistory(config, Next(config, l, id, ms[0]), id, ms[1..]);
      if Told(ms[0]) != [] {
        assert AllTold(ms)[0] == Told(ms[0])[0] && AllTold(ms)[1..] == AllTold(ms[1..]);
      } else {
        assert AllTold(ms) == AllTold(ms[1..]);
      }
    }
  }

  // ----- What became of the slots -----

  /** The slots asked for are those of the history. A slot has its run, still a run of the schedule,
      exactly if its insert was not dropped, with all that it takes over from the template; no run serves
      two slots; and apart from the rows there were
      at first, the schedule has no other. */
  ghost predicate Kept(l: Ledger, id: RunId, first: set<RunId>) {
    && |l.asked| == |l.world.fired|
    && (forall i :: 0 <= i < |l.asked| ==> l.asked[i].slot == l.world.fired[i])
    && (forall i :: 0 <= i < |l.asked| && l.asked[i].run.Some? ==> IsRunOf(l.store.runs, id, l.asked[i].run.value))
    && (forall i, j :: 0 <= i < j < |l.asked| && l.asked[i].run.Some? ==> l.asked[i].run != l.asked[j].run)
    && (forall run :: run in l.store.runs && l.store.runs[run].scheduleId == Some(id) ==>
          run in first || exists i :: 0 <= i < |l.asked| && l.asked[i].run == Some(run))
  }

  /** An instance of the schedule: it has the namespace, queue, type, input and policy of the template. */
  predicate IsRunOf(rows: R.Table, id: RunId, run: RunId) {
    && id in rows && run in rows && rows[run].scheduleId == Some(id)
    && rows[run].cronExpr.None? && !rows[run].status.IsScheduleTemplate()
    && R.CopyOf(rows[id], rows[run])
  }

  lemma OtherKeepsRunsOf(config: L.Config, s: L.Store, e: L.Event, id: RunId, run: RunId)
    requires R.TableInvariant(s.runs) && L.Enabled(s, e) && Foreign(e, id)
    ensures IsRunOf(s.runs, id, run) ==> IsRunOf(L.Apply(config, s, e).runs, id, run)
    ensures run in L.Apply(config, s, e).runs && L.Apply(config, s, e).runs[run].scheduleId == Some(id) ==>
              run in s.runs && s.runs[run].scheduleId == Some(id)
  {
    if IsRunOf(s.runs, id, run) {
      L.EventKeepsIdentity(config, s, e, id);
      L.EventKeepsIdentity(config, s, e, run);
    }
  }

  lemma NextKeeps(config: L.Config, l: Ledger, id: RunId, m: Moment, first: set<RunId>)
    requires InStep(l, id) && Possible(l, id, m) && R.TableInvariant(l.store.runs) && Kept(l, id, first)
    ensures R.TableInvariant(Next(config, l, id, m).store.runs) && Kept(Next(config, l, id, m), id, first)
  {
    match m
    case Other(e) =>
      L.EventKeepsInvariant(config, l.store, e);
      OtherKeeps(config, l, id, e, first);
    case Visit(allowed, newId) =>
      if Processes(l.world) {
        VisitKeepsInvariant(l, id, allowed, newId);
        VisitKeeps(config, l, id, allowed, newId, first);
      }
  }

  lemma OtherKeeps(config: L.Config, l: Ledger, id: RunId, e: L.Event, first: set<RunId>)
    requires InStep(l, id) && Possible(l, id, Other(e)) && R.TableInvariant(l.store.runs) && Kept(l, id, first)
    ensures Kept(Next(config, l, id, Other(e)), id, first)
  {
    var l' := Next(config, l, id, Other(e));
    assert l'.asked == l.asked && l'.world.fired == l.world.fired;
    forall i | 0 <= i < |l.asked| && l.asked[i].run.Some?
      ensures IsRunOf(l'.store.runs, id, l.asked[i].run.value)
    {
      OtherKeepsRunsOf(config, l.store, e, id, l.asked[i].run.value);
    }
    forall run | run in l'.store.runs && l'.store.runs[run].scheduleId == Some(id)
      ensures run in l.store.runs && l.store.runs[run].scheduleId == Some(id)
    {
      OtherKeepsRunsOf(config, l.store, e, id, run);
    }
  }

  lemma VisitKeepsInvariant(l: Ledger, id: RunId, allowed: bool, newId: RunId)
    requires InStep(l, id) && newId !in l.store.runs && R.TableInvariant(l.store.runs)
    ensures R.TableInvariant(Processed(l.store.runs, l.world.cron, id, l.store.now, allowed, newId))
  {
    assert R.RowInvariant(l.store.runs[id]);
  }

  /** The rows of the schedule after a visit: as before, and the new one if it fired and was inserted. */
  lemma VisitAddsAtMostOne(l: Ledger, id: RunId, allowed: bool, newId: RunId, run: RunId)
    requires InStep(l, id) && newId !in l.store.runs
    ensures var outcome := TickOutcome(l.world.cron, l.world.template, l.world.now, allowed);
            var rows' := Processed(l.store.runs, l.world.cron, id, l.store.now, allowed, newId);
            && (newId in rows' <==> outcome.Fired? && !R.SlotTaken(l.store.runs, id, outcome.slot))
            && (newId in rows' ==>
                  && IsRunOf(rows', id, newId)
                  && rows'[newId].status.Pending? && rows'[newId].availableAt == Some(outcome.slot))
            && (IsRunOf(l.store.runs, id, run) ==> IsRunOf(rows', id, run))
            && (run in rows' && rows'[run].scheduleId == Some(id) ==>
                  run == newId || (run in l.store.runs && l.store.runs[run].scheduleId == Some(id)))
  {
  }

  lemma VisitKeeps(config: L.Config, l: Ledger, id: RunId, allowed: bool, newId: RunId, first: set<RunId>)
    requires InStep(l, id) && newId !in l.store.runs && Processes(l.world) && Kept(l, id, first)
    ensures Kept(Next(config, l, id, Visit(allowed, newId)), id, first)
  {
    var l' := Next(config, l, id, Visit(allowed, newId));
    var outcome := TickOutcome(l.world.cron, l.world.template, l.world.now, allowed);
    VisitAddsAtMostOne(l, id, allowed, newId, newId);
    forall i | 0 <= i < |l'.asked| && l'.asked[i].run.Some?
      ensures IsRunOf(l'.store.runs, id, l'.asked[i].run.value)
    {
      VisitAddsAtMostOne(l, id, allowed, newId, l'.asked[i].run.value);
    }
    forall run | run in l'.store.runs && l'.store.runs[run].scheduleId == Some(id)
      ensures run in first || exists i :: 0 <= i < |l'.asked| && l'.asked[i].run == Some(run)
    {
      VisitAddsAtMostOne(l, id, allowed, newId, run);
      if run == newId {
        assert l'.asked[|l.asked|].run == Some(run);
      } else if run !in first {
        var i :| 0 <= i < |l.asked| && l.asked[i].run == Some(run);
        assert l'.asked[i].run == Some(run);
      }
    }
  }

  /** Over every history of the store: the slots asked for are the fired ones of the template's history,
      and the schedule's runs are exactly those of the slots whose insert was not dropped. */
  lemma {:induction false} EverySlotHasItsRun(
    config: L.Config, l: Ledger, id: RunId, ms: seq<Moment>, first: set<RunId>)
    requires InStep(l, id) && Runs(config, l, id, ms) && R.TableInvariant(l.store.runs) && Kept(l, id, first)
    ensures Kept(After(config, l, id, ms), id, first)
    decreases |ms|
  {
    if ms != [] {
      NextInStep(config, l, id, ms[0]);
      NextKeeps(config, l, id, ms[0], first);
      EverySlotHasItsRun(config, Next(config, l, id, ms[0]), id, ms[1..], first);
    }
  }

  /** Whenever a visit asks for a slot, no row of the schedule stands on it. */
  predicate SlotsFree(config: L.Config, l: Ledger, id: RunId, ms: seq<Moment>)
    requires InStep(l, id) && Runs(config, l, id, ms)
    decreases |ms|
  {
    ms != [] ==>
      && (ms[0].Visit? && Processes(l.world) ==>
            var outcome := TickOutcome(l.world.cron, l.world.template, l.world.now, ms[0].allowed);
            outcome.Fired? ==> !R.SlotTaken(l.store.runs, id, outcome.slot))
      && (NextInStep(config, l, id, ms[0]); SlotsFree(config, Next(config, l, id, ms[0]), id, ms[1..]))
  }

  predicate NoneDropped(l: Ledger) {
    forall i :: 0 <= i < |l.asked| ==> l.asked[i].run.Some?
  }

  /** A slot is dropped if and only if some row of the schedule stands on it when it is asked for. */
  lemma {:induction false} DroppedIffTaken(config: L.Config, l: Ledger, id: RunId, ms: seq<Moment>)
    requires InStep(l, id) && Runs(config, l, id, ms)
    ensures NoneDropped(After(config, l, id, ms)) <==> NoneDropped(l) && SlotsFree(config, l, id, ms)
    decreases |ms|
  {
    if ms != [] {
      NextInStep(config, l, id, ms[0]);
      var l' := Next(config, l, id, ms[0]);
      DroppedIffTaken(config, l', id, ms[1..]);
      AskedGrows(config, l, id, ms[0]);
    }
  }

  lemma AskedGrows(config: L.Config, l: Ledger, id: RunId, m: Moment)
    requires InStep(l, id) && Possible(l, id, m)
    ensures var l' := Next(config, l, id, m);
            var outcome := if m.Visit? then TickOutcome(l.world.cron, l.world.template, l.world.now, m.allowed)
                           else RateLimited;
            NoneDropped(l') <==>
            NoneDropped(l) &&
            (m.Visit? && Processes(l.world) && outcome.Fired? ==> !R.SlotTaken(l.store.runs, id, outcome.slot))
  {
    var l' := Next(config, l, id, m);
    assert forall i :: 0 <= i < |l.asked| ==> l'.asked[i] == l.asked[i];
    if |l'.asked| > |l.asked| {
      var last := l'.asked[|l.asked|];
      assert l'.asked == l.asked + [last];
      assert NoneDropped(l') ==> last.run.Some?;
    }
  }

  /** The i-th slot asked for is this one, and it has its run. */
  predicate Served(l: Ledger, id: RunId, i: nat, slot: Instant) {
    && i < |l.asked| && l.asked[i].slot == slot
    && l.asked[i].run.Some? && IsRunOf(l.store.runs, id, l.asked[i].run.value)
  }

  /** No slot is lost, on the tables: a schedule that keeps up, and on whose slots no other row of it
      stands when they are due, gets one run for every slot from its creation to available_at, in order. */
  lemma NoSlotLosesItsRun(
    config: L.Config, l: Ledger, id: RunId, ms: seq<Moment>, c: Cron, maxCatchup: int, enabled: bool)
    requires InStep(l, id) && Runs(config, l, id, ms) && R.TableInvariant(l.store.runs)
    requires l.asked == [] && l.world == Start(c, l.store.now, maxCatchup, enabled)
    requires OnlyTicks(AllTold(ms)) && KeepsUp(l.world, AllTold(ms)) && SlotsFree(config, l, id, ms)
    ensures var l' := After(config, l, id, ms);
            var slots := Range(c, UpTo(c, l.store.now), Position(l'.world));
            && |l'.asked| == |slots|
            && (forall i :: 0 <= i < |slots| ==> Served(l', id, i, slots[i]))
            && (forall i, j :: 0 <= i < j < |slots| ==> l'.asked[i].run != l'.asked[j].run)
  {
    var first := set run | run in l.store.runs && l.store.runs[run].scheduleId == Some(id);
    assert Kept(l, id, first);
    EverySlotHasItsRun(config, l, id, ms, first);
    DroppedIffTaken(config, l, id, ms);
    TablesTellHistory(config, l, id, ms);
    NoSlotIsLost(c, l.store.now, maxCatchup, enabled, AllTold(ms));
    FinalKeepsCron(l.world, AllTold(ms));
  }

  lemma {:induction false} FinalKeepsCron(w: World, es: seq<Event>)
    requires ValidLimit(w.template.maxCatchup) && OnlyTicks(es) && ValidEvents(es)
    ensures Final(w, es).cron == w.cron
    decreases |es|
  {
    if es != [] {
      assert es[0].Wait? || es[0].CoordinatorTick?;
      assert forall i :: 0 <= i < |es[1..]| ==> es[1..][i] == es[i + 1];
      FinalKeepsCron(Apply(w, es[0]), es[1..]);
    }
  }

  /** The input: an instance of the schedule sleeps until exactly the next slot. The tick advances the
      template past the slot, and no run is created for it. */
  lemma SleepingInstanceTakesSlot(
    rows: R.Table, c: Cron, id: RunId, instance: RunId, worker: WorkerId, at: Instant, secs: nat, now: Instant,
    newId: RunId)
    requires id in rows && IsTemplate(rows[id]) && instance in rows && instance != id && newId !in rows
    requires rows[instance].scheduleId == Some(id) && rows[instance].status.Running?
    requires at + secs * MICROS_PER_SECOND == rows[id].availableAt.value <= now
    requires TickOutcome(c, TemplateOf(rows[id]), now, true).Fired?
    ensures var asleep := R.Execute(rows, at, R.ScheduleSleep(instance, secs));
            var ticked := Processed(asleep, c, id, now, true, newId);
            && newId !in ticked
            && ticked[id].lastFiredAt == rows[id].availableAt
            && ticked[id].availableAt == Some(CronSlots.After(c, rows[id].availableAt.value))
  {
    var asleep := R.Execute(rows, at, R.ScheduleSleep(instance, secs));
    assert asleep[instance].availableAt == rows[id].availableAt;
  }
}
