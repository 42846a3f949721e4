/** Runs of the whole store: any number of workers, clients and schedulers issuing statements in any
    order, a clock that never goes back, heartbeats, and the sweep of stale workers. */
module Leases {
  import opened Basics
  import opened Runs
  import W = Workers

  datatype Config = Config(extensionSecs: int, staleSecs: int)

  datatype Store = Store(now: Instant, runs: Table, workers: W.Table)

  datatype Event =
    | Tick(micros: nat)
    | Statement(op: Op)
    | Heartbeat(worker: WorkerId)
    | SweepStale
    | Register(worker: WorkerId, namespace: string, taskQueue: string, types: seq<string>)
    | StartDrain(worker: WorkerId, namespace: string)
    | Deregister(worker: WorkerId, namespace: string)

  /** Leases are extended by accepted heartbeats only. Registering inserts a worker, or finds one that
      is not offline. */
  predicate Enabled(s: Store, e: Event) {
    match e
    case Statement(op) => !op.ExtendVisibility? && CanExecute(s.runs, s.now, op)
    case Register(w, _, _, _) => w in s.workers ==> !s.workers[w].status.Offline?
    case _ => true
  }

  function Apply(c: Config, s: Store, e: Event): Store
    requires Enabled(s, e)
  {
    match e
    case Tick(micros) => s.(now := s.now + micros)
    case Statement(op) => s.(runs := Execute(s.runs, s.now, op))
    case Heartbeat(w) =>
      if W.Accepts(s.workers, w) then
        s.(workers := W.Beaten(s.workers, w, s.now),
        runs := Execute(s.runs, s.now, ExtendVisibility(w, c.extensionSecs)))
      else s
    case SweepStale => s.(workers := W.Swept(s.workers, c.staleSecs, s.now))
    case Register(w, namespace, taskQueue, types) =>
      s.(workers := s.workers[w := W.Worker(namespace, taskQueue, types, W.Online, s.now, None)])
    case StartDrain(w, namespace) => s.(workers := W.Drained(s.workers, w, namespace))
    case Deregister(w, namespace) => s.(workers := W.Removed(s.workers, w, namespace, s.now))
  }

  predicate Legal(c: Config, s: Store, es: seq<Event>)
    decreases |es|
  {
    es != [] ==> Enabled(s, es[0]) && Legal(c, Apply(c, s, es[0]), es[1..])
  }

  function Final(c: Config, s: Store, es: seq<Event>): Store
    requires Legal(c, s, es)
    decreases |es|
  {
    if es == [] then s else Final(c, Apply(c, s, es[0]), es[1..])
  }

  // ----- The invariant over every run -----

  function Claims(es: seq<Event>, id: RunId): nat
    decreases |es|
  {
    if es == [] then 0
    else (if es[0].Statement? && es[0].op.Poll? && es[0].op.chosen == Some(id) then 1 else 0) + Claims(es[1..], id)
  }

  lemma EventOnRow(c: Config, s: Store, e: Event, id: RunId)
    requires TableInvariant(s.runs) && Enabled(s, e) && id in s.runs
    ensures var s' := Apply(c, s, e);
            && id in s'.runs
            && (s.runs[id].status.IsTerminal() ==> s'.runs[id].status == s.runs[id].status)
            && s'.runs[id].attempts == s.runs[id].attempts + Claims([e], id)
  {
    match e
    case Statement(op) => StatementOnRow(s.runs, s.now, op, id);
    case Heartbeat(w) =>
      StatementOnRow(s.runs, s.now, ExtendVisibility(w, c.extensionSecs), id);
    case _ =>
  }

  lemma EventKeepsInvariant(c: Config, s: Store, e: Event)
    requires TableInvariant(s.runs) && Enabled(s, e)
    ensures TableInvariant(Apply(c, s, e).runs)
  {
    match e
    case Statement(op) => StatementKeepsInvariant(s.runs, s.now, op);
    case Heartbeat(w) => StatementKeepsInvariant(s.runs, s.now, ExtendVisibility(w, c.extensionSecs));
    case _ =>
  }

  /** Every reachable table satisfies the row invariant. */
  lemma {:induction false} InvariantHolds(c: Config, s: Store, es: seq<Event>)
    requires TableInvariant(s.runs) && Legal(c, s, es)
    ensures TableInvariant(Final(c, s, es).runs)
    decreases |es|
  {
    if es != [] {
      EventKeepsInvariant(c, s, es[0]);
      InvariantHolds(c, Apply(c, s, es[0]), es[1..]);
    }
  }

  /** Over any run: a terminal status is final, and `attempts` counts the claims. */
  lemma {:induction false} RowHistory(c: Config, s: Store, es: seq<Event>, id: RunId)
    requires TableInvariant(s.runs) && Legal(c, s, es) && id in s.runs
    ensures var s' := Final(c, s, es);
            && id in s'.runs
            && (s.runs[id].status.IsTerminal() ==> s'.runs[id].status == s.runs[id].status)
            && s'.runs[id].attempts == s.runs[id].attempts + Claims(es, id)
    decreases |es|
  {
    if es != [] {
      EventOnRow(c, s, es[0], id);
      EventKeepsInvariant(c, s, es[0]);
      RowHistory(c, Apply(c, s, es[0]), es[1..], id);
      assert Claims(es, id) == Claims([es[0]], id) + Claims(es[1..], id);
    }
  }

  /** Over any run: a terminal run and a template stay what they are, an ordinary run never becomes a
      template, and without a claim a run that is not RUNNING keeps its status or is cancelled. So only a
      claim leads on to RUNNING, SLEEPING, COMPLETED, FAILED, or back to PENDING. */
  lemma {:induction false} StatusHistory(c: Config, s: Store, es: seq<Event>, id: RunId)
    requires TableInvariant(s.runs) && Legal(c, s, es) && id in s.runs
    ensures id in Final(c, s, es).runs
    ensures var from, to := s.runs[id].status, Final(c, s, es).runs[id].status;
            && (from.IsTerminal() ==> to == from)
            && (from.IsScheduleTemplate() ==> to.IsScheduleTemplate())
            && (s.runs[id].cronExpr.None? && !from.IsScheduleTemplate() ==> !to.IsScheduleTemplate())
            && (s.runs[id].cronExpr.None? && !from.IsScheduleTemplate() && !from.Running? && Claims(es, id) == 0 ==>
                  to == from || (from.CanCancel() && to.Cancelled?))
    decreases |es|
  {
    if es != [] {
      assert Claims(es, id) == Claims([es[0]], id) + Claims(es[1..], id);
      StatusStep(c, s, es[0], id);
      EventKeepsInvariant(c, s, es[0]);
      StatusHistory(c, Apply(c, s, es[0]), es[1..], id);
    }
  }

  lemma StatusStep(c: Config, s: Store, e: Event, id: RunId)
    requires TableInvariant(s.runs) && Enabled(s, e) && id in s.runs
    ensures id in Apply(c, s, e).runs
    ensures var r, r' := s.runs[id], Apply(c, s, e).runs[id];
            && (r.status.IsTerminal() ==> r'.status == r.status)
            && (r.status.IsScheduleTemplate() ==> r'.status.IsScheduleTemplate())
            && (r.cronExpr.None? && !r.status.IsScheduleTemplate() ==>
                  !r'.status.IsScheduleTemplate() && r'.cronExpr.None?)
            && (r.cronExpr.None? && !r.status.IsScheduleTemplate() && !r.status.Running? && Claims([e], id) == 0 ==>
                  r'.status == r.status || (r.status.CanCancel() && r'.status.Cancelled?))
  {
    match e
    case Statement(op) => StatusMoves(s.runs, s.now, op, id);
    case Heartbeat(w) => StatusMoves(s.runs, s.now, ExtendVisibility(w, c.extensionSecs), id);
    case _ =>
  }

  /** Over any run: queue, type, input and policy of a run, its first start and its end are fixed. */
  lemma {:induction false} IdentityIsFixed(c: Config, s: Store, es: seq<Event>, id: RunId)
    requires TableInvariant(s.runs) && Legal(c, s, es) && id in s.runs
    ensures id in Final(c, s, es).runs && SameIdentity(s.runs[id], Final(c, s, es).runs[id])
    decreases |es|
  {
    if es != [] {
      EventKeepsIdentity(c, s, es[0], id);
      EventKeepsInvariant(c, s, es[0]);
      IdentityIsFixed(c, Apply(c, s, es[0]), es[1..], id);
    }
  }

  lemma EventKeepsIdentity(c: Config, s: Store, e: Event, id: RunId)
    requires TableInvariant(s.runs) && Enabled(s, e) && id in s.runs
    ensures id in Apply(c, s, e).runs && SameIdentity(s.runs[id], Apply(c, s, e).runs[id])
  {
    match e
    case Statement(op) => StatementKeepsIdentity(s.runs, s.now, op, id);
    case Heartbeat(w) => StatementKeepsIdentity(s.runs, s.now, ExtendVisibility(w, c.extensionSecs), id);
    case _ =>
  }

  // ----- Exclusive lease -----

  /** The holder, or a client, ends the execution; or the holder leaves. */
  predicate Releases(e: Event, id: RunId, holder: WorkerId) {
    match e
    case Statement(op) =>
      (op.Complete? && op.id == id) || (op.Fail? && op.id == id) || (op.Cancel? && op.id == id) ||
      (op.ScheduleSleep? && op.id == id) || (op.ScheduleRetry? && op.id == id)
    case Deregister(w, _) => w == holder
    case _ => false
  }

  function Beats(es: seq<Event>, holder: WorkerId): nat
    decreases |es|
  {
    if es == [] then 0 else (if es[0] == Heartbeat(holder) then 1 else 0) + Beats(es[1..], holder)
  }

  function NextDue(c: Config, s: Store, e: Event, holder: WorkerId, due: Instant): Instant {
    if e == Heartbeat(holder) then s.now + c.extensionSecs * MICROS_PER_SECOND else due
  }

  /** The holder keeps time: at every moment its next heartbeat is not overdue (`due` is the claim time
      plus the visibility timeout, and after each heartbeat that heartbeat plus the extension), the last
      one is within the stale threshold, and nobody releases the run. */
  predicate Punctual(c: Config, s: Store, es: seq<Event>, id: RunId, holder: WorkerId, due: Instant)
    requires Legal(c, s, es)
    decreases |es|
  {
    && s.now < due
    && holder in s.workers
    && s.now <= s.workers[holder].lastHeartbeat + c.staleSecs * MICROS_PER_SECOND
    && (es != [] ==>
          && !Releases(es[0], id, holder)
          && Punctual(c, Apply(c, s, es[0]), es[1..], id, holder, NextDue(c, s, es[0], holder, due)))
  }

  /** Running, and locked by the worker until then. */
  predicate Locked(s: Store, id: RunId, holder: WorkerId, until: Instant) {
    && id in s.runs
    && s.runs[id].status.Running?
    && s.runs[id].lockedBy == Some(holder)
    && s.runs[id].availableAt == Some(until)
  }

  /** ... by a worker whose heartbeats are accepted. */
  predicate Holds(s: Store, id: RunId, holder: WorkerId, until: Instant) {
    Locked(s, id, holder, until) && W.Accepts(s.workers, holder)
  }

  /** One event other than a release leaves the lease of a punctual holder alone, or extends it. */
  lemma LeaseStep(c: Config, s: Store, e: Event, id: RunId, holder: WorkerId, until: Instant)
    requires TableInvariant(s.runs) && Enabled(s, e) && !Releases(e, id, holder)
    requires Holds(s, id, holder, until) && s.now < until
    requires s.now <= s.workers[holder].lastHeartbeat + c.staleSecs * MICROS_PER_SECOND
    ensures Holds(Apply(c, s, e), id, holder,
                  if e == Heartbeat(holder) then until + c.extensionSecs * MICROS_PER_SECOND else until)
    ensures Claims([e], id) == 0
  {
    match e
    case Statement(op) =>
      assert !(op.Poll? && op.chosen == Some(id));
    case _ =>
  }

  lemma OneMore(n: nat, extension: int)
    ensures (1 + n) * extension == extension + n * extension
  {
  }

  /** Exclusive lease: under a punctual holder every reachable store still shows the run locked by it,
      available exactly k extensions later after k heartbeats and still in the future, and no poll of
      anyone has claimed it. */
  lemma {:induction false} ExclusiveLease(
    c: Config, s: Store, es: seq<Event>, id: RunId, holder: WorkerId, due: Instant, until: Instant)
    requires TableInvariant(s.runs) && Legal(c, s, es) && c.extensionSecs >= 0
    requires Holds(s, id, holder, until) && due <= until
    requires Punctual(c, s, es, id, holder, due)
    ensures var s' := Final(c, s, es);
            var until' := until + Beats(es, holder) * (c.extensionSecs * MICROS_PER_SECOND);
            Holds(s', id, holder, until') && s'.now < until'
    ensures Claims(es, id) == 0
    decreases |es|
  {
    if es != [] {
      var e := es[0];
      LeaseStep(c, s, e, id, holder, until);
      EventKeepsInvariant(c, s, e);
      var extension := c.extensionSecs * MICROS_PER_SECOND;
      var until1 := if e == Heartbeat(holder) then until + extension else until;
      ExclusiveLease(c, Apply(c, s, e), es[1..], id, holder, NextDue(c, s, e, holder, due), until1);
      if e == Heartbeat(holder) {
        assert Beats(es, holder) == 1 + Beats(es[1..], holder);
        OneMore(Beats(es[1..], holder), extension);
      }
      assert Claims(es, id) == Claims([e], id) + Claims(es[1..], id);
    }
  }

  /** An extension ends within itself from now, and not beyond, if and only if the lease was over. */
  lemma ExtensionOvershoots(r: Run, worker: WorkerId, extensionSecs: int, now: Instant)
    requires r.status.Running? && r.lockedBy == Some(worker) && r.availableAt.Some?
    ensures var r' := ExtendedRow(r, worker, extensionSecs, now);
            && r'.availableAt.Some?
            && (r'.availableAt.value <= now + extensionSecs * MICROS_PER_SECOND <==> r.availableAt.value <= now)
  {
  }

  /** When the next heartbeat is due after the events. */
  function DueAfter(c: Config, s: Store, es: seq<Event>, holder: WorkerId, due: Instant): Instant
    requires Legal(c, s, es)
    decreases |es|
  {
    if es == [] then due else DueAfter(c, Apply(c, s, es[0]), es[1..], holder, NextDue(c, s, es[0], holder, due))
  }

  /** So under a punctual holder the end of the lease runs away from the next due heartbeat: every
      heartbeat adds at least one microsecond to the distance, namely the time it came early. */
  lemma {:induction false} LeaseRunsAhead(
    c: Config, s: Store, es: seq<Event>, id: RunId, holder: WorkerId, due: Instant, until: Instant)
    requires TableInvariant(s.runs) && Legal(c, s, es) && c.extensionSecs >= 0
    requires Holds(s, id, holder, until) && due <= until
    requires Punctual(c, s, es, id, holder, due)
    ensures var until' := until + Beats(es, holder) * (c.extensionSecs * MICROS_PER_SECOND);
            && id in Final(c, s, es).runs && Final(c, s, es).runs[id].availableAt == Some(until')
            && until' - DueAfter(c, s, es, holder, due) >= until - due + Beats(es, holder)
    decreases |es|
  {
    if es != [] {
      var e := es[0];
      var extension := c.extensionSecs * MICROS_PER_SECOND;
      var until1 := if e == Heartbeat(holder) then until + extension else until;
      LeaseStep(c, s, e, id, holder, until);
      EventKeepsInvariant(c, s, e);
      LeaseRunsAhead(c, Apply(c, s, e), es[1..], id, holder, NextDue(c, s, e, holder, due), until1);
      if e == Heartbeat(holder) {
        assert Beats(es, holder) == 1 + Beats(es[1..], holder);
        OneMore(Beats(es[1..], holder), extension);
      }
    }
  }

  /** The same from the claim on: the lease starts at claim time plus the visibility timeout. */
  lemma LeaseFromClaim(c: Config, s: Store, f: Filter, id: RunId, holder: WorkerId, visibilitySecs: int, es: seq<Event>)
    requires TableInvariant(s.runs) && c.extensionSecs >= 0 && W.Accepts(s.workers, holder)
    requires var claim := Statement(Poll(f, holder, visibilitySecs, Some(id)));
             && Enabled(s, claim)
             && Legal(c, Apply(c, s, claim), es)
             && Punctual(c, Apply(c, s, claim), es, id, holder, s.now + visibilitySecs * MICROS_PER_SECOND)
    ensures var claim := Statement(Poll(f, holder, visibilitySecs, Some(id)));
            var s' := Final(c, Apply(c, s, claim), es);
            var until := s.now + visibilitySecs * MICROS_PER_SECOND
                         + Beats(es, holder) * (c.extensionSecs * MICROS_PER_SECOND);
            && Holds(s', id, holder, until) && s'.now < until
            && s'.runs[id].attempts == s.runs[id].attempts + 1
  {
    var claim := Statement(Poll(f, holder, visibilitySecs, Some(id)));
    EventKeepsInvariant(c, s, claim);
    var due := s.now + visibilitySecs * MICROS_PER_SECOND;
    ExclusiveLease(c, Apply(c, s, claim), es, id, holder, due, due);
    RowHistory(c, Apply(c, s, claim), es, id);
  }

  // ----- Sleep and retry barrier -----

  /** Not running, and if not terminal then not available before `wake`. */
  predicate Barred(s: Store, id: RunId, wake: Instant) {
    && id in s.runs
    && !s.runs[id].status.Running?
    && !s.runs[id].status.IsScheduleTemplate()
    && s.runs[id].cronExpr.None?
    && (s.runs[id].status.IsTerminal() || s.runs[id].availableAt == Some(wake))
  }

  lemma BarredStep(c: Config, s: Store, e: Event, id: RunId, wake: Instant)
    requires TableInvariant(s.runs) && Enabled(s, e) && Barred(s, id, wake) && s.now < wake
    ensures Barred(Apply(c, s, e), id, wake) && Claims([e], id) == 0
  {
    assert RowInvariant(s.runs[id]);
  }

  lemma {:induction false} ClockIsMonotone(c: Config, s: Store, es: seq<Event>)
    requires Legal(c, s, es)
    ensures s.now <= Final(c, s, es).now
    decreases |es|
  {
    if es != [] {
      ClockIsMonotone(c, Apply(c, s, es[0]), es[1..]);
    }
  }

  lemma {:induction false} BarrierHolds(c: Config, s: Store, es: seq<Event>, id: RunId, wake: Instant)
    requires TableInvariant(s.runs) && Legal(c, s, es) && Barred(s, id, wake)
    requires Final(c, s, es).now < wake
    ensures Barred(Final(c, s, es), id, wake) && Claims(es, id) == 0
    decreases |es|
  {
    if es != [] {
      ClockIsMonotone(c, s, es);
      BarredStep(c, s, es[0], id, wake);
      EventKeepsInvariant(c, s, es[0]);
      BarrierHolds(c, Apply(c, s, es[0]), es[1..], id, wake);
      assert Claims(es, id) == Claims([es[0]], id) + Claims(es[1..], id);
    }
  }

  /** How long a schedule call keeps its run away from the pollers. */
  function DelayOf(op: Op): nat
    requires op.ScheduleSleep? || op.ScheduleRetry?
  {
    if op.ScheduleSleep? then op.secs * MICROS_PER_SECOND else op.delayMs * MICROS_PER_MILLI
  }

  /** The delay is exact: a run put to sleep, or back for a retry, is due for a poll from the instant on
      at which it is over, and not before. */
  lemma DueWhenDelayIsOver(rows: Table, now: Instant, op: Op, at: Instant)
    requires (op.ScheduleSleep? || op.ScheduleRetry?) && op.id in rows && rows[op.id].status.Running?
    ensures var r, r' := rows[op.id], Execute(rows, now, op)[op.id];
            && (Eligible(r', Filter(r.namespace, r.taskQueue, [r.workflowType]), at) <==>
                at >= now + if op.ScheduleSleep? then op.secs * 1_000_000 else op.delayMs * 1_000)
            && r'.lockedBy.None? && r'.attempts == r.attempts
            && r'.status == if op.ScheduleSleep? then Sleeping else Pending
  {
    assert rows[op.id].workflowType in [rows[op.id].workflowType];
  }

  /** After a sleep or a retry is scheduled on a running run, nothing that anyone does claims the run
      before the delay is over. */
  lemma SleepAndRetryBarrier(c: Config, s: Store, op: Op, es: seq<Event>)
    requires TableInvariant(s.runs) && (op.ScheduleSleep? || op.ScheduleRetry?)
    requires op.id in s.runs && s.runs[op.id].status.Running? && s.runs[op.id].cronExpr.None?
    requires Legal(c, Apply(c, s, Statement(op)), es)
    requires Final(c, Apply(c, s, Statement(op)), es).now < s.now + DelayOf(op)
    ensures Claims(es, op.id) == 0
    ensures var s' := Final(c, Apply(c, s, Statement(op)), es);
            op.id in s'.runs && !s'.runs[op.id].status.Running?
  {
    EventKeepsInvariant(c, s, Statement(op));
    BarrierHolds(c, Apply(c, s, Statement(op)), es, op.id, s.now + DelayOf(op));
  }
}
