/** Why one executor at a time: under executors that keep time, every claim of a run finds nobody
    executing it. This is what the replay protocol takes for granted of a claim. */
module Fencing {
  import opened Basics
  import opened Runs
  import W = Workers
  import opened Leases

  /** A moment of the store, or the loss of the run's executor, who sends nothing from then on. */
  datatype Moment = Do(e: Event) | ExecutorLost

  /** Who executes the run, and by when the next heartbeat is due. */
  datatype Live = Nobody | Executor(worker: WorkerId, due: Instant)

  predicate IsClaim(m: Moment, id: RunId) {
    m.Do? && m.e.Statement? && m.e.op.Poll? && m.e.op.chosen == Some(id)
  }

  /** The executor ends: it reports the run, or pauses it. */
  predicate IsReport(m: Moment, id: RunId) {
    m.Do? && m.e.Statement? &&
    match m.e.op
    case Complete(i, _) => i == id
    case Fail(i, _) => i == id
    case ScheduleSleep(i, _) => i == id
    case ScheduleRetry(i, _) => i == id
    case _ => false
  }

  function NextLive(c: Config, s: Store, m: Moment, id: RunId, live: Live): Live {
    if IsClaim(m, id) then Executor(m.e.op.worker, s.now + m.e.op.visibilitySecs * MICROS_PER_SECOND)
    else if m.ExecutorLost? || IsReport(m, id) || live.Nobody? then Nobody
    else Executor(live.worker, NextDue(c, s, m.e, live.worker, live.due))
  }

  function Move(c: Config, s: Store, m: Moment): Store
    requires m.Do? ==> Enabled(s, m.e)
  {
    if m.Do? then Apply(c, s, m.e) else s
  }

  /** The events are possible, a claiming worker is one whose heartbeats are accepted, and a live executor
      of a run that is not over is on time: its heartbeat is not overdue, the last one is within the
      stale threshold, and its worker does not deregister. */
  predicate OnTime(c: Config, s: Store, ms: seq<Moment>, id: RunId, live: Live)
    decreases |ms|
  {
    && (live.Executor? && id in s.runs && !s.runs[id].status.IsTerminal() ==>
          && s.now < live.due
          && live.worker in s.workers
          && s.now <= s.workers[live.worker].lastHeartbeat + c.staleSecs * MICROS_PER_SECOND)
    && (ms != [] ==>
          && (ms[0].Do? ==> Enabled(s, ms[0].e))
          && (IsClaim(ms[0], id) ==> W.Accepts(s.workers, ms[0].e.op.worker))
          && (live.Executor? && ms[0].Do? && ms[0].e.Deregister? ==> ms[0].e.worker != live.worker)
          && OnTime(c, Move(c, s, ms[0]), ms[1..], id, NextLive(c, s, ms[0], id, live)))
  }

  /** Whenever the run is claimed, nobody is executing it. */
  predicate OneAtATime(c: Config, s: Store, ms: seq<Moment>, id: RunId, live: Live)
    requires OnTime(c, s, ms, id, live)
    decreases |ms|
  {
    ms != [] ==>
      && (IsClaim(ms[0], id) ==> live.Nobody?)
      && OneAtATime(c, Move(c, s, ms[0]), ms[1..], id, NextLive(c, s, ms[0], id, live))
  }

  /** A live executor holds the lease until some time that its next heartbeat will not miss, unless the
      run is over. */
  predicate Covered(s: Store, id: RunId, live: Live, until: Instant) {
    live.Executor? ==>
      && id in s.runs
      && (s.runs[id].status.IsTerminal() || (Holds(s, id, live.worker, until) && live.due <= until))
  }

  /** One moment: a claim finds nobody, and whoever is live afterwards is covered. */
  lemma CoverStep(c: Config, s: Store, m: Moment, id: RunId, live: Live, until: Instant) returns (until': Instant)
    requires TableInvariant(s.runs) && c.extensionSecs >= 0 && Covered(s, id, live, until)
    requires OnTime(c, s, [m], id, live)
    ensures IsClaim(m, id) ==> live.Nobody?
    ensures Covered(Move(c, s, m), id, NextLive(c, s, m, id, live), until')
  {
    until' := until;
    if IsClaim(m, id) {
      assert Eligible(s.runs[id], m.e.op.filter, s.now);
      assert RowInvariant(s.runs[id]);
      until' := s.now + m.e.op.visibilitySecs * MICROS_PER_SECOND;
    } else if live.Executor? && m.Do? && !IsReport(m, id) {
      EventOnRow(c, s, m.e, id);
      if !s.runs[id].status.IsTerminal() {
        if !(m.e.Statement? && m.e.op.Cancel? && m.e.op.id == id) {
          LeaseStep(c, s, m.e, id, live.worker, until);
          until' := if m.e == Heartbeat(live.worker) then until + c.extensionSecs * MICROS_PER_SECOND else until;
        }
      }
    }
  }

  lemma {:induction false} CoveredRunsAreExclusive(
    c: Config, s: Store, ms: seq<Moment>, id: RunId, live: Live, until: Instant)
    requires TableInvariant(s.runs) && c.extensionSecs >= 0
    requires OnTime(c, s, ms, id, live) && Covered(s, id, live, until)
    ensures OneAtATime(c, s, ms, id, live)
    decreases |ms|
  {
    if ms != [] {
      assert [ms[0]][1..] == [];
      var s', live' := Move(c, s, ms[0]), NextLive(c, s, ms[0], id, live);
      assert OnTime(c, s', [], id, live');
      var until' := CoverStep(c, s, ms[0], id, live, until);
      if ms[0].Do? {
        EventKeepsInvariant(c, s, ms[0].e);
      }
      CoveredRunsAreExclusive(c, s', ms[1..], id, live', until');
    }
  }

  /** From a store in which nobody executes the run: at every later claim, still nobody does. */
  lemma OneLiveExecutor(c: Config, s: Store, ms: seq<Moment>, id: RunId)
    requires TableInvariant(s.runs) && c.extensionSecs >= 0 && OnTime(c, s, ms, id, Nobody)
    ensures OneAtATime(c, s, ms, id, Nobody)
  {
    CoveredRunsAreExclusive(c, s, ms, id, Nobody, s.now);
  }

  // ----- A worker that shuts down -----

  /** Nothing acts for the holder any more: it executes on, but without heartbeats. */
  predicate Silent(es: seq<Event>, id: RunId, holder: WorkerId) {
    forall i :: 0 <= i < |es| ==> !Releases(es[i], id, holder) && es[i] != Heartbeat(holder)
  }

  /** Along these events no poll can claim the run before `end` is past. */
  ghost predicate SafeAlong(c: Config, s: Store, es: seq<Event>, id: RunId, holder: WorkerId, end: Instant) {
    Legal(c, s, es) && Silent(es, id, holder) && Final(c, s, es).now <= end ==>
      id in Final(c, s, es).runs && !Claimable(Final(c, s, es), id)
  }

  predicate Claimable(s: Store, id: RunId)
    requires id in s.runs
  {
    Waiting(s.runs[id]) && Due(s.runs[id], s.now)
  }

  lemma SilentStep(c: Config, s: Store, e: Event, id: RunId, holder: WorkerId, until: Instant)
    requires TableInvariant(s.runs) && Enabled(s, e) && !Releases(e, id, holder) && e != Heartbeat(holder)
    requires Locked(s, id, holder, until) && s.now < until
    ensures Locked(Apply(c, s, e), id, holder, until)
  {
    assert RowInvariant(s.runs[id]);
  }

  lemma {:induction false} SilentLease(
    c: Config, s: Store, es: seq<Event>, id: RunId, holder: WorkerId, until: Instant)
    requires TableInvariant(s.runs) && Legal(c, s, es) && Silent(es, id, holder)
    requires Locked(s, id, holder, until) && Final(c, s, es).now < until
    ensures Locked(Final(c, s, es), id, holder, until)
    decreases |es|
  {
    if es != [] {
      ClockIsMonotone(c, s, es);
      assert !Releases(es[0], id, holder) && es[0] != Heartbeat(holder);
      SilentStep(c, s, es[0], id, holder, until);
      EventKeepsInvariant(c, s, es[0]);
      assert forall i :: 0 <= i < |es[1..]| ==> es[1..][i] == es[i + 1];
      SilentLease(c, Apply(c, s, es[0]), es[1..], id, holder, until);
    }
  }

  /** A draining worker stops its heartbeats and lets its executions go on. An execution that lasts until
      `end` is sure not to be claimed by another worker meanwhile if and only if it ends before the lease
      in hand does. */
  lemma DrainIsSafeIffLeaseOutlasts(c: Config, s: Store, id: RunId, holder: WorkerId, until: Instant, end: Instant)
    requires TableInvariant(s.runs) && Locked(s, id, holder, until) && s.now <= end
    ensures (forall es :: SafeAlong(c, s, es, id, holder, end)) <==> end < until
  {
    if end < until {
      forall es ensures SafeAlong(c, s, es, id, holder, end) {
        if Legal(c, s, es) && Silent(es, id, holder) && Final(c, s, es).now <= end {
          SilentLease(c, s, es, id, holder, until);
        }
      }
    } else {
      var wait: nat := if until > s.now then until - s.now else 0;
      var es := [Tick(wait)];
      assert es[1..] == [] && Legal(c, Apply(c, s, Tick(wait)), es[1..]);
      assert Legal(c, s, es) && Final(c, s, es) == Apply(c, s, Tick(wait)) && Silent(es, id, holder);
      assert !SafeAlong(c, s, es, id, holder, end);
    }
  }
}
