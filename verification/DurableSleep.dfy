/** How long a durable sleep lasts: the seconds it was asked for, provided that the Sleep call arrives or
    the lease outlasts them. */
module DurableSleeps {
  import opened Basics
  import opened StepLog
  import opened Programs
  import opened Replay
  import R = Runs

  /** The sleep is begun and not over, nobody executes the code past it, and the run cannot be claimed
      before `until`, nor would the pending Sleep call make it available sooner. */
  predicate Open(p: Program, s: System, name: string, until: Instant) {
    && InProgress(Get(s.memo, name))
    && (s.exec.Idle? || s.exec.Raised? || s.exec.Pausing?)
    && (s.exec.Pausing? ==>
          p(s.exec.rs).Sleep? &&
          (p(s.exec.rs).seconds == 0 || until <= s.now + p(s.exec.rs).seconds * MICROS_PER_SECOND))
    && (s.run.status.IsTerminal() || (s.run.availableAt.Some? && until <= s.run.availableAt.value))
  }

  lemma {:induction false} ClockIsMonotone(p: Program, s: System, es: seq<Event>)
    requires Legal(p, s, es)
    ensures s.now <= Final(p, s, es).now
    decreases |es|
  {
    if es != [] {
      ClockIsMonotone(p, Next(p, s, es[0]), es[1..]);
    }
  }

  lemma OpenStep(p: Program, s: System, e: Event, name: string, until: Instant)
    requires Enabled(p, s, e) && !Reserved(name) && R.RowInvariant(s.run) && !s.run.status.IsScheduleTemplate()
    requires Open(p, s, name, until) && s.now < until
    ensures Open(p, Next(p, s, e), name, until)
    ensures s.exec.Idle? ==> Next(p, s, e).exec.Idle?
  {
  }

  lemma {:induction false} OpenStays(p: Program, s: System, es: seq<Event>, name: string, until: Instant)
    requires Legal(p, s, es) && !Reserved(name) && R.RowInvariant(s.run) && !s.run.status.IsScheduleTemplate()
    requires Open(p, s, name, until) && Final(p, s, es).now < until
    ensures Open(p, Final(p, s, es), name, until)
    ensures s.exec.Idle? ==> Final(p, s, es).exec.Idle?
    decreases |es|
  {
    if es != [] {
      ClockIsMonotone(p, s, es);
      OpenStep(p, s, es[0], name, until);
      EventKeepsRow(p, s, es[0]);
      OpenStays(p, Next(p, s, es[0]), es[1..], name, until);
    }
  }

  /** Once the Sleep call reached the server, no continuation whatever resumes the code or closes the
      sleep before the seconds are over. */
  lemma ScheduledSleepLasts(p: Program, s: System, es: seq<Event>)
    requires PlainNames(p) && Invariant(p, s) && s.exec.Pausing? && s.run.status.Running?
    requires p(s.exec.rs).seconds >= 1
    requires Legal(p, Next(p, s, SleepRun(None)), es)
    requires Final(p, Next(p, s, SleepRun(None)), es).now < s.now + p(s.exec.rs).seconds * MICROS_PER_SECOND
    ensures var s' := Final(p, Next(p, s, SleepRun(None)), es);
            s'.exec.Idle? && !Done(Get(s'.memo, p(s.exec.rs).name))
  {
    OpenStays(p, Next(p, s, SleepRun(None)), es, p(s.exec.rs).name,
              s.now + p(s.exec.rs).seconds * MICROS_PER_SECOND);
  }

  function LeaseLeft(s: System): nat
    requires s.run.availableAt.Some?
  {
    if s.run.availableAt.value > s.now then s.run.availableAt.value - s.now else 0
  }

  /** The lease of a run that nobody executes runs out, and the next claim passes the sleep. */
  function Reclaim(s: System, worker: WorkerId, visibilitySecs: nat): seq<Event>
    requires s.run.availableAt.Some?
  {
    [Tick(LeaseLeft(s))] + ([Claim(worker, visibilitySecs)] + [WakeSleeps(true)])
  }

  lemma ReclaimEndsSleep(p: Program, s: System, name: string, worker: WorkerId, visibilitySecs: nat)
    returns (t: System)
    requires R.RowInvariant(s.run) && s.run.status.Running? && s.exec.Idle?
    requires InProgress(Get(s.memo, name)) && Last(Get(s.memo, name)).kind.SleepKind?
    ensures Reaches(p, s, Reclaim(s, worker, visibilitySecs), t)
    ensures t.now == s.now + LeaseLeft(s) && t.exec == At([]) && Done(Get(t.memo, name))
  {
    var later := Next(p, s, Tick(LeaseLeft(s)));
    var claimed := Next(p, later, Claim(worker, visibilitySecs));
    t := Next(p, claimed, WakeSleeps(true));
    LastEvent(p, claimed, WakeSleeps(true));
    OneEvent(p, later, Claim(worker, visibilitySecs), [WakeSleeps(true)], t);
    OneEvent(p, s, Tick(LeaseLeft(s)), [Claim(worker, visibilitySecs)] + [WakeSleeps(true)], t);
  }

  /** The attempt in hand is the sleep that the executor has just begun. */
  predicate SleepBegun(p: Program, s: System) {
    && s.exec.Pausing? && s.run.status.Running? && p(s.exec.rs).Sleep?
    && InProgress(Get(s.memo, p(s.exec.rs).name))
    && Last(Get(s.memo, p(s.exec.rs).name)).kind.SleepKind?
  }

  /** Along these events the sleep is not over before `over`. */
  predicate LastsAlong(p: Program, s: System, es: seq<Event>, name: string, over: Instant) {
    Legal(p, s, es) && Final(p, s, es).now < over ==> !Done(Get(Final(p, s, es).memo, name))
  }

  /** Along these events nobody executes the code before `until`. */
  predicate RestsAlong(p: Program, s: System, es: seq<Event>, until: Instant) {
    Legal(p, s, es) && Final(p, s, es).now < until ==> Final(p, s, es).exec.Idle?
  }

  /** While the Sleep call is still to be made: the sleep is sure to last its seconds, come what may, if
      and only if the lease does. Otherwise an executor lost here cuts it short. */
  lemma SleepLastsIffLeaseDoes(p: Program, s: System)
    requires PlainNames(p) && Invariant(p, s) && SleepBegun(p, s) && p(s.exec.rs).seconds >= 1
    ensures var name := p(s.exec.rs).name;
            var over := s.now + p(s.exec.rs).seconds * MICROS_PER_SECOND;
            (forall es :: LastsAlong(p, s, es, name, over)) <==> s.now + LeaseLeft(s) >= over
  {
    var name := p(s.exec.rs).name;
    var over := s.now + p(s.exec.rs).seconds * MICROS_PER_SECOND;
    if s.now + LeaseLeft(s) >= over {
      forall es ensures LastsAlong(p, s, es, name, over) {
        if Legal(p, s, es) && Final(p, s, es).now < over {
          OpenStays(p, s, es, name, over);
        }
      }
    } else {
      var lost := Next(p, s, Crash);
      var t := ReclaimEndsSleep(p, lost, name, 0, 0);
      OneEvent(p, s, Crash, Reclaim(lost, 0, 0), t);
      assert !LastsAlong(p, s, [Crash] + Reclaim(lost, 0, 0), name, over);
    }
  }

  /** A sleep below one second schedules nothing, so the code surely rests until an instant if and only
      if the lease in hand does. */
  lemma ShortSleepWaitsForLease(p: Program, s: System, until: Instant)
    requires PlainNames(p) && Invariant(p, s) && SleepBegun(p, s) && p(s.exec.rs).seconds == 0
    ensures var paused := Next(p, s, SleepRun(None));
            (forall es :: RestsAlong(p, paused, es, until)) <==> until <= s.now + LeaseLeft(s)
  {
    var paused := Next(p, s, SleepRun(None));
    if until <= s.now + LeaseLeft(s) {
      forall es ensures RestsAlong(p, paused, es, until) {
        if Legal(p, paused, es) && Final(p, paused, es).now < until {
          ClockIsMonotone(p, paused, es);
          OpenStays(p, paused, es, p(s.exec.rs).name, until);
        }
      }
    } else {
      var t := ReclaimEndsSleep(p, paused, p(s.exec.rs).name, 0, 0);
      assert !RestsAlong(p, paused, Reclaim(paused, 0, 0), until);
    }
  }
}
