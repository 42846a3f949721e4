/** Order of the queue: how often a due run can be overtaken. */
module Queueing {
  import opened Basics
  import opened Runs
  import opened Leases

  /** The run is in the queue and became available at `since`. */
  predicate Standing(s: Store, f: Filter, id: RunId, since: Instant) {
    id in s.runs && Matches(s.runs[id], f) && Waiting(s.runs[id]) && s.runs[id].availableAt == Some(since)
  }

  /** The other runs of the same queue that became available no later. */
  function Ahead(s: Store, f: Filter, id: RunId, since: Instant): set<RunId> {
    set other | other in s.runs && other != id && Matches(s.runs[other], f) && Waiting(s.runs[other]) &&
                s.runs[other].availableAt.Some? && s.runs[other].availableAt.value <= since
  }

  /** Timeouts are not negative. */
  predicate Ordinary(e: Event) {
    e.Statement? && e.op.Poll? ==> e.op.visibilitySecs >= 0
  }

  predicate AllOrdinary(es: seq<Event>) {
    forall i :: 0 <= i < |es| ==> Ordinary(es[i])
  }

  predicate IsPoll(e: Event, f: Filter) {
    e.Statement? && e.op.Poll? && e.op.filter == f
  }

  function Polls(es: seq<Event>, f: Filter): nat
    decreases |es|
  {
    if es == [] then 0 else (if IsPoll(es[0], f) then 1 else 0) + Polls(es[1..], f)
  }

  /** An instance is inserted for a slot no later than `since`: the one way to enter the queue ahead. */
  predicate JumpsIn(e: Event, since: Instant) {
    e.Statement? && e.op.CreateInstance? && e.op.fireAt <= since
  }

  function Jumps(es: seq<Event>, since: Instant): nat
    decreases |es|
  {
    if es == [] then 0 else (if JumpsIn(es[0], since) then 1 else 0) + Jumps(es[1..], since)
  }

  predicate Cancelled(es: seq<Event>, id: RunId) {
    exists i :: 0 <= i < |es| && es[i].Statement? && es[i].op.Cancel? && es[i].op.id == id
  }

  /** Once the clock is past `since`, whatever enters the queue or re-enters it comes later, but for an
      instance inserted for an earlier slot. */
  lemma LateComersStayBehind(c: Config, s: Store, e: Event, f: Filter, other: RunId, since: Instant)
    requires TableInvariant(s.runs) && Enabled(s, e) && Ordinary(e) && c.extensionSecs >= 0 && since < s.now
    requires other in Apply(c, s, e).runs
    requires var r := Apply(c, s, e).runs[other];
             Matches(r, f) && Waiting(r) && r.availableAt.Some? && r.availableAt.value <= since
    ensures other !in s.runs ==> JumpsIn(e, since) && other == e.op.newId
    ensures other in s.runs ==>
              && Matches(s.runs[other], f) && Waiting(s.runs[other])
              && s.runs[other].availableAt == Apply(c, s, e).runs[other].availableAt
              && !(e.Statement? && e.op.Poll? && e.op.chosen == Some(other))
  {
    if other in s.runs {
      assert RowInvariant(s.runs[other]);
    }
  }

  /** A poll of the queue that does not take the run takes one of those ahead of it; nothing but an
      inserted instance joins them. */
  lemma PollShrinksAhead(c: Config, s: Store, e: Event, f: Filter, id: RunId, since: Instant)
    requires TableInvariant(s.runs) && Enabled(s, e) && Ordinary(e) && c.extensionSecs >= 0 && since < s.now
    requires Standing(s, f, id, since) && Standing(Apply(c, s, e), f, id, since)
    ensures Ahead(Apply(c, s, e), f, id, since)
         <= Ahead(s, f, id, since) + if JumpsIn(e, since) then {e.op.newId} else {}
    ensures IsPoll(e, f) ==> Ahead(Apply(c, s, e), f, id, since) < Ahead(s, f, id, since)
  {
    var s' := Apply(c, s, e);
    var jumped := if JumpsIn(e, since) then {e.op.newId} else {};
    forall other | other in Ahead(s', f, id, since) ensures other in Ahead(s, f, id, since) + jumped {
      LateComersStayBehind(c, s, e, f, other, since);
    }
    if IsPoll(e, f) {
      assert Eligible(s.runs[id], f, s.now);
      assert e.op.chosen.Some?;
      var chosen := e.op.chosen.value;
      if chosen == id {
        LateComersStayBehind(c, s, e, f, id, since);
      }
      assert chosen in Ahead(s, f, id, since);
      if chosen in Ahead(s', f, id, since) {
        LateComersStayBehind(c, s, e, f, chosen, since);
      }
    }
  }

  lemma AheadCounts(c: Config, s: Store, e: Event, f: Filter, id: RunId, since: Instant)
    requires TableInvariant(s.runs) && Enabled(s, e) && Ordinary(e) && c.extensionSecs >= 0 && since < s.now
    requires Standing(s, f, id, since) && Standing(Apply(c, s, e), f, id, since)
    ensures |Ahead(Apply(c, s, e), f, id, since)| + Polls([e], f) <= |Ahead(s, f, id, since)| + Jumps([e], since)
  {
    PollShrinksAhead(c, s, e, f, id, since);
    var ahead, ahead' := Ahead(s, f, id, since), Ahead(Apply(c, s, e), f, id, since);
    if JumpsIn(e, since) {
      SubsetSize(ahead', ahead + {e.op.newId});
      SubsetSize(ahead, ahead + {e.op.newId});
      assert |ahead + {e.op.newId}| <= |ahead| + 1;
    } else {
      SubsetSize(ahead', ahead);
    }
  }

  /** Every poll of the queue that leaves the run standing takes one from ahead of it, and every instance
      inserted for an earlier slot adds one. */
  lemma {:induction false} OvertakingIsBounded(
    c: Config, s: Store, es: seq<Event>, f: Filter, id: RunId, since: Instant)
    requires TableInvariant(s.runs) && Legal(c, s, es) && AllOrdinary(es) && c.extensionSecs >= 0 && since < s.now
    requires Standing(Final(c, s, es), f, id, since)
    requires id in s.runs
    ensures Standing(s, f, id, since)
    ensures Polls(es, f) + |Ahead(Final(c, s, es), f, id, since)|
         <= |Ahead(s, f, id, since)| + Jumps(es, since)
    decreases |es|
  {
    if es != [] {
      var s1 := Apply(c, s, es[0]);
      EventKeepsInvariant(c, s, es[0]);
      EventOnRow(c, s, es[0], id);
      OvertakingIsBounded(c, s1, es[1..], f, id, since);
      LateComersStayBehind(c, s, es[0], f, id, since);
      AheadCounts(c, s, es[0], f, id, since);
      assert Polls(es, f) == Polls([es[0]], f) + Polls(es[1..], f);
      assert Jumps(es, since) == Jumps([es[0]], since) + Jumps(es[1..], since);
    }
  }

  /** The event acts for the holder of the run: it reports, pauses, or keeps the lease alive. */
  predicate ActsFor(e: Event, id: RunId, holder: WorkerId) {
    match e
    case Statement(op) =>
      || (op.Complete? && op.id == id) || (op.Fail? && op.id == id)
      || (op.ScheduleSleep? && op.id == id) || (op.ScheduleRetry? && op.id == id)
    case Heartbeat(w) => w == holder
    case _ => false
  }

  /** Nobody cancels the run, and if it is locked, nothing acts for the worker that holds it now: it was
      lost. */
  predicate LeftAlone(s: Store, es: seq<Event>, id: RunId)
    requires id in s.runs
  {
    && !Cancelled(es, id)
    && (s.runs[id].lockedBy.Some? ==>
          forall i :: 0 <= i < |es| ==> !ActsFor(es[i], id, s.runs[id].lockedBy.value))
  }

  lemma StandsStep(c: Config, s: Store, e: Event, f: Filter, id: RunId, since: Instant)
    requires TableInvariant(s.runs) && Enabled(s, e)
    requires Standing(s, f, id, since) && s.runs[id].cronExpr.None?
    requires Claims([e], id) == 0 && !Cancelled([e], id)
    requires s.runs[id].lockedBy.Some? ==> !ActsFor(e, id, s.runs[id].lockedBy.value)
    ensures Standing(Apply(c, s, e), f, id, since)
    ensures Apply(c, s, e).runs[id].cronExpr.None? && Apply(c, s, e).runs[id].lockedBy == s.runs[id].lockedBy
  {
    assert RowInvariant(s.runs[id]);
    assert [e][0] == e && !(e.Statement? && e.op.Cancel? && e.op.id == id);
  }

  /** A run that is left alone leaves its place only by being claimed: waiting, asleep, or orphaned under
      a lease that nobody extends. */
  lemma {:induction false} UnclaimedStands(c: Config, s: Store, es: seq<Event>, f: Filter, id: RunId, since: Instant)
    requires TableInvariant(s.runs) && Legal(c, s, es)
    requires Standing(s, f, id, since) && s.runs[id].cronExpr.None?
    requires Claims(es, id) == 0 && LeftAlone(s, es, id)
    ensures Standing(Final(c, s, es), f, id, since)
    decreases |es|
  {
    if es != [] {
      assert Claims(es, id) == Claims([es[0]], id) + Claims(es[1..], id);
      assert forall i :: 0 <= i < |es[1..]| ==> es[1..][i] == es[i + 1];
      StandsStep(c, s, es[0], f, id, since);
      EventKeepsInvariant(c, s, es[0]);
      UnclaimedStands(c, Apply(c, s, es[0]), es[1..], f, id, since);
    }
  }

  /** Bounded overtaking: once a queued run is due, its lease over if it has one, more polls of its queue
      than there are runs ahead of it, and instances inserted ahead of it meanwhile, are enough to have
      claimed it, whatever else happens. */
  lemma BoundedOvertaking(c: Config, s: Store, es: seq<Event>, f: Filter, id: RunId, since: Instant)
    requires TableInvariant(s.runs) && Legal(c, s, es) && AllOrdinary(es) && c.extensionSecs >= 0
    requires Standing(s, f, id, since) && since < s.now
    requires s.runs[id].cronExpr.None? && LeftAlone(s, es, id)
    requires Polls(es, f) > |Ahead(s, f, id, since)| + Jumps(es, since)
    ensures Claims(es, id) >= 1
  {
    if Claims(es, id) == 0 {
      UnclaimedStands(c, s, es, f, id, since);
      OvertakingIsBounded(c, s, es, f, id, since);
    }
  }

  /** The poll is for another namespace or queue than the run's, or for other types. */
  predicate PollsElsewhere(e: Event, r: Run) {
    e.Statement? && e.op.Poll? ==>
      || e.op.filter.namespace != r.namespace
      || e.op.filter.taskQueue != r.taskQueue
      || (e.op.filter.types != [] && r.workflowType !in e.op.filter.types)
  }

  /** Nobody is handed a run but by polling its namespace, its queue and its type: whatever else happens,
      polls of other queues never claim it. */
  lemma {:induction false} OtherQueuesNeverClaim(c: Config, s: Store, es: seq<Event>, id: RunId)
    requires TableInvariant(s.runs) && Legal(c, s, es) && id in s.runs
    requires forall i :: 0 <= i < |es| ==> PollsElsewhere(es[i], s.runs[id])
    ensures Claims(es, id) == 0
    ensures id in Final(c, s, es).runs && Final(c, s, es).runs[id].attempts == s.runs[id].attempts
    decreases |es|
  {
    if es != [] {
      var s1 := Apply(c, s, es[0]);
      EventKeepsInvariant(c, s, es[0]);
      EventKeepsIdentity(c, s, es[0], id);
      assert PollsElsewhere(es[0], s.runs[id]);
      EventOnRow(c, s, es[0], id);
      assert forall i :: 0 <= i < |es[1..]| ==> es[1..][i] == es[i + 1];
      assert Claims(es, id) == Claims([es[0]], id) + Claims(es[1..], id);
      OtherQueuesNeverClaim(c, s1, es[1..], id);
    }
  }
}
