/** Which workers count as alive: the sweep, draining, and what brings an offline worker back. */
module Liveness {
  import opened Basics
  import W = Workers
  import opened Leases

  /** The sweep takes offline exactly the stale workers, so it leaves accepted exactly those that were
      accepted and have beaten within the threshold. */
  lemma SweepTakesExactlyTheStale(workers: W.Table, thresholdSecs: int, now: Instant, id: WorkerId)
    requires id in workers
    ensures var swept := W.Swept(workers, thresholdSecs, now);
            && id in swept
            && (swept[id].status.Offline? <==> workers[id].status.Offline? || W.Stale(workers[id], thresholdSecs, now))
            && (W.Accepts(swept, id) <==>
                  W.Accepts(workers, id) && now <= workers[id].lastHeartbeat + thresholdSecs * MICROS_PER_SECOND)
            && (!W.Stale(workers[id], thresholdSecs, now) ==> swept[id] == workers[id])
  {
  }

  /** The instant of the worker's last sign of life, a heartbeat or a registration. */
  function Heard(s: Store, e: Event, worker: WorkerId, last: Instant): Instant {
    if e == Heartbeat(worker) || (e.Register? && e.worker == worker) then s.now else last
  }

  /** The worker beats in time: at every moment its last sign of life is within the threshold; and it does
      not deregister. */
  predicate Beating(c: Config, s: Store, es: seq<Event>, worker: WorkerId, last: Instant)
    requires Legal(c, s, es)
    decreases |es|
  {
    && s.now <= last + c.staleSecs * MICROS_PER_SECOND
    && (es != [] ==>
          && !(es[0].Deregister? && es[0].worker == worker)
          && Beating(c, Apply(c, s, es[0]), es[1..], worker, Heard(s, es[0], worker, last)))
  }

  /** Every worker that beats in time is accepted, over every run, sweeps included. */
  lemma {:induction false} BeatingWorkersStayAccepted(
    c: Config, s: Store, es: seq<Event>, worker: WorkerId, last: Instant)
    requires Legal(c, s, es) && W.Accepts(s.workers, worker) && s.workers[worker].lastHeartbeat >= last
    requires Beating(c, s, es, worker, last)
    ensures W.Accepts(Final(c, s, es).workers, worker)
    decreases |es|
  {
    if es != [] {
      BeatingWorkersStayAccepted(c, Apply(c, s, es[0]), es[1..], worker, Heard(s, es[0], worker, last));
    }
  }

  predicate Drains(s: Store, e: Event, worker: WorkerId)
    requires worker in s.workers
  {
    e.StartDrain? && e.worker == worker && e.namespace == s.workers[worker].namespace
  }

  /** One event makes an offline worker's heartbeats accepted again if and only if it starts draining that
      worker. */
  lemma OfflineRevivedExactlyByDrain(c: Config, s: Store, e: Event, worker: WorkerId)
    requires Enabled(s, e) && worker in s.workers && s.workers[worker].status.Offline?
    ensures W.Accepts(Apply(c, s, e).workers, worker) <==> Drains(s, e, worker)
    ensures !Drains(s, e, worker) ==>
              && worker in Apply(c, s, e).workers
              && Apply(c, s, e).workers[worker].namespace == s.workers[worker].namespace
  {
  }

  /** Over every run, an offline worker that is not drained stays offline. */
  lemma {:induction false} OfflineStaysOffline(c: Config, s: Store, es: seq<Event>, worker: WorkerId)
    requires Legal(c, s, es) && worker in s.workers && s.workers[worker].status.Offline?
    requires forall i :: 0 <= i < |es| ==> !Drains(s, es[i], worker)
    ensures worker in Final(c, s, es).workers && Final(c, s, es).workers[worker].status.Offline?
    decreases |es|
  {
    if es != [] {
      OfflineRevivedExactlyByDrain(c, s, es[0], worker);
      var s' := Apply(c, s, es[0]);
      forall i | 0 <= i < |es[1..]| ensures !Drains(s', es[1..][i], worker) {
        assert !Drains(s, es[i + 1], worker);
      }
      OfflineStaysOffline(c, s', es[1..], worker);
    }
  }
}
