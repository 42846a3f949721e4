/** The `workers` table: liveness of the worker processes. */
module Workers {
  import opened Basics

  datatype WorkerStatus = Online | Draining | Offline

  datatype Worker = Worker(
    namespace: string,
    taskQueue: string,
    types: seq<string>,
    status: WorkerStatus,
    lastHeartbeat: Instant,
    deregisteredAt: Option<Instant>)

  type Table = map<WorkerId, Worker>

  predicate Accepts(workers: Table, id: WorkerId) {
    id in workers && !workers[id].status.Offline?
  }

  function Beaten(workers: Table, id: WorkerId, now: Instant): Table {
    if Accepts(workers, id) then workers[id := workers[id].(lastHeartbeat := now)] else workers
  }

  predicate Stale(w: Worker, thresholdSecs: int, now: Instant) {
    !w.status.Offline? && w.lastHeartbeat < now - thresholdSecs * MICROS_PER_SECOND
  }

  function Swept(workers: Table, thresholdSecs: int, now: Instant): Table {
    map id | id in workers ::
      if Stale(workers[id], thresholdSecs, now)
      then workers[id].(status := Offline, deregisteredAt := Some(now)) else workers[id]
  }

  /** The status is not consulted: draining an offline worker makes it heartbeat again. */
  function Drained(workers: Table, id: WorkerId, namespace: string): Table {
    if id in workers && workers[id].namespace == namespace
    then workers[id := workers[id].(status := Draining)] else workers
  }

  function Removed(workers: Table, id: WorkerId, namespace: string, now: Instant): Table {
    if id in workers && workers[id].namespace == namespace
    then workers[id := workers[id].(status := Offline, deregisteredAt := Some(now))] else workers
  }

  class WorkerRepository {
    var workers: Table

    constructor ()
      ensures workers == map[]
    {
      workers := map[];
    }

    method Heartbeat(id: WorkerId, now: Instant) returns (accepted: bool)
      modifies this
      ensures accepted == Accepts(old(workers), id)
      ensures workers == Beaten(old(workers), id, now)
      ensures accepted ==> id in workers && workers == old(workers)[id := old(workers)[id].(lastHeartbeat := now)]
    {
      accepted := Accepts(workers, id);
      if accepted {
        workers := workers[id := workers[id].(lastHeartbeat := now)];
      }
    }

    method StartDrain(id: WorkerId, namespace: string)
      modifies this
      ensures workers == Drained(old(workers), id, namespace)
    {
      if id in workers && workers[id].namespace == namespace {
        workers := workers[id := workers[id].(status := Draining)];
      }
    }

    method Deregister(id: WorkerId, namespace: string, now: Instant)
      modifies this
      ensures workers == Removed(old(workers), id, namespace, now)
    {
      if id in workers && workers[id].namespace == namespace {
        workers := workers[id := workers[id].(status := Offline, deregisteredAt := Some(now))];
      }
    }

    /** Takes the stale workers offline and tells how many they were. */
    method MarkStaleOffline(thresholdSecs: int, now: Instant) returns (count: nat)
      modifies this
      ensures workers == Swept(old(workers), thresholdSecs, now)
      ensures count == |set id | id in old(workers) && Stale(old(workers)[id], thresholdSecs, now)|
    {
      var stale := set id | id in workers && Stale(workers[id], thresholdSecs, now);
      workers := map id | id in workers ::
        if id in stale then workers[id].(status := Offline, deregisteredAt := Some(now)) else workers[id];
      return |stale|;
    }
  }
}
