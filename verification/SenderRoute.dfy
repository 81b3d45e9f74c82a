/** A stage-1 worker's copy of the partition targets, and where it sends a tuple. */
module SenderRoute {
  import opened Scheduler
  import opened Reroute

  /** The target of a partition. A partition that is not in the map reads as worker 0. */
  function TargetOf(partitions: map<int, int>, p: int): int {
    if p in partitions then partitions[p] else 0
  }

  class StageOneWorker {
    var queue: seq<int>
    var partitions: map<int, int>

    constructor ()
      ensures queue == [] && partitions == map[]
    {
      queue, partitions := [], map[];
    }

    /** News of a task is taken up only by a worker that has the task queued. */
    method UpdateTask(t: int, outputs: map<int, int>) returns (found: bool)
      modifies `partitions
      ensures found <==> t in queue
      ensures partitions == if t in queue then outputs else old(partitions)
    {
      found := false;
      for i := 0 to |queue|
        invariant found <==> t in queue[..i]
        invariant partitions == if found then outputs else old(partitions)
      {
        if queue[i] == t {
          found := true;
          partitions := outputs;
        }
      }
      assert queue[..|queue|] == queue;
    }

    method GetReceiverByTuple(key: string, n: nat, hashKey: (string, nat) -> int) returns (receiver: int)
      ensures receiver == TargetOf(partitions, hashKey(key, n))
    {
      receiver := 0;
      var p := hashKey(key, n);
      if p in partitions {
        receiver := partitions[p];
      }
    }
  }

  /** What a stage-1 worker does with the leader's news after the first failure of a stage-2 worker, on which a worker
      had room for the task u and a sender was in use: tuples of u's partition go to u's new worker, which is live,
      those of every other partition to the worker of the same task as before, and none to the dead one. */
  lemma TuplesReachTheirTask(c: Cluster, n: nat, u: int, workerFiles: seq<int>, after: Cluster, p: int)
    requires Running(c, n) && n < u <= 2 * n && c.s.workerOf[u] !in c.s.live
    requires Rescheduled(c, u, workerFiles, after) && exists w :: CanTake(c.s, w)
    requires exists k :: 1 <= k <= n && InUse(c.s, k, after.s.workerOf[u])
    requires 0 <= p < n
    ensures n + 1 + p in after.s.workerOf && TargetOf(after.outputs, p) == after.s.workerOf[n + 1 + p]
    ensures TargetOf(after.outputs, p) != c.s.workerOf[u]
    ensures n + 1 + p == u ==> TargetOf(after.outputs, p) in after.s.live
    ensures n + 1 + p != u ==> TargetOf(after.outputs, p) == TargetOf(c.outputs, p)
  {
    hide Inv;
    hide AtHome;
    hide Feeds;
    hide Busy;
    FirstFailure(c, n, u, workerFiles, after);
    forall w ensures CanTake(Unplaced(c.s, u), w) <==> CanTake(c.s, w) {
      UnplacedCanTake(c.s, u, w);
    }
    var w :| Chosen(Unplaced(c.s, u), workerFiles, w) && RescheduledOn(c, u, w, after);
    RerouteEffect(c, n, u, w, after);
    assert RoutesTo(c, n, n + 1 + p);
  }
}
