/** What becomes of a job's routing when a worker dies: the leader's failure handling as a relation, and its effect on
    the partitions of a dispatched job. */
module Reroute {
  import opened Scheduler
  import opened Sequences

  /** The scheduler's state with the tasks of stage 2, the target worker of each partition, the stage-1 workers noted
      for each stage-2 worker, and the tasks waiting at the leader. */
  datatype Cluster = Cluster(s: State, stage2: set<int>, outputs: map<int, int>, senders: map<int, seq<int>>,
                             waiting: seq<int>)

  /** The worker an assignment picks: one that holds the file if there is such an idle worker, else any that can take
      the task. */
  ghost predicate Chosen(s: State, workerFiles: seq<int>, w: int) {
    CanTake(s, w) && (Prefers(s, workerFiles, w) || forall v :: !Prefers(s, workerFiles, v))
  }

  /** While a holder of the file is still idle, no task has gone to a worker that does not hold it. */
  ghost predicate HoldersFirst(s: State, workerFiles: seq<int>) {
    (exists v :: Prefers(s, workerFiles, v)) ==> forall t :: t in s.workerOf ==> s.workerOf[t] + 1 in workerFiles
  }

  lemma HoldersStayFirst(s: State, t: int, workerFiles: seq<int>, w: int)
    requires HoldersFirst(s, workerFiles) && Chosen(s, workerFiles, w)
    ensures HoldersFirst(Placed(s, t, w), workerFiles)
  {
    IdleAfterPlaced(s, t, w);
    if v :| Prefers(Placed(s, t, w), workerFiles, v) {
      assert Prefers(s, workerFiles, v);
    }
  }

  ghost predicate IsPartitionOf(outputs: map<int, int>, failed: int, p: int) {
    if exists q :: q in outputs && outputs[q] == failed then p in outputs && outputs[p] == failed else p == -1
  }

  predicate Busy(s: State, workers: seq<int>) {
    exists i :: 0 <= i < |workers| && workers[i] in s.queues && s.queues[workers[i]] != []
  }

  function SendersOf(c: Cluster, worker: int): seq<int> {
    if worker in c.senders then c.senders[worker] else []
  }

  ghost predicate Rerouted(c: Cluster, failed: int, w: int, after: Cluster) {
    if Busy(after.s, SendersOf(c, failed)) then
      exists p :: IsPartitionOf(c.outputs, failed, p) && after.outputs == c.outputs[p := w]
    else
      after.outputs == c.outputs
  }

  ghost predicate RescheduledOn(c: Cluster, t: int, w: int, after: Cluster)
    requires t in c.s.workerOf && w in c.s.queues
  {
    && after.s == Placed(Unplaced(c.s, t), t, w) && after.waiting == c.waiting
    && if t in c.stage2 then Rerouted(c, c.s.workerOf[t], w, after) else after.outputs == c.outputs
  }

  ghost predicate Rescheduled(c: Cluster, t: int, workerFiles: seq<int>, after: Cluster) {
    && t in c.s.workerOf && after.senders == c.senders && after.stage2 == c.stage2
    && if exists w :: CanTake(Unplaced(c.s, t), w) then
         exists w :: Chosen(Unplaced(c.s, t), workerFiles, w) && RescheduledOn(c, t, w, after)
       else
         after == c.(s := Unplaced(c.s, t), waiting := c.waiting + [t])
  }

  lemma UnplacedCanTake(s: State, t: int, w: int)
    ensures CanTake(Unplaced(s, t), w) <==> CanTake(s, w)
  {
    assert Idle(Unplaced(s, t)) == Idle(s);
  }

  /** Handling a failure while the worker is down keeps the queues in order. */
  lemma ReschedulingKeepsQueues(c: Cluster, t: int, workerFiles: seq<int>, after: Cluster)
    requires Inv(c.s) && t in c.s.open && c.s.workerOf[t] !in c.s.live && Rescheduled(c, t, workerFiles, after)
    ensures Inv(after.s)
  {
    if exists w :: CanTake(Unplaced(c.s, t), w) {
      var w :| Chosen(Unplaced(c.s, t), workerFiles, w) && RescheduledOn(c, t, w, after);
      Scheduler.StepKeeps(c.s, Reschedule(t, w));
    } else {
      Scheduler.StepKeeps(c.s, RescheduleNowhere(t));
    }
  }

  ghost predicate Names(s: State, t: int, worker: int) {
    t in s.open && t in s.workerOf && s.workerOf[t] == worker
  }

  /** One task is rescheduled for each failure, so no open task names the dead worker afterwards exactly when no other
      one did before. */
  lemma OneTaskIsRescued(c: Cluster, t: int, workerFiles: seq<int>, after: Cluster)
    requires Inv(c.s) && t in c.s.open && c.s.workerOf[t] in c.s.queues
    requires c.s.workerOf[t] !in c.s.live && Rescheduled(c, t, workerFiles, after)
    requires forall w :: w in c.s.queues ==> w >= 0
    ensures (forall u :: !Names(after.s, u, c.s.workerOf[t]))
       <==> forall u :: Names(c.s, u, c.s.workerOf[t]) ==> u == t
  {
    var dead := c.s.workerOf[t];
    if exists w :: CanTake(Unplaced(c.s, t), w) {
      var w :| Chosen(Unplaced(c.s, t), workerFiles, w) && RescheduledOn(c, t, w, after);
      assert after.s.workerOf[t] != dead;
    }
    forall u | u != t ensures Names(after.s, u, dead) <==> Names(c.s, u, dead) {
    }
    assert !Names(after.s, t, dead);
  }

  // ----- a job of n tasks in each stage, with a worker for every task -----

  ghost predicate AtHome(s: State, t: int) {
    && t in s.workerOf && s.workerOf[t] in s.queues
    && (t in s.open && s.workerOf[t] in s.live ==> s.queues[s.workerOf[t]] == [t])
    && (t !in s.open ==> s.queues[s.workerOf[t]] == [])
  }

  /** Tasks 1..total are the job's, each with a worker to itself, which may have completed it or died. */
  ghost predicate Alone(s: State, total: nat) {
    && (forall w :: w in s.queues ==> w >= 0)
    && (forall t :: t in s.workerOf <==> 1 <= t <= total)
    && (forall t :: 1 <= t <= total ==> AtHome(s, t))
    && (forall t, u :: 1 <= t < u <= total ==> s.workerOf[t] != s.workerOf[u])
  }

  ghost predicate Feeds(c: Cluster, n: nat, w: int)
  {
    && w in c.senders && |c.senders[w]| == n
    && forall t :: 1 <= t <= n ==> t in c.s.workerOf && c.senders[w][t - 1] == c.s.workerOf[t]
  }

  /** The partition of stage-2 task t, which is t-n-1, goes to its worker, for which the stage-1 workers are noted as
      senders. */
  ghost predicate RoutesTo(c: Cluster, n: nat, t: int) {
    && t in c.s.workerOf && t - n - 1 in c.outputs
    && c.outputs[t - n - 1] == c.s.workerOf[t] && Feeds(c, n, c.s.workerOf[t])
  }

  /** Tasks 1..n are stage 1 and n+1..2n stage 2, none of which is complete. */
  ghost predicate Running(c: Cluster, n: nat) {
    && Inv(c.s) && Alone(c.s, 2 * n)
    && (forall t :: t in c.stage2 <==> n < t <= 2 * n)
    && (forall t :: n < t <= 2 * n ==> t in c.s.open)
    && (forall i :: i in c.outputs <==> 0 <= i < n)
    && (forall t :: n < t <= 2 * n ==> RoutesTo(c, n, t))
  }

  lemma CompletionKeepsAlone(s: State, total: nat, t: int)
    requires Alone(s, total) && 1 <= t <= total && Inv(s)
    ensures Alone(Noted(s, t), total)
  {
    if t in s.open {
      var w := s.workerOf[t];
      assert AtHome(s, t) && Scheduler.GoodQueue(s, w);
      hide Inv;
      assert Dropped(s.queues[w], t) == [];
      forall u | 1 <= u <= total && u != t ensures AtHome(Noted(s, t), u) {
        assert AtHome(s, u);
      }
    }
  }

  lemma CompletionKeepsRunning(c: Cluster, n: nat, t: int)
    requires Running(c, n) && 1 <= t <= n
    ensures Running(c.(s := Noted(c.s, t)), n)
  {
    var c' := c.(s := Noted(c.s, t));
    Scheduler.StepKeeps(c.s, Complete(t));
    CompletionKeepsAlone(c.s, 2 * n, t);
    hide Inv;
    hide Alone;
    assert c'.s.workerOf == c.s.workerOf;
    forall u | n < u <= 2 * n ensures RoutesTo(c', n, u) {
      assert RoutesTo(c, n, u);
    }
  }

  lemma DeathKeepsAlone(s: State, total: nat, w: int)
    requires Alone(s, total) && w in s.queues
    ensures Alone(Next(s, Die(w)), total)
  {
    forall u | 1 <= u <= total ensures AtHome(Next(s, Die(w)), u) {
      assert AtHome(s, u);
    }
  }

  lemma DeathKeepsRunning(c: Cluster, n: nat, w: int)
    requires Running(c, n) && w in c.s.queues
    ensures Running(c.(s := Next(c.s, Die(w))), n)
  {
    var c' := c.(s := Next(c.s, Die(w)));
    Scheduler.StepKeeps(c.s, Die(w));
    DeathKeepsAlone(c.s, 2 * n, w);
    hide Inv;
    hide Alone;
    forall u | n < u <= 2 * n ensures RoutesTo(c', n, u) {
      assert RoutesTo(c, n, u);
    }
  }

  /** What dispatching a job leaves behind: every task placed, on a worker of its own if there are enough. */
  ghost predicate Placements(c: Cluster, n: nat) {
    && Filling(c.s, 2 * n, 2 * n)
    && (forall t :: t in c.stage2 <==> n < t <= 2 * n)
    && (forall i :: i in c.outputs <==> 0 <= i < n)
    && (forall t :: n < t <= 2 * n ==> RoutesTo(c, n, t))
  }

  /** With a live worker for every task the job starts with one task per worker and distinct targets. */
  lemma DispatchedIsRunning(c: Cluster, n: nat)
    requires Placements(c, n) && 2 * n <= |c.s.live|
    ensures Running(c, n)
    ensures forall i, j :: 0 <= i < j < n ==> c.outputs[i] != c.outputs[j]
  {
    forall t | 1 <= t <= 2 * n ensures AtHome(c.s, t) {
      OneTaskPerWorker(c.s, 2 * n, t);
    }
    forall t, u | 1 <= t < u <= 2 * n ensures c.s.workerOf[t] != c.s.workerOf[u] {
      OneTaskPerWorker(c.s, 2 * n, t);
    }
    forall i, j | 0 <= i < j < n ensures c.outputs[i] != c.outputs[j] {
      assert RoutesTo(c, n, n + 1 + i) && RoutesTo(c, n, n + 1 + j);
    }
  }

  /** The worker of stage-1 task t has something queued, or is w. */
  predicate InUse(s: State, t: int, w: int) {
    t in s.workerOf && s.workerOf[t] in s.queues && (s.queues[s.workerOf[t]] != [] || s.workerOf[t] == w)
  }

  /** The first failure of a stage-2 worker, with its task u. Every partition keeps a target and all but the dead
      worker's are unchanged. The dead worker is no target any more exactly when a worker had room for the task and
      some stage-1 worker had a task queued, or is the one that got it. */
  lemma FirstFailure(c: Cluster, n: nat, u: int, workerFiles: seq<int>, after: Cluster)
    requires Running(c, n) && n < u <= 2 * n && c.s.workerOf[u] !in c.s.live
    requires Rescheduled(c, u, workerFiles, after)
    ensures after.outputs.Keys == c.outputs.Keys
    ensures forall i :: 0 <= i < n && i != u - n - 1 ==> after.outputs[i] == c.outputs[i] != c.s.workerOf[u]
    ensures (exists w :: CanTake(c.s, w)) ==>
              && after.s.workerOf[u] in after.s.live && u in after.s.queues[after.s.workerOf[u]]
    ensures (forall i :: 0 <= i < n ==> after.outputs[i] != c.s.workerOf[u])
       <==> && (exists w :: CanTake(c.s, w))
            && exists k :: 1 <= k <= n && InUse(c.s, k, after.s.workerOf[u])
  {
    hide Inv;
    hide AtHome;
    hide Feeds;
    var dead := c.s.workerOf[u];
    var p := u - n - 1;
    OnlyPartition(c, n, u);
    forall w ensures CanTake(Unplaced(c.s, u), w) <==> CanTake(c.s, w) {
      UnplacedCanTake(c.s, u, w);
    }
    if exists w :: CanTake(c.s, w) {
      var w :| Chosen(Unplaced(c.s, u), workerFiles, w) && RescheduledOn(c, u, w, after);
      RerouteEffect(c, n, u, w, after);
      assert after.s.workerOf[u] == w != dead;
    }
  }

  lemma BusyAfterPlacing(s: State, t: int, w: int, workers: seq<int>)
    requires w in s.queues && forall i :: 0 <= i < |workers| ==> workers[i] in s.queues
    ensures Busy(Placed(s, t, w), workers)
       <==> exists i :: 0 <= i < |workers| && (s.queues[workers[i]] != [] || workers[i] == w)
  {
    var s' := Placed(s, t, w);
    forall i | 0 <= i < |workers|
      ensures s'.queues[workers[i]] != [] <==> s.queues[workers[i]] != [] || workers[i] == w
    {
    }
  }

  lemma OnlyPartition(c: Cluster, n: nat, u: int)
    requires Running(c, n) && n < u <= 2 * n
    ensures c.outputs[u - n - 1] == c.s.workerOf[u]
    ensures forall i :: 0 <= i < n && i != u - n - 1 ==> c.outputs[i] != c.s.workerOf[u]
  {
    assert RoutesTo(c, n, u);
    forall q | 0 <= q < n && q != u - n - 1 ensures c.outputs[q] != c.s.workerOf[u] {
      assert RoutesTo(c, n, n + 1 + q);
    }
  }

  lemma RerouteEffect(c: Cluster, n: nat, u: int, w: int, after: Cluster)
    requires Running(c, n) && n < u <= 2 * n && c.s.workerOf[u] !in c.s.live
    requires w in c.s.live && w in c.s.queues && RescheduledOn(c, u, w, after)
    ensures after.outputs
         == if exists k :: 1 <= k <= n && InUse(c.s, k, w)
            then c.outputs[u - n - 1 := w] else c.outputs
  {
    var dead := c.s.workerOf[u];
    var p := u - n - 1;
    var workers := SendersOf(c, dead);
    OnlyPartition(c, n, u);
    assert RoutesTo(c, n, u);
    forall k | 0 <= k < n ensures AtHome(c.s, k + 1) && workers[k] == c.s.workerOf[k + 1] {
      assert AtHome(c.s, k + 1);
    }
    BusyAfterPlacing(Unplaced(c.s, u), u, w, workers);
    forall i | 0 <= i < n && (c.s.queues[workers[i]] != [] || workers[i] == w) ensures InUse(c.s, i + 1, w) {
    }
    if k :| 1 <= k <= n && InUse(c.s, k, w) {
      assert workers[k - 1] == c.s.workerOf[k];
      assert Busy(after.s, workers);
    }
  }

  // ----- the same, seen before the failure is handled -----

  /** The dead worker of task u is the target of no partition. */
  ghost predicate Freed(c: Cluster, n: nat, u: int, after: Cluster)
    requires u in c.s.workerOf
  {
    forall i :: 0 <= i < n && i in after.outputs ==> after.outputs[i] != c.s.workerOf[u]
  }

  ghost predicate SomeInUse(s: State, n: nat, w: int) {
    exists k :: 1 <= k <= n && InUse(s, k, w)
  }

  lemma UnplacedChosen(s: State, t: int, workerFiles: seq<int>)
    ensures forall w :: CanTake(Unplaced(s, t), w) <==> CanTake(s, w)
    ensures forall w :: Chosen(Unplaced(s, t), workerFiles, w) <==> Chosen(s, workerFiles, w)
  {
    assert Idle(Unplaced(s, t)) == Idle(s);
    forall w ensures CanTake(Unplaced(s, t), w) <==> CanTake(s, w) {
      UnplacedCanTake(s, t, w);
    }
    assert forall w :: Prefers(Unplaced(s, t), workerFiles, w) <==> Prefers(s, workerFiles, w);
  }

  /** The outcome for a given choice of worker. */
  lemma OutcomeFor(c: Cluster, n: nat, u: int, workerFiles: seq<int>, w: int) returns (after: Cluster)
    requires Running(c, n) && n < u <= 2 * n && c.s.workerOf[u] !in c.s.live && Chosen(c.s, workerFiles, w)
    ensures Rescheduled(c, u, workerFiles, after) && after.s.workerOf[u] == w
  {
    UnplacedChosen(c.s, u, workerFiles);
    OnlyPartition(c, n, u);
    var s := Placed(Unplaced(c.s, u), u, w);
    var busy := Busy(s, SendersOf(c, c.s.workerOf[u]));
    assert u - n - 1 in c.outputs;
    assert IsPartitionOf(c.outputs, c.s.workerOf[u], u - n - 1);
    after := c.(s := s, outputs := if busy then c.outputs[u - n - 1 := w] else c.outputs);
    assert RescheduledOn(c, u, w, after);
  }

  /** Whichever worker is picked, the dead one is freed of its partition, exactly when there is room for the task and
      every worker that may be picked leaves some stage-1 worker in use. */
  lemma FreedForSureIff(c: Cluster, n: nat, u: int, workerFiles: seq<int>)
    requires Running(c, n) && n < u <= 2 * n && c.s.workerOf[u] !in c.s.live
    ensures (forall after :: Rescheduled(c, u, workerFiles, after) ==> Freed(c, n, u, after))
       <==> && (exists w :: CanTake(c.s, w))
            && forall w :: Chosen(c.s, workerFiles, w) ==> SomeInUse(c.s, n, w)
  {
    UnplacedChosen(c.s, u, workerFiles);
    if exists w :: CanTake(c.s, w) {
      forall after | Rescheduled(c, u, workerFiles, after)
        ensures Chosen(c.s, workerFiles, after.s.workerOf[u])
        ensures Freed(c, n, u, after) <==> SomeInUse(c.s, n, after.s.workerOf[u])
      {
        FreedIff(c, n, u, workerFiles, after);
      }
      forall w | Chosen(c.s, workerFiles, w)
        ensures exists after :: Rescheduled(c, u, workerFiles, after) && after.s.workerOf[u] == w
      {
        var after := OutcomeFor(c, n, u, workerFiles, w);
      }
    } else {
      var after := c.(s := Unplaced(c.s, u), waiting := c.waiting + [u]);
      assert Rescheduled(c, u, workerFiles, after);
      FirstFailure(c, n, u, workerFiles, after);
    }
  }

  lemma FreedIff(c: Cluster, n: nat, u: int, workerFiles: seq<int>, after: Cluster)
    requires Running(c, n) && n < u <= 2 * n && c.s.workerOf[u] !in c.s.live
    requires Rescheduled(c, u, workerFiles, after) && exists w :: CanTake(c.s, w)
    ensures u in after.s.workerOf && Chosen(c.s, workerFiles, after.s.workerOf[u])
    ensures Freed(c, n, u, after) <==> SomeInUse(c.s, n, after.s.workerOf[u])
  {
    UnplacedChosen(c.s, u, workerFiles);
    FirstFailure(c, n, u, workerFiles, after);
    var w :| Chosen(Unplaced(c.s, u), workerFiles, w) && RescheduledOn(c, u, w, after);
  }
}
