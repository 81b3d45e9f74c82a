/** The leader's state and the operations that change it. */
module LeaderService {
  import opened Scheduler
  import opened Sequences
  import opened Completion
  import opened Reroute
  import opened Assignment
  import opened Notices
  import WorkerQueue

  lemma BusyPrefix(s: State, workers: seq<int>, i: nat)
    requires i < |workers| && workers[i] in s.queues
    ensures Busy(s, workers[..i + 1]) <==> Busy(s, workers[..i]) || s.queues[workers[i]] != []
  {
    var more := workers[..i + 1];
    assert more[i] == workers[i];
    forall k | 0 <= k < i ensures more[k] == workers[..i][k] {
    }
  }

  /** A job of two tasks in each stage starts the completion protocol in its initial state. */
  lemma CreatedIsDispatched(c: Cluster, a: seq<int>, j: seq<int>, prev: seq<int>, ok: bool)
    requires Stage2Done(c, 2, a, j, prev, ok, 2)
    ensures FourTasks(UpTo(4))
    ensures Dispatched(System(Job(c.s.open, [], a, j), c.s.workerOf, 0, false), UpTo(4))
  {
    FillingIds(c.s, Min(4, MAX_TASK_PER_NODE * |c.s.live|), 4);
    var ids := UpTo(4);
    forall t ensures t in c.s.workerOf.Keys <==> t in ids {
      if 1 <= t <= 4 {
        assert ids[t - 1] == t;
      }
    }
    assert c.s.workerOf.Keys == set t | t in ids;
  }

  /** The tasks the leader has sent to worker w. */
  function GivenTo(s: State, w: int): set<int> {
    set t | t in s.workerOf && s.workerOf[t] == w
  }

  /** In a job that started with one task per worker, every completion report of every worker names a stage-1 task, so
      none is early. */
  lemma NoReportIsEarly(c: Cluster, w: int, events: seq<WorkerQueue.Event>, i: nat)
    requires Running(c, 2) && WorkerQueue.Feasible(events, GivenTo(c.s, w), {1, 2})
    requires i < |WorkerQueue.Run(events).reports|
    ensures FourTasks(UpTo(4)) && !IsReceiver(WorkerQueue.Run(events).reports[i].1, UpTo(4))
  {
    WorkerQueue.AloneReportsOwn(events, GivenTo(c.s, w), {1, 2});
    WorkerQueue.SendersReport(events, GivenTo(c.s, w), {1, 2}, i);
  }

  class Leader {
    var live: set<int>
    var queues: map<int, seq<int>>
    var workerOf: map<int, int>
    var open: set<int>
    var taskQueue: seq<int>
    var assignedTasks: seq<int>
    var completed: seq<int>
    var jobTasks: seq<int>
    var stage2: set<int>
    var outputs: map<int, int>
    var senders: map<int, seq<int>>

    ghost function Tasks(): State
      reads `live, `queues, `workerOf, `open
    {
      State(live, queues, workerOf, open)
    }

    ghost function Progress(): Job
      reads `open, `completed, `assignedTasks, `jobTasks
    {
      Job(open, completed, assignedTasks, jobTasks)
    }

    ghost function Routing(): Cluster
      reads this
    {
      Cluster(Tasks(), stage2, outputs, senders, taskQueue)
    }

    constructor ()
      ensures live == {} && HasWorkers(Tasks()) && Filling(Tasks(), 0, 0)
      ensures Progress() == Job({}, [], [], []) && taskQueue == []
    {
      live := {};
      queues := map[];
      workerOf, open := map[], {};
      taskQueue, assignedTasks, completed, jobTasks := [], [], [], [];
      stage2, outputs, senders := {}, map[], map[];
      new;
      for i := 0 to WORKER_COUNT
        invariant forall w :: w in queues <==> 0 <= w < i
        invariant forall w :: w in queues ==> queues[w] == []
        invariant live == {} && workerOf == map[] && open == {}
        invariant taskQueue == [] && assignedTasks == [] && completed == [] && jobTasks == []
      {
        queues := queues[i := []];
      }
      FillingStarts(Tasks());
    }

    // ----- assignment -----

    /** Any idle worker that holds the file, or none if there is none. Workers come in no particular order. */
    method AssignToPreferredWorker(t: int, workerFiles: seq<int>) returns (ok: bool, w: int)
      modifies `queues, `workerOf, `open
      ensures ok ==> Prefers(old(Tasks()), workerFiles, w) && Tasks() == Placed(old(Tasks()), t, w)
      ensures !ok ==> Tasks() == old(Tasks()) && forall v :: !Prefers(old(Tasks()), workerFiles, v)
      ensures ok ==> w in live && w in old(queues) && old(queues)[w] == [] && w + 1 in workerFiles
      ensures ok ==> queues == old(queues)[w := [t]] && workerOf == old(workerOf)[t := w] && open == old(open) + {t}
      ensures !ok ==> forall v :: v in live && v in queues && queues[v] == [] ==> v + 1 !in workerFiles
    {
      ok, w := false, -1;
      var rest := queues.Keys;
      while exists v :: v in rest
        invariant rest <= queues.Keys && Tasks() == old(Tasks())
        invariant forall v :: v in queues.Keys - rest ==> !Prefers(Tasks(), workerFiles, v)
        invariant forall v :: v in queues.Keys - rest && v in live && queues[v] == [] ==> v + 1 !in workerFiles
        decreases rest
      {
        var v :| v in rest;
        rest := rest - {v};
        if v in live && |queues[v]| < 1 && v + 1 in workerFiles {
          assert queues[v] == [] && queues[v] + [t] == [t];
          queues := queues[v := queues[v] + [t]];
          workerOf := workerOf[t := v];
          open := open + {t};
          return true, v;
        }
      }
    }

    method FindWorker(limit: nat) returns (ok: bool, w: int)
      ensures ok ==> w in live && w in queues && |queues[w]| < limit
      ensures !ok ==> forall v :: v in live && v in queues ==> |queues[v]| >= limit
    {
      ok, w := false, -1;
      var rest := queues.Keys;
      while exists v :: v in rest
        invariant rest <= queues.Keys
        invariant forall v :: v in queues.Keys - rest && v in live ==> |queues[v]| >= limit
        decreases rest
      {
        var v :| v in rest;
        rest := rest - {v};
        if v in live && |queues[v]| < limit {
          return true, v;
        }
      }
    }

    /** Any idle worker, else any with fewer than ten tasks. */
    method AssignToAvailableWorker(t: int) returns (ok: bool, w: int)
      modifies `queues, `workerOf, `open
      ensures ok ==> CanTake(old(Tasks()), w) && Tasks() == Placed(old(Tasks()), t, w)
      ensures !ok ==> Tasks() == old(Tasks()) && forall v :: !CanTake(old(Tasks()), v)
      ensures ok ==> && w in live && w in old(queues) && queues == old(queues)[w := old(queues)[w] + [t]]
                     && workerOf == old(workerOf)[t := w] && open == old(open) + {t}
      ensures ok ==> if exists v :: v in live && v in old(queues) && old(queues)[v] == [] then old(queues)[w] == []
                     else |old(queues)[w]| < MAX_TASK_PER_NODE
      ensures !ok ==> forall v :: v in live && v in queues ==> |queues[v]| >= MAX_TASK_PER_NODE
    {
      ok, w := FindWorker(1);
      if !ok {
        assert forall v :: v !in Idle(Tasks());
        ok, w := FindWorker(MAX_TASK_PER_NODE);
      }
      if ok {
        queues := queues[w := queues[w] + [t]];
        workerOf := workerOf[t := w];
        open := open + {t};
      }
    }

    /** The choice of both: a worker that holds the file if one is idle, else any that can take the task. */
    method AssignTask(t: int, workerFiles: seq<int>) returns (ok: bool, w: int)
      modifies `queues, `workerOf, `open
      ensures ok ==> Chosen(old(Tasks()), workerFiles, w) && CanTake(old(Tasks()), w)
      ensures ok ==> Tasks() == Placed(old(Tasks()), t, w)
      ensures !ok ==> Tasks() == old(Tasks()) && forall v :: !CanTake(old(Tasks()), v)
      ensures ok <==> exists v :: v in live && v in old(queues) && |old(queues)[v]| < MAX_TASK_PER_NODE
    {
      ok, w := AssignToPreferredWorker(t, workerFiles);
      if !ok {
        ok, w := AssignToAvailableWorker(t);
      }
    }

    // ----- a new job -----

    /** One round of stage 1. A task that finds no worker is queued at the leader and stays out of the task map, so that
        the next task gets the same id. */
    method AssignStage1Task(ghost i: nat, workerFiles: seq<int>, ok: bool, prev: seq<int>)
      returns (ok': bool, prev': seq<int>)
      requires Stage1Done(Tasks(), assignedTasks, jobTasks, taskQueue, prev, ok, workerFiles, i)
      modifies `queues, `workerOf, `open, `taskQueue, `assignedTasks, `jobTasks
      ensures Stage1Done(Tasks(), assignedTasks, jobTasks, taskQueue, prev', ok', workerFiles, i + 1)
    {
      hide Stage1Done;
      hide Chosen;
      hide CanTake;
      ghost var s, a, j, q := Tasks(), assignedTasks, jobTasks, taskQueue;
      ok', prev' := ok, prev;
      var id := |workerOf| + 1;
      jobTasks := jobTasks + [id];
      var placed, w := AssignTask(id, workerFiles);
      if placed {
        Stage1Placed(s, a, j, q, prev, ok, workerFiles, i, w, Tasks());
        assignedTasks := assignedTasks + [id];
        prev' := prev + [workerOf[id]];
      } else {
        Stage1Left(s, a, j, q, prev, ok, workerFiles, i);
        taskQueue := taskQueue + [id];
        ok' := false;
      }
    }

    method AssignStage1(n: nat, workerFiles: seq<int>) returns (ok: bool, prev: seq<int>)
      requires Stage1Done(Tasks(), assignedTasks, jobTasks, taskQueue, [], true, workerFiles, 0)
      modifies `queues, `workerOf, `open, `taskQueue, `assignedTasks, `jobTasks
      ensures Stage1Done(Tasks(), assignedTasks, jobTasks, taskQueue, prev, ok, workerFiles, n)
    {
      hide Stage1Done;
      ok, prev := true, [];
      for i := 0 to n
        invariant Stage1Done(Tasks(), assignedTasks, jobTasks, taskQueue, prev, ok, workerFiles, i)
      {
        ok, prev := AssignStage1Task(i, workerFiles, ok, prev);
      }
    }

    /** The new task's part in the routing. c is the routing without it. */
    method NoteStage2Task(ghost c: Cluster, i: int, id: int, prev: seq<int>)
      requires id in workerOf && c.stage2 == stage2 && c.outputs == outputs && c.senders == senders
      modifies `stage2, `outputs, `senders
      ensures Routing() == WithTask(c, prev, i, id, Tasks()).(waiting := taskQueue)
      ensures taskQueue == c.waiting ==> Routing() == WithTask(c, prev, i, id, Tasks())
    {
      stage2 := stage2 + {id};
      outputs := outputs[i := workerOf[id]];
      senders := senders[workerOf[id] := prev];
    }

    method AssignStage2Task(n: nat, i: nat, ok: bool, prev: seq<int>) returns (ok': bool)
      requires i < n && Stage2Done(Routing(), n, assignedTasks, jobTasks, prev, ok, i)
      modifies `queues, `workerOf, `open, `taskQueue, `assignedTasks, `jobTasks, `stage2, `outputs, `senders
      ensures Stage2Done(Routing(), n, assignedTasks, jobTasks, prev, ok', i + 1)
    {
      hide Stage2Done;
      hide CanTake;
      hide WithTask;
      hide Noted2;
      hide Filling;
      ghost var c, a, j := Routing(), assignedTasks, jobTasks;
      ok' := ok;
      var id := |workerOf| + 1;
      var placed, w := AssignToAvailableWorker(id);
      if placed {
        Stage2Placed(c, n, a, j, prev, ok, i, w, Tasks());
      } else {
        taskQueue := taskQueue + [id];
        ok' := false;
        workerOf := workerOf[id := 0];
        open := open + {id};
        Stage2Left(c, n, a, j, prev, ok, i, Tasks());
      }
      assert id == n + i + 1;
      NoteStage2Task(c, i, id, prev);
      jobTasks := jobTasks + [id];
      assignedTasks := assignedTasks + [id];
    }

    method AssignStage2(n: nat, prev: seq<int>) returns (ok: bool)
      requires Stage2Done(Routing(), n, assignedTasks, jobTasks, prev, true, 0)
      modifies `queues, `workerOf, `open, `taskQueue, `assignedTasks, `jobTasks, `stage2, `outputs, `senders
      ensures Stage2Done(Routing(), n, assignedTasks, jobTasks, prev, ok, n)
    {
      hide Stage2Done;
      ok := true;
      for i := 0 to n
        invariant Stage2Done(Routing(), n, assignedTasks, jobTasks, prev, ok, i)
      {
        ok := AssignStage2Task(n, i, ok, prev);
      }
    }

    /** Assigns both stages. The tasks are sent only when all of stage 1 found workers, even if some of stage 2 did
        not. */
    method AssignTasks(n: nat, workerFiles: seq<int>) returns (sent: bool, ghost prev: seq<int>, ghost ok: bool)
      requires Filling(Tasks(), 0, 0) && taskQueue == [] && assignedTasks == [] && jobTasks == []
      requires stage2 == {} && senders == map[] && forall p :: p in outputs <==> 0 <= p < n
      modifies `queues, `workerOf, `open, `taskQueue, `assignedTasks, `jobTasks, `stage2, `outputs, `senders
      ensures sent <==> 0 < n <= MAX_TASK_PER_NODE * |live|
      ensures sent ==> Stage2Done(Routing(), n, assignedTasks, jobTasks, prev, ok, n)
      ensures !sent ==> && Stage1Done(Tasks(), assignedTasks, jobTasks, taskQueue, prev, ok, workerFiles, n)
                        && stage2 == {} && senders == map[] && outputs == old(outputs)
    {
      Stage1Starts(Tasks(), workerFiles);
      var placed, workers := AssignStage1(n, workerFiles);
      ok, prev := placed, workers;
      FillingIds(Tasks(), Min(n, MAX_TASK_PER_NODE * |live|), Min(n, MAX_TASK_PER_NODE * |live|));
      sent := placed && |assignedTasks| > 0;
      if sent {
        Stage2Starts(Routing(), n, assignedTasks, jobTasks, prev, workerFiles);
        ok := AssignStage2(n, workers);
      }
    }

    method ClearQueues()
      requires HasWorkers(Tasks())
      modifies `queues
      ensures queues.Keys == old(queues.Keys) && forall w :: w in queues ==> queues[w] == []
    {
      for w := 0 to WORKER_COUNT
        invariant queues.Keys == old(queues.Keys)
        invariant forall v :: 0 <= v < w ==> v in queues && queues[v] == []
      {
        queues := queues[w := []];
      }
    }

    /** The partitions have no target at first. */
    method ClearTargets(n: nat)
      modifies `outputs, `senders
      ensures senders == map[] && forall p :: p in outputs <==> 0 <= p < n
      ensures forall p :: p in outputs ==> outputs[p] == -1
    {
      outputs, senders := map[], map[];
      for p := 0 to n
        invariant senders == map[] && forall q :: q in outputs <==> 0 <= q < p
        invariant forall q :: q in outputs ==> outputs[q] == -1
      {
        outputs := outputs[p := -1];
      }
    }

    method ForgetJob(n: nat)
      requires HasWorkers(Tasks()) && live <= queues.Keys
      modifies `queues, `workerOf, `open, `taskQueue, `assignedTasks, `completed, `jobTasks, `stage2, `outputs, `senders
      ensures Filling(Tasks(), 0, 0)
      ensures taskQueue == assignedTasks == completed == jobTasks == [] && stage2 == {} && senders == map[]
      ensures forall p :: p in outputs <==> 0 <= p < n
      ensures forall p :: p in outputs ==> outputs[p] == -1
    {
      hide Filling;
      workerOf, open, jobTasks, assignedTasks, completed, taskQueue, stage2 := map[], {}, [], [], [], [], {};
      ClearQueues();
      FillingStarts(Tasks());
      ClearTargets(n);
    }

    /** A new job forgets the tasks of the last one. It is sent exactly when the live workers have room for stage 1.
        With a live worker for each of its 2n tasks it starts with one task per worker. */
    method CreateJob(n: nat, workerFiles: seq<int>) returns (sent: bool, ghost prev: seq<int>, ghost ok: bool)
      requires HasWorkers(Tasks()) && live <= queues.Keys
      modifies `queues, `workerOf, `open, `taskQueue, `assignedTasks, `completed, `jobTasks, `stage2, `outputs, `senders
      ensures sent <==> 0 < n <= MAX_TASK_PER_NODE * |live|
      ensures completed == [] && open == workerOf.Keys
      ensures sent ==> && Stage2Done(Routing(), n, assignedTasks, jobTasks, prev, ok, n)
                       && assignedTasks == jobTasks == UpTo(2 * n)
      ensures sent && 2 * n <= |live| ==> Running(Routing(), n)
      ensures !sent ==> && Stage1Done(Tasks(), assignedTasks, jobTasks, taskQueue, prev, ok, workerFiles, n)
                        && stage2 == {} && senders == map[] && forall p :: p in outputs ==> outputs[p] == -1
    {
      hide Filling;
      hide Running;
      hide Stage1Done;
      ForgetJob(n);
      sent, prev, ok := AssignTasks(n, workerFiles);
      if sent {
        RoomForAll(Routing(), n, assignedTasks, jobTasks, prev, ok);
      }
      CreatedOpen(Routing(), n, sent, assignedTasks, jobTasks, prev, ok, workerFiles);
    }

    // ----- failures -----

    /** A failure empties the worker's queue at once; its tasks are handled later. */
    method WorkerFailed(w: int)
      requires w in queues
      modifies `live, `queues
      ensures Tasks() == Scheduler.Next(old(Tasks()), Die(w))
      ensures live == old(live) - {w} && queues == old(queues)[w := []]
    {
      live := live - {w};
      queues := queues[w := []];
    }

    method WorkerJoined(w: int)
      requires w in queues
      modifies `live
      ensures Tasks() == Scheduler.Next(old(Tasks()), Join(w))
      ensures live == old(live) + {w}
    {
      live := live + {w};
    }

    /** Some partition whose target is the failed worker, or -1 if it is the target of none. */
    method GetPartitionForFailedNode(failed: int) returns (p: int)
      ensures IsPartitionOf(outputs, failed, p)
    {
      p := -1;
      var rest := outputs.Keys;
      while exists q :: q in rest
        invariant rest <= outputs.Keys
        invariant forall q :: q in outputs.Keys - rest ==> outputs[q] != failed
        decreases rest
      {
        var q :| q in rest;
        rest := rest - {q};
        if outputs[q] == failed {
          return q;
        }
      }
    }

    /** For every task queued on one of the failed worker's senders, the failed worker's partition is set to the worker
        of the rescheduled task. All tasks of a job share its partitions. */
    method UpdateSenderWorkersForFailedNode(t: int, failed: int)
      requires t in workerOf
      requires forall i :: 0 <= i < |SendersOf(Routing(), failed)| ==> SendersOf(Routing(), failed)[i] in queues
      modifies `outputs
      ensures Rerouted(old(Routing()), failed, workerOf[t], Routing())
    {
      var workers := if failed in senders then senders[failed] else [];
      assert workers == SendersOf(Routing(), failed) && forall i :: 0 <= i < |workers| ==> workers[i] in queues;
      var p := GetPartitionForFailedNode(failed);
      ghost var target := workerOf[t];
      for i := 0 to |workers|
        invariant outputs == if Busy(Tasks(), workers[..i]) then old(outputs)[p := target] else old(outputs)
      {
        var queue := queues[workers[i]];
        BusyPrefix(Tasks(), workers, i);
        for k := 0 to |queue|
          invariant outputs == if Busy(Tasks(), workers[..i]) || k > 0 then old(outputs)[p := target] else old(outputs)
        {
          outputs := outputs[p := workerOf[t]];
        }
      }
      assert workers[..|workers|] == workers;
    }

    /** Reassigns a failed worker's task. For a stage-2 task the senders are then told the new worker. */
    method RescheduleSplitTask(t: int, workerFiles: seq<int>)
      requires t in workerOf && t in open
      requires forall w, i :: w in senders && 0 <= i < |senders[w]| ==> senders[w][i] in queues
      modifies `queues, `workerOf, `open, `taskQueue, `outputs
      ensures Rescheduled(old(Routing()), t, workerFiles, Routing())
      ensures if exists w :: w in live && w in old(queues) && |old(queues)[w]| < MAX_TASK_PER_NODE
              then && workerOf[t] in live && workerOf[t] in old(queues) && taskQueue == old(taskQueue)
                   && queues == old(queues)[workerOf[t] := old(queues)[workerOf[t]] + [t]]
              else workerOf[t] == -1 && taskQueue == old(taskQueue) + [t] && queues == old(queues)
    {
      ghost var c := Routing();
      var failed := workerOf[t];
      workerOf := workerOf[t := -1];
      assert Tasks() == Unplaced(c.s, t);
      var placed, w := AssignTask(t, workerFiles);
      if !placed {
        taskQueue := taskQueue + [t];
        return;
      }
      assert Tasks() == Placed(Unplaced(c.s, t), t, w);
      if t !in stage2 {
        assert RescheduledOn(c, t, w, Routing());
        return;
      }
      ghost var mid := Routing();
      UpdateSenderWorkersForFailedNode(t, failed);
      assert Rerouted(c, failed, w, Routing());
    }

    /** The first open task found that names the failed worker is rescheduled, and no other. */
    method HandleWorkerFailure(failed: int, workerFiles: int -> seq<int>) returns (t: int)
      requires forall w, i :: w in senders && 0 <= i < |senders[w]| ==> senders[w][i] in queues
      modifies `queues, `workerOf, `open, `taskQueue, `outputs
      ensures if exists u :: Names(old(Tasks()), u, failed)
              then Names(old(Tasks()), t, failed) && Rescheduled(old(Routing()), t, workerFiles(t), Routing())
              else t == -1 && Routing() == old(Routing())
      ensures (exists u :: u in old(open) && u in old(workerOf) && old(workerOf)[u] == failed) ==>
                && t in old(open) && t in old(workerOf) && old(workerOf)[t] == failed
                && Rescheduled(old(Routing()), t, workerFiles(t), Routing())
    {
      t := -1;
      var rest := workerOf.Keys;
      while exists u :: u in rest
        invariant rest <= workerOf.Keys && Routing() == old(Routing())
        invariant forall u :: u in workerOf.Keys - rest ==> !Names(Tasks(), u, failed)
        invariant forall u :: u in workerOf.Keys - rest && u in open ==> workerOf[u] != failed
        decreases rest
      {
        var u :| u in rest;
        rest := rest - {u};
        if u in open && workerOf[u] == failed {
          assert Names(old(Tasks()), u, failed);
          RescheduleSplitTask(u, workerFiles(u));
          return u;
        }
      }
    }

    // ----- completion -----

    method RemoveTaskFromWorkerQueue(worker: int, t: int)
      modifies `queues
      ensures queues == if worker in old(queues) then old(queues)[worker := Dropped(old(queues)[worker], t)]
                        else old(queues)
    {
      if worker !in queues {
        return;
      }
      var queue := queues[worker];
      var i := 0;
      while i < |queue|
        invariant 0 <= i <= |queue| && queues == old(queues)
        invariant forall j :: 0 <= j < i ==> queue[j] != t
      {
        if queue[i] == t {
          DroppedAt(queue, t, i);
          queues := queues[worker := queue[..i] + queue[i + 1..]];
          return;
        }
        i := i + 1;
      }
      DroppedAt(queue, t, i);
    }

    /** The task's entry in the map becomes nil even when there was none. */
    method MarkTaskCompleted(t: int)
      modifies `queues, `workerOf, `open, `completed
      ensures Tasks() == Noted(old(Tasks()), t) && Progress() == Marked(old(Progress()), t)
      ensures completed == old(completed) + if t in old(open) then [t] else []
      ensures old(GoodQueues(Tasks())) ==>
                GoodQueues(Tasks()) && OnlyLeft(old(queues), queues, completed[|old(completed)|..])
    {
      if GoodQueues(Tasks()) {
        NoticeLeaves(Tasks(), t);
      }
      ghost var more := if t in open then [t] else [];
      assert (completed + more)[|completed|..] == more;
      if t !in open {
        workerOf := if t in workerOf then workerOf else workerOf[t := -1];
        return;
      }
      open := open - {t};
      if t in workerOf {
        RemoveTaskFromWorkerQueue(workerOf[t], t);
      }
      completed := completed + [t];
    }

    method CheckIfTaskCompleted(t: int) returns (found: bool)
      ensures found <==> t in completed
    {
      for i := 0 to |completed|
        invariant t !in completed[..i]
      {
        if completed[i] == t {
          return true;
        }
      }
      return false;
    }

    method CheckIfAllSenderCompleted() returns (all: bool)
      ensures all == AllSendersCompleted(Progress())
      ensures all <==> && |completed| == 2 && |assignedTasks| >= 2
                       && assignedTasks[0] in completed && assignedTasks[1] in completed
    {
      if |completed| != NUM_OF_TASKS_PER_JOB || |assignedTasks| < NUM_OF_TASKS_PER_JOB {
        return false;
      }
      for i := 0 to NUM_OF_TASKS_PER_JOB
        invariant forall k :: 0 <= k < i ==> assignedTasks[k] in completed
      {
        var found := CheckIfTaskCompleted(assignedTasks[i]);
        if !found {
          return false;
        }
      }
      return true;
    }

    /** Marks the receivers' tasks until one has no connection. Whether an ack arrives makes no difference. */
    method SendAckToReceiver(conns: set<int>) returns (connected: bool)
      requires |assignedTasks| >= 2 * NUM_OF_TASKS_PER_JOB && forall t :: t in assignedTasks ==> t in workerOf
      modifies `queues, `workerOf, `open, `completed
      ensures Progress() == AckRound(old(Progress()), old(workerOf), conns, NUM_OF_TASKS_PER_JOB)
      ensures workerOf == old(workerOf) && old(completed) <= completed
      ensures old(GoodQueues(Tasks())) ==>
                GoodQueues(Tasks()) && OnlyLeft(old(queues), queues, completed[|old(completed)|..])
    {
      connected := true;
      NobodyLeft(queues);
      assert completed[|completed|..] == [];
      var i := NUM_OF_TASKS_PER_JOB;
      while i < 2 * NUM_OF_TASKS_PER_JOB
        invariant NUM_OF_TASKS_PER_JOB <= i <= 2 * NUM_OF_TASKS_PER_JOB
        invariant assignedTasks == old(assignedTasks) && jobTasks == old(jobTasks) && workerOf == old(workerOf)
        invariant AckRound(Progress(), workerOf, conns, i)
               == AckRound(old(Progress()), workerOf, conns, NUM_OF_TASKS_PER_JOB)
        invariant old(completed) <= completed
        invariant old(GoodQueues(Tasks())) ==>
                    GoodQueues(Tasks()) && OnlyLeft(old(queues), queues, completed[|old(completed)|..])
      {
        var t := assignedTasks[i];
        assert t in assignedTasks;
        ghost var done, was := completed, queues;
        MarkTaskCompleted(t);
        SliceAcross(old(completed), done, completed);
        if old(GoodQueues(Tasks())) {
          OnlyLeftTwice(old(queues), was, queues, done[|old(completed)|..], completed[|done|..]);
        }
        if workerOf[t] !in conns {
          return false;
        }
        i := i + 1;
      }
    }

    /** A completion notice from a stage-1 worker. */
    method SendNotification(t: int, conns: set<int>)
      requires HasReceivers(Progress()) && forall u :: u in assignedTasks ==> u in workerOf
      modifies `queues, `workerOf, `open, `completed
      ensures t in old(workerOf) ==> workerOf == old(workerOf)
      ensures Progress() == Noticed(old(Progress()), t, workerOf, conns)
      ensures old(completed) <= completed
      ensures old(GoodQueues(Tasks())) ==>
                GoodQueues(Tasks()) && OnlyLeft(old(queues), queues, completed[|old(completed)|..])
    {
      MarkTaskCompleted(t);
      ghost var done, was := completed, queues;
      var all := CheckIfAllSenderCompleted();
      if all {
        var connected := SendAckToReceiver(conns);
        SliceAcross(old(completed), done, completed);
        if old(GoodQueues(Tasks())) {
          OnlyLeftTwice(old(queues), was, queues, done[|old(completed)|..], completed[|done|..]);
        }
      }
    }

    /** Cuts the completed tasks out of the job's list, in place. */
    method RemoveCompleted()
      modifies `jobTasks
      ensures jobTasks == Remaining(old(jobTasks), completed)
    {
      var i := 0;
      while i < |jobTasks|
        invariant 0 <= i <= |jobTasks|
        invariant jobTasks[..i] + Remaining(jobTasks[i..], completed) == Remaining(old(jobTasks), completed)
        decreases |jobTasks| - i
      {
        RemainingStep(jobTasks, completed, i);
        hide Remaining;
        var found := CheckIfTaskCompleted(jobTasks[i]);
        if found {
          jobTasks := jobTasks[..i] + jobTasks[i + 1..];
        } else {
          i := i + 1;
        }
      }
      assert jobTasks[..i] == jobTasks;
    }

    /** One tick of the monitor. */
    method MonitorTick() returns (declared: bool)
      modifies `assignedTasks, `completed, `jobTasks
      ensures declared == Declares(old(Progress())) && Progress() == Ticked(old(Progress()))
      ensures declared <==> old(assignedTasks) != [] && forall t :: t in old(jobTasks) ==> t in old(completed)
      ensures declared ==> assignedTasks == completed == jobTasks == []
      ensures !declared ==> && assignedTasks == old(assignedTasks) && completed == old(completed)
                            && jobTasks == if assignedTasks == [] then old(jobTasks)
                                           else Remaining(old(jobTasks), completed)
    {
      AllRemainIff(jobTasks, completed);
      declared := false;
      if |assignedTasks| != 0 {
        RemoveCompleted();
        declared := |jobTasks| == 0;
      }
      if declared {
        assignedTasks, completed, jobTasks := [], [], [];
      }
    }
  }
}
