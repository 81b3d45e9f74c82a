/** The leader's task queues: assignment, completion, failure and rescheduling. */
module Scheduler {
  import opened Sequences

  const WORKER_COUNT := 10
  const MAX_TASK_PER_NODE := 10

  /** live: workers marked alive; queues: the leader's copy of each worker's queue; workerOf: the worker each task
      in the task map names (its keys are the keys of the task map); open: the tasks of the map not yet set to nil. */
  datatype State = State(live: set<int>, queues: map<int, seq<int>>, workerOf: map<int, int>, open: set<int>)

  function Idle(s: State): set<int> {
    set w | w in s.live && w in s.queues && s.queues[w] == []
  }

  /** An idle live worker, or, when there is none, a live one with room. */
  predicate CanTake(s: State, w: int) {
    && w in s.live && w in s.queues
    && (s.queues[w] == [] || (Idle(s) == {} && |s.queues[w]| < MAX_TASK_PER_NODE))
  }

  /** An idle live worker whose node holds the input file. Workers count from 0 and nodes from 1. */
  predicate Prefers(s: State, workerFiles: seq<int>, w: int) {
    w in Idle(s) && (w + 1) in workerFiles
  }

  function Placed(s: State, t: int, w: int): State
    requires w in s.queues
  {
    s.(queues := s.queues[w := s.queues[w] + [t]], workerOf := s.workerOf[t := w], open := s.open + {t})
  }

  function Unplaced(s: State, t: int): State {
    s.(workerOf := s.workerOf[t := -1])
  }

  /** A stage-2 task that found no worker keeps the worker id 0 it was created with. */
  function LeftOut(s: State, t: int): State {
    s.(workerOf := s.workerOf[t := 0], open := s.open + {t})
  }

  /** A completion notice: nothing for an unknown or completed task but a nil entry in the map. */
  function Noted(s: State, t: int): State {
    if t !in s.open then s.(workerOf := if t in s.workerOf then s.workerOf else s.workerOf[t := -1])
    else
      s.(open := s.open - {t},
         queues := if t in s.workerOf && s.workerOf[t] in s.queues
                   then s.queues[s.workerOf[t] := Dropped(s.queues[s.workerOf[t]], t)] else s.queues)
  }

  function NextId(s: State): int {
    |s.workerOf| + 1
  }

  // ----- steps -----

  datatype Step =
    | Assign(worker: int)
    | LeaveUnassigned
    | Complete(task: int)
    | Die(worker: int)
    | Join(worker: int)
    | Reschedule(task: int, worker: int)
    | RescheduleNowhere(task: int)

  predicate Enabled(s: State, step: Step) {
    match step
    case Assign(w) => CanTake(s, w)
    case LeaveUnassigned => true
    case Complete(t) => t in s.workerOf
    case Die(w) => w in s.queues
    case Join(w) => w in s.queues
    // The failure of a worker is handled while the worker is still down.
    case Reschedule(t, w) => t in s.open && t in s.workerOf && s.workerOf[t] !in s.live && CanTake(Unplaced(s, t), w)
    case RescheduleNowhere(t) => t in s.open && t in s.workerOf && s.workerOf[t] !in s.live
  }

  function Next(s: State, step: Step): State
    requires Enabled(s, step)
  {
    match step
    case Assign(w) => Placed(s, NextId(s), w)
    case LeaveUnassigned => LeftOut(s, NextId(s))
    case Complete(t) => Noted(s, t)
    case Die(w) => s.(live := s.live - {w}, queues := s.queues[w := []])
    case Join(w) => s.(live := s.live + {w})
    case Reschedule(t, w) => Placed(Unplaced(s, t), t, w)
    case RescheduleNowhere(t) => Unplaced(s, t)
  }

  ghost predicate GoodQueue(s: State, w: int)
    requires w in s.queues
  {
    && NoRepeats(s.queues[w])
    && |s.queues[w]| <= MAX_TASK_PER_NODE
    && (w !in s.live ==> s.queues[w] == [])
    && (forall t :: t in s.queues[w] ==> t in s.workerOf && s.workerOf[t] == w)
  }

  /** Queues are short, free of repeats and empty for dead workers, and every queued task names its queue's owner,
      so that no task is in two queues; task ids run from 1 without gaps, so that a new task gets a new id. */
  ghost predicate Inv(s: State) {
    && s.live <= s.queues.Keys
    && (forall w :: w in s.queues ==> GoodQueue(s, w))
    && (forall t :: t in s.workerOf <==> 1 <= t <= |s.workerOf|)
    && s.open <= s.workerOf.Keys
  }

  lemma InOneQueueOnly(s: State, t: int, v: int, w: int)
    requires Inv(s) && v in s.queues && w in s.queues && t in s.queues[v] && t in s.queues[w]
    ensures v == w
  {
  }

  lemma NewKey(m: map<int, int>, id: int, w: int)
    requires forall t :: t in m <==> 1 <= t <= |m|
    requires id == |m| + 1
    ensures var m' := m[id := w]; |m'| == |m| + 1 && forall t :: t in m' <==> 1 <= t <= |m'|
  {
    var m' := m[id := w];
    assert m'.Keys == m.Keys + {id};
    assert |m'.Keys| == |m.Keys| + 1;
  }

  lemma SameKeys(m: map<int, int>, t: int, w: int)
    requires t in m
    ensures |m[t := w]| == |m| && m[t := w].Keys == m.Keys
  {
    assert m[t := w].Keys == m.Keys;
    assert |m[t := w].Keys| == |m.Keys|;
  }

  lemma PlacingNewKeeps(s: State, w: int)
    requires Inv(s) && CanTake(s, w)
    ensures Inv(Placed(s, NextId(s), w))
  {
    NewKey(s.workerOf, NextId(s), w);
  }

  lemma LeavingKeeps(s: State)
    requires Inv(s)
    ensures Inv(LeftOut(s, NextId(s)))
  {
    NewKey(s.workerOf, NextId(s), 0);
  }

  lemma NotingKeeps(s: State, t: int)
    requires Inv(s) && t in s.workerOf
    ensures Inv(Noted(s, t))
  {
    if t in s.open && s.workerOf[t] in s.queues {
      assert GoodQueue(s, s.workerOf[t]);
      DroppedKeeps(s.queues[s.workerOf[t]], t);
    }
  }

  lemma UnplacingKeeps(s: State, t: int)
    requires Inv(s) && t in s.workerOf && s.workerOf[t] !in s.live
    ensures Inv(Unplaced(s, t))
    ensures forall v :: v in s.queues ==> t !in s.queues[v]
  {
    SameKeys(s.workerOf, t, -1);
  }

  lemma PlacingKnownKeeps(s: State, t: int, w: int)
    requires Inv(s) && CanTake(s, w) && t in s.workerOf && forall v :: v in s.queues ==> t !in s.queues[v]
    ensures Inv(Placed(s, t, w))
  {
    SameKeys(s.workerOf, t, w);
  }

  lemma DyingKeeps(s: State, w: int)
    requires Inv(s) && w in s.queues
    ensures Inv(Next(s, Die(w))) && Inv(Next(s, Join(w)))
  {
  }

  lemma StepKeeps(s: State, step: Step)
    requires Inv(s) && Enabled(s, step)
    ensures Inv(Next(s, step))
  {
    hide Inv;
    hide CanTake;
    match step
    case Assign(w) => PlacingNewKeeps(s, w);
    case LeaveUnassigned => LeavingKeeps(s);
    case Complete(t) => NotingKeeps(s, t);
    case Die(w) => DyingKeeps(s, w);
    case Join(w) => DyingKeeps(s, w);
    case Reschedule(t, w) =>
      UnplacingKeeps(s, t);
      PlacingKnownKeeps(Unplaced(s, t), t, w);
    case RescheduleNowhere(t) => UnplacingKeeps(s, t);
  }

  ghost predicate IsRun(states: seq<State>, steps: seq<Step>) {
    && |states| == |steps| + 1
    && (forall i :: 0 <= i < |steps| ==> Enabled(states[i], steps[i]) && states[i + 1] == Next(states[i], steps[i]))
  }

  lemma {:induction false} EveryRunKeeps(states: seq<State>, steps: seq<Step>, i: nat)
    requires IsRun(states, steps) && Inv(states[0]) && i < |states|
    ensures Inv(states[i])
  {
    if i > 0 {
      EveryRunKeeps(states, steps, i - 1);
      StepKeeps(states[i - 1], steps[i - 1]);
    }
  }

  /** Rescheduling is safe exactly when the task is no longer queued, which a worker that is still down when its
      failure is handled guarantees and one that has rejoined and been given work does not. */
  lemma RescheduleIsSafeIff(s: State, t: int, w: int)
    requires Inv(s) && t in s.open && CanTake(Unplaced(s, t), w)
    ensures Inv(Placed(Unplaced(s, t), t, w)) <==> forall v :: v in s.queues ==> t !in s.queues[v]
  {
    SameKeys(s.workerOf, t, -1);
    SameKeys(s.workerOf, t, w);
    var s' := Placed(Unplaced(s, t), t, w);
    if v :| v in s.queues && t in s.queues[v] {
      assert t in s'.queues[w];
      if v == w {
        var i :| 0 <= i < |s.queues[w]| && s.queues[w][i] == t;
        assert s'.queues[w][i] == s'.queues[w][|s.queues[w]|];
      } else {
        assert t in s'.queues[v];
      }
    }
  }

  lemma NextAfterStray(m: map<int, int>, t: int)
    requires forall u :: u in m <==> 1 <= u <= |m|
    requires t !in m
    ensures var m' := m[t := -1]; |m'| == |m| + 1 && (|m| + 2 in m' <==> t == |m| + 2)
  {
    assert m[t := -1].Keys == m.Keys + {t};
    assert |m[t := -1].Keys| == |m.Keys| + 1;
  }

  /** A notice for a task the map does not hold leaves a nil entry behind, and the next task's id is then taken
      exactly when the notice named the id after it. */
  lemma StrayNoticeClashesIff(s: State, t: int)
    requires Inv(s)
    ensures NextId(Noted(s, t)) in Noted(s, t).workerOf <==> t == |s.workerOf| + 2
  {
    hide GoodQueue;
    hide Dropped;
    if t !in s.workerOf {
      NextAfterStray(s.workerOf, t);
    }
  }

  // ----- filling the workers with the tasks of one job -----

  ghost predicate HasWorkers(s: State) {
    forall w :: w in s.queues <==> 0 <= w < WORKER_COUNT
  }

  /** The free places on the live workers below k. */
  function Free(s: State, k: nat): int {
    if k == 0 then 0
    else
      Free(s, k - 1)
      + (if k - 1 in s.live && k - 1 in s.queues then MAX_TASK_PER_NODE - |s.queues[k - 1]| else 0)
  }

  ghost predicate ShortQueues(s: State) {
    forall w :: w in s.queues ==> |s.queues[w]| <= MAX_TASK_PER_NODE
  }

  lemma {:induction false} FreeIff(s: State, k: nat)
    requires ShortQueues(s)
    ensures Free(s, k) >= 0
    ensures Free(s, k) > 0
       <==> exists w :: 0 <= w < k && w in s.live && w in s.queues && |s.queues[w]| < MAX_TASK_PER_NODE
  {
    if k > 0 {
      FreeIff(s, k - 1);
    }
  }

  lemma {:induction false} FreeAfterPlaced(s: State, t: int, w: int, k: nat)
    requires w in s.live && w in s.queues && 0 <= w
    ensures Free(Placed(s, t, w), k) == Free(s, k) - (if w < k then 1 else 0)
  {
    if k > 0 {
      FreeAfterPlaced(s, t, w, k - 1);
    }
  }

  lemma {:induction false} FreeUnchanged(s: State, s': State, k: nat)
    requires s.queues == s'.queues
    requires forall w :: 0 <= w < k ==> (w in s.live <==> w in s'.live)
    ensures Free(s, k) == Free(s', k)
  {
    if k > 0 {
      FreeUnchanged(s, s', k - 1);
    }
  }

  lemma {:induction false} FreeWhenEmpty(s: State, k: nat)
    requires forall w :: w in s.live ==> 0 <= w < k && w in s.queues && s.queues[w] == []
    ensures Free(s, k) == MAX_TASK_PER_NODE * |s.live|
    decreases k
  {
    if k == 0 {
      assert forall w :: w !in s.live;
      assert s.live == {};
    } else {
      var s' := s.(live := s.live - {k - 1});
      FreeWhenEmpty(s', k - 1);
      FreeUnchanged(s, s', k - 1);
    }
  }

  /** A task can be placed exactly when a live worker has a free place. */
  lemma CanTakeIffFree(s: State)
    requires Inv(s) && HasWorkers(s)
    ensures (exists w :: CanTake(s, w)) <==> Free(s, WORKER_COUNT) > 0
  {
    assert ShortQueues(s) by {
      assert forall w :: w in s.queues ==> GoodQueue(s, w);
    }
    FreeIff(s, WORKER_COUNT);
    if v :| v in Idle(s) {
      assert CanTake(s, v);
      assert |s.queues[v]| < MAX_TASK_PER_NODE;
    } else if w :| 0 <= w < WORKER_COUNT && w in s.live && w in s.queues && |s.queues[w]| < MAX_TASK_PER_NODE {
      assert forall v :: v !in Idle(s);
      assert CanTake(s, w);
    }
  }

  ghost predicate Counted(s: State, placed: nat, total: nat) {
    && Inv(s) && HasWorkers(s)
    && placed <= total == |s.workerOf| && s.open == s.workerOf.Keys
    && Free(s, WORKER_COUNT) == MAX_TASK_PER_NODE * |s.live| - placed
    && (placed < total ==> placed == MAX_TASK_PER_NODE * |s.live|)
  }

  ghost predicate Queued(s: State, placed: nat, total: nat)
    requires forall t :: 1 <= t <= total ==> t in s.workerOf
  {
    && (forall t :: 1 <= t <= placed <= total ==>
          s.workerOf[t] in s.live && s.workerOf[t] in s.queues && t in s.queues[s.workerOf[t]])
    && (forall t :: placed < t <= total ==> s.workerOf[t] == 0)
    && (forall w, t :: w in s.queues && t in s.queues[w] ==> 1 <= t <= placed)
  }

  ghost predicate Spread(s: State, placed: nat) {
    && |Idle(s)| >= |s.live| - placed
    && (placed <= |s.live| ==> forall w :: w in s.queues ==> |s.queues[w]| <= 1)
    && (forall w :: w in s.queues && |s.queues[w]| > 1 ==> Idle(s) == {})
  }

  /** Tasks 1..total exist, and exactly the first `placed` of them are queued. The others found every live worker
      full and keep the worker id 0. As long as there is a live worker for each task, none has two. */
  ghost predicate Filling(s: State, placed: nat, total: nat) {
    Counted(s, placed, total) && Queued(s, placed, total) && Spread(s, placed)
  }

  lemma FillingIds(s: State, placed: nat, total: nat)
    requires Filling(s, placed, total)
    ensures |s.workerOf| == total && forall t :: t in s.workerOf <==> 1 <= t <= total
    ensures placed <= total && placed <= MAX_TASK_PER_NODE * |s.live|
  {
    assert ShortQueues(s) by {
      assert forall w :: w in s.queues ==> GoodQueue(s, w);
    }
    FreeIff(s, WORKER_COUNT);
  }

  lemma FillingStarts(s: State)
    requires HasWorkers(s) && s.live <= s.queues.Keys && s.workerOf == map[] && s.open == {}
    requires forall w :: w in s.queues ==> s.queues[w] == []
    ensures Filling(s, 0, 0)
  {
    FreeWhenEmpty(s, WORKER_COUNT);
    assert Idle(s) == s.live;
  }

  lemma IdleAfterPlaced(s: State, t: int, w: int)
    requires w in s.queues
    ensures Idle(Placed(s, t, w)) == Idle(s) - {w}
    ensures |Idle(Placed(s, t, w))| >= |Idle(s)| - 1
  {
    assert Idle(Placed(s, t, w)) == Idle(s) - {w};
  }

  lemma PlacingCounts(s: State, placed: nat, total: nat, w: int)
    requires Counted(s, placed, total) && CanTake(s, w)
    ensures placed == total && Counted(Placed(s, NextId(s), w), placed + 1, total + 1)
  {
    CanTakeIffFree(s);
    StepKeeps(s, Assign(w));
    hide Inv;
    hide CanTake;
    FreeAfterPlaced(s, NextId(s), w, WORKER_COUNT);
    NewKey(s.workerOf, NextId(s), w);
  }

  lemma PlacingQueues(s: State, placed: nat, id: int, w: int)
    requires forall t :: t in s.workerOf <==> 1 <= t <= placed
    requires id == placed + 1 == |s.workerOf| + 1 && w in s.live && w in s.queues
    requires Queued(s, placed, placed)
    ensures forall t :: 1 <= t <= placed + 1 ==> t in Placed(s, id, w).workerOf
    ensures Queued(Placed(s, id, w), placed + 1, placed + 1)
  {
    var s' := Placed(s, id, w);
    assert s'.queues[w][|s.queues[w]|] == id;
    forall t | 1 <= t <= placed ensures s'.workerOf[t] in s'.live && t in s'.queues[s'.workerOf[t]] {
      assert t in s.queues[s.workerOf[t]];
    }
  }

  lemma PlacingSpreads(s: State, t: int, placed: nat, w: int)
    requires CanTake(s, w) && Spread(s, placed)
    ensures Spread(Placed(s, t, w), placed + 1)
  {
    IdleAfterPlaced(s, t, w);
  }

  lemma PlacingFills(s: State, placed: nat, total: nat, w: int)
    requires Filling(s, placed, total) && CanTake(s, w)
    ensures placed == total && Filling(Placed(s, NextId(s), w), placed + 1, total + 1)
  {
    PlacingCounts(s, placed, total, w);
    assert forall t :: t in s.workerOf <==> 1 <= t <= placed;
    PlacingSpreads(s, NextId(s), placed, w);
    PlacingQueues(s, placed, NextId(s), w);
  }

  lemma LeavingCounts(s: State, placed: nat, total: nat)
    requires Counted(s, placed, total) && forall w :: !CanTake(s, w)
    ensures placed == MAX_TASK_PER_NODE * |s.live|
    ensures Counted(LeftOut(s, NextId(s)), placed, total + 1)
  {
    var s' := LeftOut(s, NextId(s));
    CanTakeIffFree(s);
    assert ShortQueues(s) by {
      assert forall w :: w in s.queues ==> GoodQueue(s, w);
    }
    FreeIff(s, WORKER_COUNT);
    StepKeeps(s, LeaveUnassigned);
    hide Inv;
    FreeUnchanged(s, s', WORKER_COUNT);
    NewKey(s.workerOf, NextId(s), 0);
  }

  lemma LeavingFills(s: State, placed: nat, total: nat)
    requires Filling(s, placed, total) && forall w :: !CanTake(s, w)
    ensures placed == MAX_TASK_PER_NODE * |s.live|
    ensures Filling(LeftOut(s, NextId(s)), placed, total + 1)
  {
    LeavingCounts(s, placed, total);
    var s' := LeftOut(s, NextId(s));
    assert Idle(s') == Idle(s);
    hide Counted;
    assert Queued(s', placed, total + 1);
    assert Spread(s', placed);
  }

  /** With a live worker for every task, each task is alone on its worker. */
  lemma OneTaskPerWorker(s: State, total: nat, t: int)
    requires Filling(s, total, total) && total <= |s.live| && 1 <= t <= total
    ensures s.workerOf[t] in s.live && s.queues[s.workerOf[t]] == [t]
    ensures forall u :: 1 <= u <= total && u != t ==> s.workerOf[u] != s.workerOf[t]
  {
    assert t in s.queues[s.workerOf[t]];
    forall u | 1 <= u <= total && u != t ensures s.workerOf[u] != s.workerOf[t] {
      assert u in s.queues[s.workerOf[u]];
    }
  }
}
