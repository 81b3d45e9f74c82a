/** What assigning a job's tasks leaves behind, round by round, whichever workers are picked. */
module Assignment {
  import opened Scheduler
  import opened Reroute

  function UpTo(k: nat): seq<int> {
    seq(k, i => i + 1)
  }

  function Repeat(x: int, k: nat): seq<int> {
    seq(k, _ => x)
  }

  function Between(lo: nat, hi: nat): seq<int>
    requires lo <= hi
  {
    seq(hi - lo, i => lo + i + 1)
  }

  function Min(a: nat, b: nat): nat {
    if a <= b then a else b
  }

  ghost predicate WorkersOf(prev: seq<int>, workerOf: map<int, int>, n: nat) {
    |prev| == n && forall t :: 1 <= t <= n ==> t in workerOf && prev[t - 1] == workerOf[t]
  }

  /** The leader's lists after i rounds of stage 1, the first k of which found a worker. */
  ghost predicate Lists(assignedTasks: seq<int>, jobTasks: seq<int>, taskQueue: seq<int>, k: nat, i: nat) {
    && k <= i && assignedTasks == UpTo(k)
    && jobTasks == UpTo(k) + Repeat(k + 1, i - k) && taskQueue == Repeat(k + 1, i - k)
  }

  lemma ListsGrow(assignedTasks: seq<int>, jobTasks: seq<int>, taskQueue: seq<int>, k: nat, i: nat)
    requires Lists(assignedTasks, jobTasks, taskQueue, k, i)
    ensures k == i ==> Lists(assignedTasks + [k + 1], jobTasks + [k + 1], taskQueue, k + 1, i + 1)
    ensures Lists(assignedTasks, jobTasks + [k + 1], taskQueue + [k + 1], k, i + 1)
  {
    assert Repeat(k + 1, i - k) + [k + 1] == Repeat(k + 1, i + 1 - k);
    assert jobTasks + [k + 1] == UpTo(k) + (Repeat(k + 1, i - k) + [k + 1]);
    assert UpTo(k) + [k + 1] == UpTo(k + 1);
  }

  /** After i rounds of stage 1. Tasks are placed as long as the live workers have room, ten for each. */
  ghost predicate Stage1Done(s: State, a: seq<int>, j: seq<int>, q: seq<int>, prev: seq<int>, ok: bool,
                             workerFiles: seq<int>, i: nat) {
    var k := Min(i, MAX_TASK_PER_NODE * |s.live|);
    && Filling(s, k, k) && ok == (k == i) && Lists(a, j, q, k, i)
    && WorkersOf(prev, s.workerOf, k) && HoldersFirst(s, workerFiles)
  }

  lemma Stage1Starts(s: State, workerFiles: seq<int>)
    requires Filling(s, 0, 0)
    ensures Stage1Done(s, [], [], [], [], true, workerFiles, 0)
  {
    FillingIds(s, 0, 0);
  }

  lemma WorkersGrow(prev: seq<int>, workerOf: map<int, int>, k: nat, w: int)
    requires WorkersOf(prev, workerOf, k)
    ensures WorkersOf(prev + [w], workerOf[k + 1 := w], k + 1)
  {
  }

  lemma Stage1Placed(s: State, a: seq<int>, j: seq<int>, q: seq<int>, prev: seq<int>, ok: bool,
                     workerFiles: seq<int>, i: nat, w: int, s': State)
    requires Stage1Done(s, a, j, q, prev, ok, workerFiles, i) && Chosen(s, workerFiles, w)
    requires s' == Placed(s, NextId(s), w)
    ensures ok && NextId(s) == i + 1
    ensures Stage1Done(s', a + [i + 1], j + [i + 1], q, prev + [w], ok, workerFiles, i + 1)
  {
    hide Filling;
    hide HoldersFirst;
    hide CanTake;
    hide Prefers;
    hide Lists;
    var k := Min(i, MAX_TASK_PER_NODE * |s.live|);
    FillingIds(s, k, k);
    PlacingFills(s, k, k, w);
    FillingIds(s', k + 1, k + 1);
    HoldersStayFirst(s, NextId(s), workerFiles, w);
    ListsGrow(a, j, q, k, i);
    WorkersGrow(prev, s.workerOf, k, w);
  }

  lemma Stage1Left(s: State, a: seq<int>, j: seq<int>, q: seq<int>, prev: seq<int>, ok: bool,
                   workerFiles: seq<int>, i: nat)
    requires Stage1Done(s, a, j, q, prev, ok, workerFiles, i) && forall v :: !CanTake(s, v)
    ensures Stage1Done(s, a, j + [NextId(s)], q + [NextId(s)], prev, false, workerFiles, i + 1)
  {
    hide Filling;
    hide HoldersFirst;
    hide CanTake;
    hide Lists;
    hide WorkersOf;
    var k := Min(i, MAX_TASK_PER_NODE * |s.live|);
    FillingIds(s, k, k);
    LeavingFills(s, k, k);
    ListsGrow(a, j, q, k, i);
  }

  /** The tasks, targets and senders noted after i rounds of stage 2. */
  ghost predicate Noted2(c: Cluster, n: nat, prev: seq<int>, i: nat) {
    && WorkersOf(prev, c.s.workerOf, n)
    && (forall t :: t in c.stage2 <==> n < t <= n + i)
    && (forall p :: p in c.outputs <==> 0 <= p < n)
    && (forall t :: n < t <= n + i <= 2 * n ==>
          t in c.s.workerOf && c.outputs[t - n - 1] == c.s.workerOf[t] && c.s.workerOf[t] in c.senders)
    && (forall w :: w in c.senders ==> c.senders[w] == prev)
  }

  /** After i rounds of stage 2. A task that finds no worker is left with worker 0, and so is its partition. */
  ghost predicate Stage2Done(c: Cluster, n: nat, a: seq<int>, j: seq<int>, prev: seq<int>, ok: bool, i: nat) {
    var m := Min(n + i, MAX_TASK_PER_NODE * |c.s.live|);
    && n <= m && Filling(c.s, m, n + i) && ok == (m == n + i)
    && a == UpTo(n + i) && j == UpTo(n + i) && c.waiting == Between(m, n + i)
    && Noted2(c, n, prev, i)
  }

  function WithTask(c: Cluster, prev: seq<int>, i: int, id: int, s': State): Cluster
    requires id in s'.workerOf
  {
    c.(s := s', stage2 := c.stage2 + {id}, outputs := c.outputs[i := s'.workerOf[id]],
       senders := c.senders[s'.workerOf[id] := prev])
  }

  lemma WorkersStay(prev: seq<int>, workerOf: map<int, int>, n: nat, id: int, w: int)
    requires WorkersOf(prev, workerOf, n) && id !in workerOf
    ensures WorkersOf(prev, workerOf[id := w], n)
  {
  }

  /** With all n partitions noted, all are routed. */
  lemma NotedRoutes(c: Cluster, n: nat, prev: seq<int>, t: int)
    requires Noted2(c, n, prev, n) && n < t <= 2 * n
    ensures RoutesTo(c, n, t)
  {
    assert c.senders[c.s.workerOf[t]] == prev;
  }

  lemma NotingTask(c: Cluster, n: nat, prev: seq<int>, i: nat, id: int, w: int, s': State)
    requires Noted2(c, n, prev, i) && i < n && id == n + 1 + i && id !in c.s.workerOf
    requires s'.workerOf == c.s.workerOf[id := w]
    ensures Noted2(WithTask(c, prev, i, id, s'), n, prev, i + 1)
  {
    WorkersStay(prev, c.s.workerOf, n, id, w);
  }

  lemma NotedIgnoresWaiting(c: Cluster, n: nat, prev: seq<int>, i: nat, waiting: seq<int>)
    requires Noted2(c, n, prev, i)
    ensures Noted2(c.(waiting := waiting), n, prev, i)
  {
  }

  lemma OneMore(lo: nat, hi: nat)
    requires lo <= hi
    ensures UpTo(hi) + [hi + 1] == UpTo(hi + 1) && Between(lo, hi) + [hi + 1] == Between(lo, hi + 1)
  {
  }

  lemma Stage2Starts(c: Cluster, n: nat, a: seq<int>, j: seq<int>, prev: seq<int>, workerFiles: seq<int>)
    requires Stage1Done(c.s, a, j, c.waiting, prev, true, workerFiles, n)
    requires c.stage2 == {} && c.senders == map[] && forall p :: p in c.outputs <==> 0 <= p < n
    ensures Stage2Done(c, n, a, j, prev, true, 0)
  {
    assert UpTo(n) + Repeat(n + 1, 0) == UpTo(n);
    assert Repeat(n + 1, 0) == Between(n, n);
  }

  /** The assignments made for a job: with room for all 2n tasks every one is placed, and every partition routed. */
  lemma RoomForAll(c: Cluster, n: nat, a: seq<int>, j: seq<int>, prev: seq<int>, ok: bool)
    requires Stage2Done(c, n, a, j, prev, ok, n)
    ensures Placements(c, n) <==> 2 * n <= MAX_TASK_PER_NODE * |c.s.live|
    ensures 2 * n <= |c.s.live| ==> Running(c, n)
  {
    FillingIds(c.s, Min(2 * n, MAX_TASK_PER_NODE * |c.s.live|), 2 * n);
    if Placements(c, n) {
      FillingIds(c.s, 2 * n, 2 * n);
    }
    if 2 * n <= MAX_TASK_PER_NODE * |c.s.live| {
      forall t | n < t <= 2 * n ensures RoutesTo(c, n, t) {
        NotedRoutes(c, n, prev, t);
      }
      if 2 * n <= |c.s.live| {
        DispatchedIsRunning(c, n);
      }
    }
  }

  lemma CreatedOpen(c: Cluster, n: nat, sent: bool, a: seq<int>, j: seq<int>, prev: seq<int>, ok: bool,
                    workerFiles: seq<int>)
    requires if sent then Stage2Done(c, n, a, j, prev, ok, n)
             else Stage1Done(c.s, a, j, c.waiting, prev, ok, workerFiles, n)
    ensures c.s.open == c.s.workerOf.Keys
  {
  }

  lemma Stage2Placed(c: Cluster, n: nat, a: seq<int>, j: seq<int>, prev: seq<int>, ok: bool, i: nat, w: int, s': State)
    requires i < n && Stage2Done(c, n, a, j, prev, ok, i) && CanTake(c.s, w)
    requires s' == Placed(c.s, NextId(c.s), w)
    ensures NextId(c.s) == n + i + 1 && ok
    ensures Stage2Done(WithTask(c, prev, i, n + i + 1, s'), n, a + [n + i + 1], j + [n + i + 1], prev, ok, i + 1)
  {
    hide Filling;
    hide CanTake;
    hide Noted2;
    hide UpTo;
    var m := Min(n + i, MAX_TASK_PER_NODE * |c.s.live|);
    FillingIds(c.s, m, n + i);
    PlacingFills(c.s, m, n + i, w);
    FillingIds(s', m + 1, n + i + 1);
    NotingTask(c, n, prev, i, n + i + 1, w, s');
    OneMore(m, n + i);
  }

  lemma Stage2Left(c: Cluster, n: nat, a: seq<int>, j: seq<int>, prev: seq<int>, ok: bool, i: nat, s': State)
    requires i < n && Stage2Done(c, n, a, j, prev, ok, i) && forall v :: !CanTake(c.s, v)
    requires s' == LeftOut(c.s, NextId(c.s))
    ensures NextId(c.s) == n + i + 1
    ensures Stage2Done(WithTask(c, prev, i, n + i + 1, s').(waiting := c.waiting + [n + i + 1]),
                       n, a + [n + i + 1], j + [n + i + 1], prev, false, i + 1)
  {
    hide Filling;
    hide CanTake;
    hide Noted2;
    hide UpTo;
    hide Between;
    var m := Min(n + i, MAX_TASK_PER_NODE * |c.s.live|);
    FillingIds(c.s, m, n + i);
    LeavingFills(c.s, m, n + i);
    FillingIds(s', m, n + i + 1);
    NotingTask(c, n, prev, i, n + i + 1, 0, s');
    NotedIgnoresWaiting(WithTask(c, prev, i, n + i + 1, s'), n, prev, i + 1, c.waiting + [n + i + 1]);
    OneMore(m, n + i);
  }
}
