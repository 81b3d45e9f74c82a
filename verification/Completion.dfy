/** How a dispatched job is declared complete: stage-1 notices, the round of acks to the receivers, the monitor. */
module Completion {
  import opened Sequences

  const NUM_OF_TASKS_PER_JOB := 2

  /** open: the tasks whose entry in the task map is not nil; completed, assignedTasks and jobTasks: the leader's
      lists of task ids. */
  datatype Job = Job(open: set<int>, completed: seq<int>, assignedTasks: seq<int>, jobTasks: seq<int>)

  function Marked(job: Job, t: int): Job {
    if t in job.open then job.(open := job.open - {t}, completed := job.completed + [t]) else job
  }

  predicate AllSendersCompleted(job: Job) {
    && |job.completed| == NUM_OF_TASKS_PER_JOB && |job.assignedTasks| >= NUM_OF_TASKS_PER_JOB
    && forall i :: 0 <= i < NUM_OF_TASKS_PER_JOB ==> job.assignedTasks[i] in job.completed
  }

  predicate HasReceivers(job: Job) {
    |job.assignedTasks| == 0 || |job.assignedTasks| >= 2 * NUM_OF_TASKS_PER_JOB
  }

  /** Each receiver is marked before its connection is looked up, and the first one without a connection ends the
      round. */
  function AckRound(job: Job, workerOf: map<int, int>, conns: set<int>, i: nat): Job
    requires |job.assignedTasks| >= 2 * NUM_OF_TASKS_PER_JOB
    decreases 2 * NUM_OF_TASKS_PER_JOB - i
  {
    if i >= 2 * NUM_OF_TASKS_PER_JOB then job
    else
      var t := job.assignedTasks[i];
      var marked := Marked(job, t);
      if t in workerOf && workerOf[t] in conns then AckRound(marked, workerOf, conns, i + 1) else marked
  }

  function Noticed(job: Job, t: int, workerOf: map<int, int>, conns: set<int>): Job
    requires HasReceivers(job)
  {
    var marked := Marked(job, t);
    if AllSendersCompleted(marked) then AckRound(marked, workerOf, conns, NUM_OF_TASKS_PER_JOB) else marked
  }

  function Remaining(tasks: seq<int>, completed: seq<int>): seq<int> {
    if tasks == [] then []
    else (if tasks[0] in completed then [] else [tasks[0]]) + Remaining(tasks[1..], completed)
  }

  predicate Declares(job: Job) {
    job.assignedTasks != [] && Remaining(job.jobTasks, job.completed) == []
  }

  function Ticked(job: Job): Job {
    if job.assignedTasks == [] then job
    else if Declares(job) then job.(assignedTasks := [], completed := [], jobTasks := [])
    else job.(jobTasks := Remaining(job.jobTasks, job.completed))
  }

  lemma {:induction false} RemainingHas(tasks: seq<int>, completed: seq<int>, t: int)
    ensures t in Remaining(tasks, completed) <==> t in tasks && t !in completed
  {
    if tasks != [] {
      assert tasks == [tasks[0]] + tasks[1..];
      RemainingHas(tasks[1..], completed, t);
    }
  }

  /** The monitor's loop drops element i or steps over it, and either way has the same list still to come. */
  lemma RemainingStep(tasks: seq<int>, completed: seq<int>, i: nat)
    requires i < |tasks|
    ensures var now := if tasks[i] in completed then tasks[..i] + tasks[i + 1..] else tasks;
            var j := if tasks[i] in completed then i else i + 1;
            now[..j] + Remaining(now[j..], completed) == tasks[..i] + Remaining(tasks[i..], completed)
  {
    assert tasks[i..][0] == tasks[i] && tasks[i..][1..] == tasks[i + 1..];
    if tasks[i] in completed {
      var cut := tasks[..i] + tasks[i + 1..];
      assert cut[..i] == tasks[..i] && cut[i..] == tasks[i + 1..];
    } else {
      assert tasks[..i + 1] == tasks[..i] + [tasks[i]];
    }
  }

  // ----- the protocol, for a job with two tasks in each stage -----

  /** rounds: the ack rounds started so far; declared: the monitor has reported success. */
  datatype System = System(job: Job, workerOf: map<int, int>, rounds: nat, declared: bool)

  datatype Step =
    | Notice(task: int, conns: set<int>)
    | Tick
    | Moved(task: int, worker: int)

  /** A notice may name any task and come late, twice or never. A task may be moved to another worker at any time, and
      the leader's connections may differ at every notice. */
  predicate Enabled(y: System, step: Step) {
    match step
    case Notice(_, _) => true
    case Tick => !y.declared
    case Moved(t, _) => t in y.workerOf
  }

  predicate Fires(y: System, step: Step) {
    step.Notice? && AllSendersCompleted(Marked(y.job, step.task))
  }

  function Next(y: System, step: Step): System
    requires HasReceivers(y.job)
  {
    match step
    case Notice(t, conns) =>
      y.(job := Noticed(y.job, t, y.workerOf, conns), rounds := y.rounds + if Fires(y, step) then 1 else 0)
    case Tick => y.(job := Ticked(y.job), declared := y.declared || Declares(y.job))
    case Moved(t, w) => y.(workerOf := y.workerOf[t := w])
  }

  predicate FourTasks(ids: seq<int>) {
    && |ids| == 4
    && ids[0] != ids[1] && ids[0] != ids[2] && ids[0] != ids[3]
    && ids[1] != ids[2] && ids[1] != ids[3] && ids[2] != ids[3]
  }

  predicate Dispatched(y: System, ids: seq<int>) {
    && y.job == Job(set t | t in ids, [], ids, ids)
    && y.rounds == 0 && !y.declared
    && y.workerOf.Keys == (set t | t in ids)
  }

  predicate IsReceiver(t: int, ids: seq<int>)
    requires FourTasks(ids)
  {
    t == ids[2] || t == ids[3]
  }

  // ----- whatever the notices name -----

  ghost predicate Sound(y: System, ids: seq<int>) {
    && FourTasks(ids) && y.rounds <= 1
    && (forall t :: t in y.workerOf <==> t in ids)
    && if y.declared then
         y.job == Job({}, [], [], [])
       else
         && y.job.assignedTasks == ids && NoRepeats(y.job.completed)
         && (forall t :: t in y.job.open <==> t in ids && t !in y.job.completed)
         && (forall t :: t in y.job.completed ==> t in ids)
         && (forall t :: t in y.job.jobTasks ==> t in ids)
         && (forall t :: t in ids && t !in y.job.completed ==> t in y.job.jobTasks)
         && (if y.rounds == 0 then !AllSendersCompleted(y.job) else |y.job.completed| >= 3)
         && (y.rounds == 1 ==> ids[0] in y.job.completed && ids[1] in y.job.completed && ids[2] in y.job.completed)
  }

  lemma RoundResult(job: Job, ids: seq<int>, workerOf: map<int, int>, conns: set<int>)
    requires FourTasks(ids) && job.assignedTasks == ids && ids[2] in job.open && ids[3] in job.open
    requires ids[2] in workerOf
    ensures AckRound(job, workerOf, conns, 2)
         == if workerOf[ids[2]] in conns then Marked(Marked(job, ids[2]), ids[3]) else Marked(job, ids[2])
  {
    var one := Marked(job, ids[2]);
    if workerOf[ids[2]] in conns {
      assert AckRound(job, workerOf, conns, 2) == AckRound(one, workerOf, conns, 3);
      var two := Marked(one, ids[3]);
      assert AckRound(two, workerOf, conns, 4) == two;
      assert AckRound(one, workerOf, conns, 3) == two;
    }
  }

  /** A round starts only with both senders and nothing else complete. */
  lemma AtFiring(completed: seq<int>, ids: seq<int>)
    requires FourTasks(ids) && |completed| == 2 && ids[0] in completed && ids[1] in completed
    ensures forall t :: t in completed <==> t == ids[0] || t == ids[1]
  {
  }

  lemma FiringResult(y: System, ids: seq<int>, t: int, conns: set<int>)
    requires Sound(y, ids) && !y.declared && Fires(y, Notice(t, conns))
    ensures y.rounds == 0 && (t == ids[0] || t == ids[1]) && t in y.job.open && ids[2] in y.workerOf
    ensures var job := Next(y, Notice(t, conns)).job;
            && job.assignedTasks == ids && job.jobTasks == y.job.jobTasks
            && job.completed ==
               y.job.completed + [t] + [ids[2]] + (if y.workerOf[ids[2]] in conns then [ids[3]] else [])
            && job.open == (if y.workerOf[ids[2]] in conns then {} else {ids[3]})
  {
    var marked := Marked(y.job, t);
    AtFiring(marked.completed, ids);
    if t in y.job.open {
      assert marked.completed == y.job.completed + [t] && t in marked.completed;
      assert ids[2] in marked.open && ids[3] in marked.open;
      RoundResult(marked, ids, y.workerOf, conns);
      assert forall u :: u in marked.completed <==> u in y.job.completed || u == t;
      assert forall u :: u in ids <==> u == ids[0] || u == ids[1] || u == ids[2] || u == ids[3];
      assert forall u :: u in marked.open <==> u == ids[2] || u == ids[3];
    }
  }

  lemma NoticeSound(y: System, ids: seq<int>, t: int, conns: set<int>)
    requires Sound(y, ids) && !y.declared
    ensures Sound(Next(y, Notice(t, conns)), ids)
  {
    if Fires(y, Notice(t, conns)) {
      FiringSound(y, ids, t, conns);
    } else if t in y.job.open {
      assert forall u :: u in y.job.completed + [t] <==> u in y.job.completed || u == t;
    }
  }

  lemma FiringSound(y: System, ids: seq<int>, t: int, conns: set<int>)
    requires Sound(y, ids) && !y.declared && Fires(y, Notice(t, conns))
    ensures Sound(Next(y, Notice(t, conns)), ids)
  {
    FiringResult(y, ids, t, conns);
    hide AckRound;
    AtFiring(y.job.completed + [t], ids);
    var c := Next(y, Notice(t, conns)).job.completed;
    assert forall u :: u in c <==>
                         u in y.job.completed + [t] || u == ids[2] || (y.workerOf[ids[2]] in conns && u == ids[3]);
  }

  lemma TickSound(y: System, ids: seq<int>)
    requires Sound(y, ids) && !y.declared
    ensures Sound(Next(y, Tick), ids)
    ensures Next(y, Tick).declared <==> y.job.open == {}
  {
    forall t ensures t in Remaining(y.job.jobTasks, y.job.completed) <==> t in y.job.jobTasks && t !in y.job.completed {
      RemainingHas(y.job.jobTasks, y.job.completed, t);
    }
    var rest := Remaining(y.job.jobTasks, y.job.completed);
    assert forall t :: t in y.job.open <==> t in rest;
    if rest == [] {
      assert y.job.open == {};
    } else {
      assert rest[0] in y.job.open;
    }
  }

  lemma StepSound(y: System, ids: seq<int>, step: Step)
    requires Sound(y, ids) && Enabled(y, step)
    ensures Sound(Next(y, step), ids)
  {
    match step
    case Notice(t, conns) =>
      if !y.declared {
        NoticeSound(y, ids, t, conns);
      }
    case Tick =>
      TickSound(y, ids);
    case Moved(t, w) =>
  }

  ghost predicate IsRun(states: seq<System>, steps: seq<Step>, ids: seq<int>) {
    && |states| == |steps| + 1 && FourTasks(ids) && Dispatched(states[0], ids)
    && forall i :: 0 <= i < |steps| ==>
         HasReceivers(states[i].job) && Enabled(states[i], steps[i]) && states[i + 1] == Next(states[i], steps[i])
  }

  lemma {:induction false} EveryRunIsSound(states: seq<System>, steps: seq<Step>, ids: seq<int>, i: nat)
    requires IsRun(states, steps, ids) && i < |states|
    ensures Sound(states[i], ids)
  {
    if i > 0 {
      EveryRunIsSound(states, steps, ids, i - 1);
      StepSound(states[i - 1], ids, steps[i - 1]);
    }
  }

  /** Whatever the notices name, in every state of every run no task is recorded twice, open and completed tasks share
      out the job's four, at most one ack round is started, and success is declared only when nothing is open. */
  lemma CompletionIsSafe(states: seq<System>, steps: seq<Step>, ids: seq<int>, i: nat)
    requires IsRun(states, steps, ids) && i < |states|
    ensures var y := states[i];
            && y.rounds <= 1 && NoRepeats(y.job.completed)
            && (y.declared ==> y.job.open == {})
            && (!y.declared ==> forall t :: t in ids <==> t in y.job.open || t in y.job.completed)
            && (forall t :: t in y.job.open ==> t !in y.job.completed)
  {
    EveryRunIsSound(states, steps, ids, i);
  }

  // ----- when a notice names a stage-2 task -----

  /** Stage-2 tasks are complete only after both stage-1 tasks. */
  predicate InOrder(y: System, ids: seq<int>)
    requires FourTasks(ids)
  {
    !y.declared && (ids[2] !in y.job.open || ids[3] !in y.job.open) ==> ids[0] !in y.job.open && ids[1] !in y.job.open
  }

  /** A notice for a stage-2 task before the ack round. */
  predicate Early(y: System, ids: seq<int>, step: Step)
    requires FourTasks(ids)
  {
    step.Notice? && IsReceiver(step.task, ids) && y.rounds == 0 && !y.declared
  }

  ghost predicate Ordered(y: System, ids: seq<int>) {
    && Sound(y, ids) && (y.declared ==> y.rounds == 1)
    && (y.rounds == 0 ==>
          ids[2] in y.job.open && ids[3] in y.job.open && (ids[0] in y.job.open || ids[1] in y.job.open))
  }

  lemma ThreeOfTwo(c: seq<int>, a: int, b: int)
    ensures |c| >= 3 && (forall k :: 0 <= k < |c| ==> c[k] == a || c[k] == b) ==> !NoRepeats(c)
  {
    if |c| >= 3 && forall k :: 0 <= k < |c| ==> c[k] == a || c[k] == b {
      assert c[0] == c[1] || c[0] == c[2] || c[1] == c[2];
    }
  }

  lemma TwoSenders(completed: seq<int>, ids: seq<int>)
    requires FourTasks(ids) && NoRepeats(completed) && forall u :: u in completed ==> u == ids[0] || u == ids[1]
    requires ids[0] in completed && ids[1] in completed
    ensures |completed| == 2
  {
    assert forall k :: 0 <= k < |completed| ==> completed[k] in completed;
    ThreeOfTwo(completed, ids[0], ids[1]);
  }

  /** A notice for a sender, or for nothing open, that starts no round leaves some sender open. */
  lemma SenderLeftOpen(y: System, ids: seq<int>, t: int)
    requires Ordered(y, ids) && !y.declared && y.rounds == 0 && t in y.job.open && !IsReceiver(t, ids)
    requires !AllSendersCompleted(Marked(y.job, t))
    ensures ids[0] in Marked(y.job, t).open || ids[1] in Marked(y.job, t).open
  {
    var c := y.job.completed + [t];
    assert forall u :: u in c <==> u in y.job.completed || u == t;
    if ids[0] in c && ids[1] in c {
      assert forall u :: u in c ==> u == ids[0] || u == ids[1];
      TwoSenders(c, ids);
    }
  }

  lemma OrderedNotice(y: System, ids: seq<int>, t: int, conns: set<int>)
    requires Ordered(y, ids) && !y.declared && !Early(y, ids, Notice(t, conns))
    ensures Ordered(Next(y, Notice(t, conns)), ids)
  {
    NoticeSound(y, ids, t, conns);
    if y.rounds == 0 && !Fires(y, Notice(t, conns)) && t in y.job.open {
      SenderLeftOpen(y, ids, t);
    }
    hide AckRound;
    hide AllSendersCompleted;
  }

  /** Every step keeps the order, save exactly the early notices. */
  lemma OrderKeptIff(y: System, ids: seq<int>, step: Step)
    requires Ordered(y, ids) && Enabled(y, step)
    ensures InOrder(y, ids)
    ensures Early(y, ids, step) <==> !InOrder(Next(y, step), ids)
    ensures !Early(y, ids, step) ==> Ordered(Next(y, step), ids)
  {
    StepSound(y, ids, step);
    match step
    case Notice(t, conns) =>
      if !y.declared && !Early(y, ids, step) {
        OrderedNotice(y, ids, t, conns);
      }
    case Tick =>
      TickSound(y, ids);
    case Moved(t, w) =>
  }

  ghost predicate NoneEarly(states: seq<System>, steps: seq<Step>, ids: seq<int>, n: nat)
    requires FourTasks(ids) && n <= |steps| && n <= |states|
  {
    forall k :: 0 <= k < n ==> !Early(states[k], ids, steps[k])
  }

  ghost predicate AllInOrder(states: seq<System>, ids: seq<int>, n: nat)
    requires FourTasks(ids) && n <= |states|
  {
    forall k :: 0 <= k < n ==> InOrder(states[k], ids)
  }

  lemma {:induction false} OrderedSoFar(states: seq<System>, steps: seq<Step>, ids: seq<int>, i: nat)
    requires IsRun(states, steps, ids) && i < |states| && NoneEarly(states, steps, ids, i)
    ensures Ordered(states[i], ids)
  {
    if i > 0 {
      OrderedSoFar(states, steps, ids, i - 1);
      OrderKeptIff(states[i - 1], ids, steps[i - 1]);
    } else {
      EveryRunIsSound(states, steps, ids, 0);
    }
  }

  /** In a run stage-2 tasks are complete only after both stage-1 tasks, throughout, exactly when no notice has named a
      stage-2 task early. */
  lemma {:induction false} InOrderIff(states: seq<System>, steps: seq<Step>, ids: seq<int>, i: nat)
    requires IsRun(states, steps, ids) && i < |states|
    ensures AllInOrder(states, ids, i + 1) <==> NoneEarly(states, steps, ids, i)
  {
    if i == 0 {
      OrderedSoFar(states, steps, ids, 0);
      OrderKeptNow(states[0], ids);
    } else {
      InOrderIff(states, steps, ids, i - 1);
      if NoneEarly(states, steps, ids, i - 1) {
        OrderedSoFar(states, steps, ids, i - 1);
        OrderKeptIff(states[i - 1], ids, steps[i - 1]);
      }
      OneMoreState(states, steps, ids, i);
    }
  }

  lemma OneMoreState(states: seq<System>, steps: seq<Step>, ids: seq<int>, i: nat)
    requires FourTasks(ids) && 0 < i < |states| && i <= |steps|
    ensures AllInOrder(states, ids, i + 1) <==> AllInOrder(states, ids, i) && InOrder(states[i], ids)
    ensures NoneEarly(states, steps, ids, i) <==>
              NoneEarly(states, steps, ids, i - 1) && !Early(states[i - 1], ids, steps[i - 1])
  {
    hide InOrder;
    hide Early;
  }

  lemma OrderKeptNow(y: System, ids: seq<int>)
    requires Ordered(y, ids)
    ensures InOrder(y, ids)
  {
  }

  /** After an early notice no ack round is ever started. */
  lemma {:induction false} EarlyNoticeStalls(states: seq<System>, steps: seq<Step>, ids: seq<int>, i: nat, k: nat)
    requires IsRun(states, steps, ids) && i < k < |states| && Early(states[i], ids, steps[i])
    ensures states[k].rounds == 0
    ensures states[k].declared || steps[i].task in states[k].job.completed
  {
    EveryRunIsSound(states, steps, ids, k - 1);
    var y, r := states[k - 1], steps[i].task;
    if k == i + 1 {
      EarlyMarks(y, ids, steps[i]);
    } else {
      EarlyNoticeStalls(states, steps, ids, i, k - 1);
      StaysStalled(y, ids, steps[k - 1], r);
    }
  }

  lemma EarlyMarks(y: System, ids: seq<int>, step: Step)
    requires Sound(y, ids) && Early(y, ids, step)
    ensures Next(y, step).rounds == 0 && !Next(y, step).declared && step.task in Next(y, step).job.completed
  {
    var c := Marked(y.job, step.task).completed;
    assert step.task in c by {
      if step.task in y.job.open {
        assert c[|c| - 1] == step.task;
      }
    }
    if |c| == 2 && ids[0] in c && ids[1] in c {
      AtFiring(c, ids);
    }
  }

  lemma StaysStalled(y: System, ids: seq<int>, step: Step, r: int)
    requires Sound(y, ids) && Enabled(y, step) && IsReceiver(r, ids)
    requires y.rounds == 0 && (y.declared || r in y.job.completed)
    ensures Next(y, step).rounds == 0 && (Next(y, step).declared || r in Next(y, step).job.completed)
  {
    if step.Notice? && !y.declared {
      var c := Marked(y.job, step.task).completed;
      assert r in c;
      if |c| == 2 && ids[0] in c && ids[1] in c {
        AtFiring(c, ids);
      }
    }
  }

  // ----- after the ack round -----

  /** The ack round completes the job exactly when the leader has a connection to the first receiver: the second is
      marked before its connection is looked up. */
  lemma RoundFinishesIff(y: System, ids: seq<int>, t: int, conns: set<int>)
    requires Sound(y, ids) && !y.declared && Fires(y, Notice(t, conns))
    ensures y.rounds == 0 && ids[2] in y.workerOf
    ensures Next(y, Notice(t, conns)).job.open == if y.workerOf[ids[2]] in conns then {} else {ids[3]}
  {
    FiringResult(y, ids, t, conns);
  }

  /** A notice for the last receiver, which only its own worker could send. */
  predicate LastNoticed(steps: seq<Step>, i: nat, k: int, last: int) {
    exists m :: i < m < k && m < |steps| && steps[m].Notice? && steps[m].task == last
  }

  /** What is open after the round started at step i. */
  function OpenAfter(y: System, step: Step, ids: seq<int>, noticed: bool): set<int>
    requires FourTasks(ids) && step.Notice?
  {
    if noticed || (ids[2] in y.workerOf && y.workerOf[ids[2]] in step.conns) then {} else {ids[3]}
  }

  lemma AfterTheRound(y: System, ids: seq<int>, step: Step)
    requires Sound(y, ids) && Enabled(y, step) && y.rounds == 1
    ensures Next(y, step).rounds == 1
    ensures Next(y, step).job.open == if step.Notice? then y.job.open - {step.task} else y.job.open
    ensures Next(y, step).declared <==> y.declared || (step.Tick? && y.job.open == {})
  {
    if step.Tick? {
      TickSound(y, ids);
    }
  }

  /** The monitor has ticked with nothing open. */
  ghost predicate TickedWhenDone(y: System, steps: seq<Step>, ids: seq<int>, i: nat, k: int)
    requires FourTasks(ids) && i < |steps| && steps[i].Notice?
  {
    exists j :: i < j < k && j < |steps| && steps[j] == Tick &&
                OpenAfter(y, steps[i], ids, LastNoticed(steps, i, j, ids[3])) == {}
  }

  lemma OneMoreTick(y: System, steps: seq<Step>, ids: seq<int>, i: nat, k: int)
    requires FourTasks(ids) && i < |steps| && steps[i].Notice? && i + 1 < k <= |steps|
    ensures LastNoticed(steps, i, k, ids[3])
       <==> LastNoticed(steps, i, k - 1, ids[3]) || (steps[k - 1].Notice? && steps[k - 1].task == ids[3])
    ensures TickedWhenDone(y, steps, ids, i, k)
       <==> TickedWhenDone(y, steps, ids, i, k - 1)
            || (steps[k - 1] == Tick && OpenAfter(y, steps[i], ids, LastNoticed(steps, i, k - 1, ids[3])) == {})
  {
    hide OpenAfter;
  }

  /** Once the ack round has run, at step i, success is declared exactly when the monitor has ticked with nothing open:
      the first receiver was connected at that notice, or a notice has named the last receiver since. Otherwise the job
      stays open for ever. */
  lemma {:induction false} DeclaredIff(states: seq<System>, steps: seq<Step>, ids: seq<int>, i: nat, k: nat)
    requires IsRun(states, steps, ids) && i < k < |states|
    requires Fires(states[i], steps[i]) && !states[i].declared
    ensures states[k].rounds == 1
    ensures states[k].job.open == OpenAfter(states[i], steps[i], ids, LastNoticed(steps, i, k, ids[3]))
    ensures states[k].declared <==> TickedWhenDone(states[i], steps, ids, i, k)
  {
    EveryRunIsSound(states, steps, ids, k - 1);
    if k > i + 1 {
      DeclaredIff(states, steps, ids, i, k - 1);
      AfterTheRound(states[k - 1], ids, steps[k - 1]);
      OneMoreTick(states[i], steps, ids, i, k);
      hide Sound;
      hide Next;
      hide Fires;
      hide TickedWhenDone;
      hide LastNoticed;
    } else {
      RoundFinishesIff(states[i], ids, steps[i].task, steps[i].conns);
    }
  }
}
