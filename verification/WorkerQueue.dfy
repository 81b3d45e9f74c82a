/** The task queue of one worker, and which task it reports to the leader when one of its stage-1 tasks is done. */
module WorkerQueue {
  import opened Sequences

  /** queue: tasks begun and not yet removed, in order; started: all tasks begun so far; reports: for each completion
      report the task that was done and the task that was named. */
  datatype Worker = Worker(queue: seq<int>, started: set<int>, reports: seq<(int, int)>)

  datatype Event =
    | Begin(task: int)
    | AllAcked(task: int, arrived: bool)
    | RetriesOver(task: int, arrived: bool)
    | LeaderAck(task: int)

  /** A task that was acknowledged at once names itself. The retry loop names whatever is last in the queue, and is
      silent when the queue is empty. */
  function Named(queue: seq<int>, e: Event): int
    requires (e.RetriesOver? && queue != []) || e.AllAcked?
  {
    if e.AllAcked? then e.task else queue[|queue| - 1]
  }

  predicate Reports(queue: seq<int>, e: Event) {
    e.AllAcked? || (e.RetriesOver? && queue != [])
  }

  /** given: the tasks the leader sends to this worker; senders: the stage-1 tasks. */
  predicate Enabled(w: Worker, e: Event, given: set<int>, senders: set<int>) {
    match e
    case Begin(t) => t in given
    case AllAcked(t, _) => t in w.started && t in senders
    case RetriesOver(t, _) => t in w.started && t in senders
    case LeaderAck(t) => true
  }

  /** A report that arrives takes the task it named off the queue. */
  function After(w: Worker, e: Event): Worker {
    if e.Begin? then w.(queue := w.queue + [e.task], started := w.started + {e.task})
    else if e.LeaderAck? then w.(queue := Dropped(w.queue, e.task))
    else if Reports(w.queue, e) then
      w.(queue := if e.arrived then Dropped(w.queue, Named(w.queue, e)) else w.queue,
         reports := w.reports + [(e.task, Named(w.queue, e))])
    else w
  }

  function Run(events: seq<Event>): Worker {
    if events == [] then Worker([], {}, []) else After(Run(events[..|events| - 1]), events[|events| - 1])
  }

  predicate Feasible(events: seq<Event>, given: set<int>, senders: set<int>) {
    if events == [] then true
    else
      var front := events[..|events| - 1];
      Feasible(front, given, senders) && Enabled(Run(front), events[|events| - 1], given, senders)
  }

  predicate OwnReports(w: Worker) {
    forall i :: 0 <= i < |w.reports| ==> w.reports[i].0 == w.reports[i].1
  }

  /** One report names the task that was done exactly when it went without retries or the task is last in the queue. */
  lemma ReportIsOwnIff(w: Worker, e: Event)
    requires OwnReports(w) && Reports(w.queue, e)
    ensures OwnReports(After(w, e)) <==> e.AllAcked? || w.queue[|w.queue| - 1] == e.task
  {
    assert After(w, e).reports[|w.reports|] == (e.task, Named(w.queue, e));
  }

  lemma {:induction false} DroppedFrom(queue: seq<int>, t: int)
    ensures forall u :: u in Dropped(queue, t) ==> u in queue
  {
    if queue != [] {
      DroppedFrom(queue[1..], t);
    }
  }

  ghost predicate AllIn(w: Worker, tasks: set<int>) {
    w.started <= tasks && forall u :: u in w.queue ==> u in tasks
  }

  lemma {:induction false} QueueIsGiven(events: seq<Event>, given: set<int>, senders: set<int>)
    requires Feasible(events, given, senders)
    ensures AllIn(Run(events), given)
  {
    if events != [] {
      var front, e := events[..|events| - 1], events[|events| - 1];
      QueueIsGiven(front, given, senders);
      var w := Run(front);
      DroppedFrom(w.queue, if Reports(w.queue, e) then Named(w.queue, e) else e.task);
    }
  }

  lemma {:induction false} SendersReport(events: seq<Event>, given: set<int>, senders: set<int>, i: nat)
    requires Feasible(events, given, senders) && i < |Run(events).reports|
    ensures Run(events).reports[i].0 in senders
  {
    if events != [] {
      var front, e := events[..|events| - 1], events[|events| - 1];
      if i < |Run(front).reports| {
        SendersReport(front, given, senders, i);
      }
    }
  }

  /** No stage-1 task shares the worker. */
  predicate NoneShares(given: set<int>, senders: set<int>) {
    forall a, b :: a in given && a in senders && b in given ==> a == b
  }

  lemma {:induction false} AloneReportsOwn(events: seq<Event>, given: set<int>, senders: set<int>)
    requires Feasible(events, given, senders) && NoneShares(given, senders)
    ensures OwnReports(Run(events))
  {
    if events != [] {
      var front, e := events[..|events| - 1], events[|events| - 1];
      AloneReportsOwn(front, given, senders);
      QueueIsGiven(front, given, senders);
      var w := Run(front);
      if Reports(w.queue, e) {
        ReportIsOwnIff(w, e);
        if e.RetriesOver? {
          assert w.queue[|w.queue| - 1] in w.queue;
        }
      }
    }
  }

  /** The failing queue: two tasks begun, and the first one's retries end. */
  lemma SharedReportsTheOther(a: int, b: int, arrived: bool, given: set<int>, senders: set<int>)
    requires a in given && b in given && a in senders
    ensures var events := [Begin(a)] + [Begin(b)] + [RetriesOver(a, arrived)];
            Feasible(events, given, senders) && Run(events).reports == [(a, b)]
  {
    var e0, e1, e2 := [Begin(a)], [Begin(a)] + [Begin(b)], [Begin(a)] + [Begin(b)] + [RetriesOver(a, arrived)];
    assert e0[..0] == [] && e1[..1] == e0 && e2[..2] == e1;
    assert Feasible([], given, senders) && Run([]) == Worker([], {}, []);
    assert Feasible(e0, given, senders) && Run(e0) == Worker([a], {a}, []);
    assert Feasible(e1, given, senders) && Run(e1) == Worker([a, b], {a, b}, []);
  }

  /** Every report of every run names the task that was done exactly when no stage-1 task shares the worker. */
  lemma ReportsAreOwnIff(given: set<int>, senders: set<int>)
    ensures (forall events :: Feasible(events, given, senders) ==> OwnReports(Run(events))) <==>
            NoneShares(given, senders)
  {
    if NoneShares(given, senders) {
      forall events | Feasible(events, given, senders) ensures OwnReports(Run(events)) {
        AloneReportsOwn(events, given, senders);
      }
    } else {
      var a, b :| a in given && a in senders && b in given && a != b;
      SharedReportsTheOther(a, b, true, given, senders);
      assert Run([Begin(a)] + [Begin(b)] + [RetriesOver(a, true)]).reports[0] == (a, b);
    }
  }
}
