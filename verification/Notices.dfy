/** What completion notices do to the leader's copies of the worker queues. */
module Notices {
  import opened Sequences
  import opened Scheduler
  import opened Completion

  ghost predicate GoodQueues(s: State) {
    forall w :: w in s.queues ==> GoodQueue(s, w)
  }

  /** One queue without t, everything else in place. */
  ghost predicate TakenOut(before: seq<int>, after: seq<int>, t: int) {
    && t !in after
    && if t in before then exists i :: 0 <= i < |before| && before[i] == t && after == before[..i] + before[i + 1..]
       else after == before
  }

  lemma DroppedTakesOut(queue: seq<int>, t: int)
    requires NoRepeats(queue)
    ensures TakenOut(queue, Dropped(queue, t), t)
  {
    DroppedKeeps(queue, t);
    var i := 0;
    while i < |queue| && queue[i] != t
      invariant 0 <= i <= |queue| && forall j :: 0 <= j < i ==> queue[j] != t
    {
      i := i + 1;
    }
    DroppedAt(queue, t, i);
  }

  /** A notice for an open task takes it out of its worker's queue, where all other tasks stay as they are, and so do
      the queues of all other workers. */
  lemma NoticeTakesOut(s: State, t: int)
    requires Inv(s) && t in s.open
    ensures var s' := Noted(s, t);
            && s'.live == s.live && s'.workerOf == s.workerOf && s'.open == s.open - {t}
            && s'.queues.Keys == s.queues.Keys
            && (forall w :: w in s.queues ==> TakenOut(s.queues[w], s'.queues[w], t))
            && (forall w :: w in s.queues && w != s.workerOf[t] ==> s'.queues[w] == s.queues[w])
  {
    var s' := Noted(s, t);
    forall w | w in s.queues ensures TakenOut(s.queues[w], s'.queues[w], t) {
      assert GoodQueue(s, w);
      if w == s.workerOf[t] {
        DroppedTakesOut(s.queues[w], t);
      }
    }
  }

  // ----- several notices -----

  /** The same queues without the tasks of gone. */
  ghost predicate OnlyLeft(before: map<int, seq<int>>, after: map<int, seq<int>>, gone: seq<int>) {
    after.Keys == before.Keys && forall w :: w in before ==> after[w] == Remaining(before[w], gone)
  }

  lemma {:induction false} RemainingSnoc(tasks: seq<int>, t: int, gone: seq<int>)
    ensures Remaining(tasks + [t], gone) == Remaining(tasks, gone) + if t in gone then [] else [t]
  {
    if tasks == [] {
      assert [] + [t] == [t] && [t][1..] == [];
    } else {
      RemainingSnoc(tasks[1..], t, gone);
      assert (tasks + [t])[1..] == tasks[1..] + [t];
    }
  }

  /** at are the positions in tasks of those that are not gone, in order, and left holds what is there. */
  ghost predicate LeftAt(tasks: seq<int>, gone: seq<int>, left: seq<int>, at: seq<int>) {
    && Draws(tasks, left, at)
    && (forall i :: 0 <= i < |tasks| ==> (i in at <==> tasks[i] !in gone))
  }

  /** What remains keeps its order and multiplicity. */
  lemma {:induction false} RemainingInOrder(tasks: seq<int>, gone: seq<int>) returns (at: seq<int>)
    ensures LeftAt(tasks, gone, Remaining(tasks, gone), at)
  {
    at := [];
    if tasks != [] {
      var n := |tasks| - 1;
      var front, left := tasks[..n], Remaining(tasks[..n], gone);
      at := RemainingInOrder(front, gone);
      assert tasks == front + [tasks[n]];
      RemainingSnoc(front, tasks[n], gone);
      at := OneMoreLeft(front, tasks[n], gone, left, at);
    }
  }

  lemma OneMoreLeft(tasks: seq<int>, t: int, gone: seq<int>, left: seq<int>, was: seq<int>) returns (at: seq<int>)
    requires LeftAt(tasks, gone, left, was)
    ensures LeftAt(tasks + [t], gone, left + if t in gone then [] else [t], at)
  {
    DrawsOn(tasks, left, was, t);
    hide Draws;
    at := if t in gone then was else was + [|tasks|];
    forall i | 0 <= i < |tasks + [t]| ensures i in at <==> (tasks + [t])[i] !in gone {
      assert (tasks + [t])[i] == if i < |tasks| then tasks[i] else t;
    }
  }

  lemma {:induction false} NothingGone(tasks: seq<int>, gone: seq<int>)
    requires forall t :: t in tasks ==> t !in gone
    ensures Remaining(tasks, gone) == tasks
  {
    if tasks != [] {
      var head := tasks[0];
      assert tasks == [head] + tasks[1..] && head in tasks;
      assert head !in gone;
      assert forall t :: t in tasks[1..] ==> t in tasks;
      NothingGone(tasks[1..], gone);
    }
  }

  lemma AllRemainIff(tasks: seq<int>, gone: seq<int>)
    ensures Remaining(tasks, gone) == [] <==> forall t :: t in tasks ==> t in gone
  {
    forall t {
      RemainingHas(tasks, gone, t);
    }
    if Remaining(tasks, gone) != [] {
      var t := Remaining(tasks, gone)[0];
      assert t in Remaining(tasks, gone);
    }
  }

  lemma {:induction false} DroppedIsRemaining(queue: seq<int>, t: int)
    requires NoRepeats(queue)
    ensures Dropped(queue, t) == Remaining(queue, [t])
  {
    if queue != [] {
      if queue[0] == t {
        assert forall u :: u in queue[1..] ==> u != t;
        NothingGone(queue[1..], [t]);
      } else {
        DroppedIsRemaining(queue[1..], t);
      }
    }
  }

  lemma {:induction false} RemainingTwice(tasks: seq<int>, a: seq<int>, b: seq<int>)
    ensures Remaining(Remaining(tasks, a), b) == Remaining(tasks, a + b)
  {
    if tasks != [] {
      RemainingTwice(tasks[1..], a, b);
      var head, rest := if tasks[0] in a then [] else [tasks[0]], Remaining(tasks[1..], a);
      assert Remaining(tasks, a) == head + rest;
      assert tasks[0] in a + b <==> tasks[0] in a || tasks[0] in b;
      if tasks[0] in a {
        assert head + rest == rest;
      } else {
        assert (head + rest)[1..] == rest;
        assert Remaining(head + rest, b) == (if tasks[0] in b then [] else [tasks[0]]) + Remaining(rest, b);
      }
    }
  }

  lemma OnlyLeftTwice(p: map<int, seq<int>>, q: map<int, seq<int>>, r: map<int, seq<int>>, a: seq<int>, b: seq<int>)
    requires OnlyLeft(p, q, a) && OnlyLeft(q, r, b)
    ensures OnlyLeft(p, r, a + b)
  {
    forall w | w in p ensures r[w] == Remaining(p[w], a + b) {
      RemainingTwice(p[w], a, b);
    }
  }

  lemma NobodyLeft(queues: map<int, seq<int>>)
    ensures OnlyLeft(queues, queues, [])
  {
    forall w | w in queues ensures Remaining(queues[w], []) == queues[w] {
      NothingGone(queues[w], []);
    }
  }

  /** One notice, for whatever task: what is recorded as completed is what leaves the queues. */
  lemma NoticeLeaves(s: State, t: int)
    requires GoodQueues(s)
    ensures GoodQueues(Noted(s, t))
    ensures OnlyLeft(s.queues, Noted(s, t).queues, if t in s.open then [t] else [])
  {
    var s' := Noted(s, t);
    NobodyLeft(s.queues);
    forall w | w in s.queues
      ensures GoodQueue(s', w) && (t in s.open ==> s'.queues[w] == Remaining(s.queues[w], [t]))
    {
      assert GoodQueue(s, w);
      if t in s.open && t in s.workerOf && w == s.workerOf[t] {
        DroppedKeeps(s.queues[w], t);
        DroppedIsRemaining(s.queues[w], t);
      } else if t in s.open {
        NothingGone(s.queues[w], [t]);
      }
    }
  }
}
