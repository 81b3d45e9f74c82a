/** File names of the store. */
module Files {
  type File = string
}

/** Sequences that hold nothing twice, and removal from queues. */
module Sequences {
  ghost predicate NoRepeats<T>(s: seq<T>) {
    forall i, j :: 0 <= i < j < |s| ==> s[i] != s[j]
  }

  /** kept is what all has at the positions of at, which are in order. */
  ghost predicate Draws<T>(all: seq<T>, kept: seq<T>, at: seq<int>) {
    && |at| == |kept| && (forall j, k :: 0 <= j < k < |at| ==> at[j] < at[k])
    && (forall k :: 0 <= k < |at| ==> 0 <= at[k] < |all| && kept[k] == all[at[k]])
  }

  lemma DrawsOn<T>(all: seq<T>, kept: seq<T>, at: seq<int>, x: T)
    requires Draws(all, kept, at)
    ensures Draws(all + [x], kept, at) && Draws(all + [x], kept + [x], at + [|all|])
    ensures forall i :: i in at ==> 0 <= i < |all|
    ensures forall i :: i in at + [|all|] <==> i in at || i == |all|
  {
  }

  lemma SliceAcross<T>(a: seq<T>, b: seq<T>, c: seq<T>)
    requires a <= b <= c
    ensures c[|a|..] == b[|a|..] + c[|b|..]
  {
  }

  /** The queue without the first occurrence of t. */
  function Dropped(queue: seq<int>, t: int): seq<int> {
    if queue == [] then []
    else if queue[0] == t then queue[1..]
    else [queue[0]] + Dropped(queue[1..], t)
  }

  lemma {:induction false} DroppedKeeps(queue: seq<int>, t: int)
    requires NoRepeats(queue)
    ensures NoRepeats(Dropped(queue, t)) && |Dropped(queue, t)| <= |queue|
    ensures forall u :: u in Dropped(queue, t) <==> u in queue && u != t
  {
    if queue == [] {
    } else {
      assert queue == [queue[0]] + queue[1..];
      assert forall k :: 0 <= k < |queue[1..]| ==> queue[1..][k] == queue[k + 1];
      assert queue[0] !in queue[1..];
      DroppedKeeps(queue[1..], t);
      var rest := Dropped(queue[1..], t);
      assert forall k :: 0 <= k < |rest| ==> rest[k] in rest && rest[k] != queue[0];
    }
  }

  lemma {:induction false} DroppedAt(queue: seq<int>, t: int, i: nat)
    requires i <= |queue| && forall j :: 0 <= j < i ==> queue[j] != t
    requires i < |queue| ==> queue[i] == t
    ensures Dropped(queue, t) == if i < |queue| then queue[..i] + queue[i + 1..] else queue
  {
    if i > 0 {
      var rest := queue[1..];
      DroppedAt(rest, t, i - 1);
      assert Dropped(queue, t) == [queue[0]] + Dropped(rest, t);
      hide Dropped;
      if i < |queue| {
        assert rest[..i - 1] == queue[1..i] && rest[i..] == queue[i + 1..];
        assert [queue[0]] + queue[1..i] == queue[..i];
      } else {
        assert [queue[0]] + rest == queue;
      }
    }
  }
}
