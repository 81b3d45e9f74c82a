/** When the order in which a de-duplicated buffer is applied shows in the membership list. */
module MergeOrder {
  import opened Entries
  import opened Gossip
  import opened Membership

  // ----- one message, seen from the head of the list -----

  predicate Brings(kind: Kind) {
    kind.Join? || kind.Alive?
  }

  /** The entry of a node that a message brings. */
  function NewEntry(msg: Msg, peerOf: int -> int, now: int): Entry {
    Entry(msg.node, now, Active, peerOf(msg.node))
  }

  /** What a message makes of its own node's entry. */
  function OnEntry(h: Entry, msg: Msg, peerOf: int -> int): seq<Entry> {
    match msg.kind
    case Fail => []
    case Leave => []
    case Join => [h.(status := Active, peer := peerOf(msg.node))]
    case Alive => [h.(status := Active, timestamp := msg.timestamp)]
    case Suspect => [h.(status := Suspected)]
    case Unknown => [h]
  }

  predicate Fresh(list: seq<Entry>, msg: Msg) {
    Brings(msg.kind) && Find(list, msg.node).Absent?
  }

  lemma ActOnHead(list: seq<Entry>, msg: Msg, peerOf: int -> int, now: int)
    requires list != [] && list[0].node == msg.node
    ensures Act(list, msg, peerOf, now) == OnEntry(list[0], msg, peerOf) + list[1..]
  {
    assert IndexOfNode(list, msg.node) == 0;
  }

  lemma IndexPast(list: seq<Entry>, node: int)
    requires list != [] && list[0].node != node
    ensures var i := IndexOfNode(list[1..], node); IndexOfNode(list, node) == if i == -1 then -1 else i + 1
  {
  }

  lemma ActPast(list: seq<Entry>, msg: Msg, peerOf: int -> int, now: int)
    requires list != [] && list[0].node != msg.node
    ensures Fresh(list, msg) <==> Fresh(list[1..], msg)
    ensures Act(list, msg, peerOf, now) ==
            if Fresh(list[1..], msg) && list[0].peer > peerOf(msg.node) then [NewEntry(msg, peerOf, now)] + list
            else [list[0]] + Act(list[1..], msg, peerOf, now)
  {
    IndexPast(list, msg.node);
    assert list == [list[0]] + list[1..];
    hide IndexOfNode;
    if IndexOfNode(list[1..], msg.node) == -1 {
      assert Act(list, msg, peerOf, now) ==
             if Brings(msg.kind) then Added(list, NewEntry(msg, peerOf, now)) else list;
    } else {
      RemovedPast(list, msg.node);
      UpdatedPast(list, msg.node, Suspected);
      if Brings(msg.kind) {
        RefreshedPast(list, msg, peerOf, now);
      }
      hide AddedOrUpdated;
      hide Removed;
      hide Updated;
    }
  }

  lemma RemovedPast(list: seq<Entry>, node: int)
    requires list != [] && list[0].node != node
    ensures Removed(list, node) == [list[0]] + Removed(list[1..], node)
  {
    IndexPast(list, node);
    var i := IndexOfNode(list[1..], node);
    hide IndexOfNode;
    if i != -1 {
      CutPast(list, i);
    }
  }

  lemma UpdatedPast(list: seq<Entry>, node: int, status: Status)
    requires list != [] && list[0].node != node
    ensures Updated(list, node, status) == [list[0]] + Updated(list[1..], node, status)
  {
    IndexPast(list, node);
    var i := IndexOfNode(list[1..], node);
    hide IndexOfNode;
    if i != -1 {
      ReplacedPast(list, i, list[i + 1].(status := status));
    }
  }

  lemma RefreshedPast(list: seq<Entry>, msg: Msg, peerOf: int -> int, now: int)
    requires list != [] && list[0].node != msg.node && Find(list[1..], msg.node).Present? && Brings(msg.kind)
    ensures AddedOrUpdated(list, msg, peerOf, now) == [list[0]] + AddedOrUpdated(list[1..], msg, peerOf, now)
  {
    IndexPast(list, msg.node);
    var i := IndexOfNode(list[1..], msg.node);
    hide IndexOfNode;
    hide Added;
    if msg.kind.Join? {
      ReplacedPast(list, i, list[i + 1].(status := Active, peer := peerOf(msg.node)));
    } else {
      ReplacedPast(list, i, list[i + 1].(status := StatusOf(msg.kind), timestamp := msg.timestamp));
    }
  }

  lemma CutPast(list: seq<Entry>, i: nat)
    requires i + 1 < |list|
    ensures list[..i + 1] + list[i + 2..] == [list[0]] + (list[1..][..i] + list[1..][i + 1..])
  {
  }

  lemma ReplacedPast(list: seq<Entry>, i: nat, e: Entry)
    requires i + 1 < |list|
    ensures list[i + 1 := e] == [list[0]] + list[1..][i := e]
  {
  }

  lemma ActOnNothing(msg: Msg, peerOf: int -> int, now: int)
    ensures Act([], msg, peerOf, now) == if Brings(msg.kind) then [NewEntry(msg, peerOf, now)] else []
  {
  }

  lemma ActFresh(list: seq<Entry>, msg: Msg, peerOf: int -> int, now: int)
    requires Fresh(list, msg)
    ensures Act(list, msg, peerOf, now) == Added(list, NewEntry(msg, peerOf, now))
  {
  }

  // ----- two messages about different nodes -----

  lemma ActFreshInFront(list: seq<Entry>, msg: Msg, peerOf: int -> int, now: int)
    requires Fresh(list, msg) && (list != [] ==> list[0].peer > peerOf(msg.node))
    ensures Act(list, msg, peerOf, now) == [NewEntry(msg, peerOf, now)] + list
  {
    ActFresh(list, msg, peerOf, now);
  }

  lemma ActCons(h: Entry, rest: seq<Entry>, msg: Msg, peerOf: int -> int, now: int)
    requires h.node != msg.node && !(Fresh(rest, msg) && h.peer > peerOf(msg.node))
    ensures Act([h] + rest, msg, peerOf, now) == [h] + Act(rest, msg, peerOf, now)
  {
    ActPast([h] + rest, msg, peerOf, now);
    assert ([h] + rest)[1..] == rest;
  }

  // Each entry of the prefix, of which there is one at most, stands for the head it has come from.
  lemma ActBehind(prefix: seq<Entry>, rest: seq<Entry>, msg: Msg, peerOf: int -> int, now: int)
    requires |prefix| <= 1 && (prefix != [] ==> prefix[0].node != msg.node)
    requires Fresh(rest, msg) && prefix != [] ==> prefix[0].peer <= peerOf(msg.node)
    ensures Act(prefix + rest, msg, peerOf, now) == prefix + Act(rest, msg, peerOf, now)
  {
    if prefix == [] {
      assert prefix + rest == rest;
      assert prefix + Act(rest, msg, peerOf, now) == Act(rest, msg, peerOf, now);
    } else {
      assert prefix == [prefix[0]];
      ActCons(prefix[0], rest, msg, peerOf, now);
    }
  }

  lemma ActBefore(prefix: seq<Entry>, rest: seq<Entry>, msg: Msg, peerOf: int -> int, now: int)
    requires |prefix| <= 1 && (prefix != [] ==> prefix[0].node != msg.node && prefix[0].peer > peerOf(msg.node))
    requires Fresh(rest, msg) && (rest != [] ==> rest[0].peer > peerOf(msg.node))
    ensures Act(prefix + rest, msg, peerOf, now) == [NewEntry(msg, peerOf, now)] + prefix + rest
  {
    if prefix == [] {
      assert prefix + rest == rest;
      ActFreshInFront(rest, msg, peerOf, now);
    } else {
      assert prefix == [prefix[0]] && (prefix + rest)[1..] == rest;
      ActPast(prefix + rest, msg, peerOf, now);
    }
  }

  // What a message about the head makes of it, next to a message about another node.
  lemma HeadChanged(list: seq<Entry>, x: Msg, y: Msg, peerOf: int -> int, now: int)
    requires WellFormed(list, peerOf) && list != [] && list[0].node == x.node != y.node
    ensures var changed := OnEntry(list[0], x, peerOf);
            |changed| <= 1 && (changed != [] ==> changed[0].node == x.node && changed[0].peer == list[0].peer)
    ensures NewEntry(y, peerOf, now).node == y.node && !Fresh(list, x)
    ensures list[1..] != [] ==> list[1..][0].peer >= list[0].peer
  {
    FindHead(list, x.node);
  }

  // One message is about the head.
  lemma HeadCommutes(list: seq<Entry>, x: Msg, y: Msg, peerOf: int -> int, now: int)
    requires WellFormed(list, peerOf) && list != [] && list[0].node == x.node != y.node
    ensures Act(Act(list, x, peerOf, now), y, peerOf, now) == Act(Act(list, y, peerOf, now), x, peerOf, now)
  {
    hide *;
    var h, tail := list[0], list[1..];
    var changed, entry := OnEntry(h, x, peerOf), NewEntry(y, peerOf, now);
    HeadChanged(list, x, y, peerOf, now);
    ActOnHead(list, x, peerOf, now);
    ActPast(list, y, peerOf, now);
    if Fresh(tail, y) && h.peer > peerOf(y.node) {
      ActCons(entry, list, x, peerOf, now);
      ActBefore(changed, tail, y, peerOf, now);
      assert [entry] + changed + tail == [entry] + (changed + tail);
    } else {
      var rest := Act(tail, y, peerOf, now);
      ActBehind(changed, tail, y, peerOf, now);
      ActOnHead([h] + rest, x, peerOf, now);
      assert ([h] + rest)[1..] == rest;
    }
  }

  // x brings no newcomer; y may.
  lemma {:induction false} StillCommutes(list: seq<Entry>, x: Msg, y: Msg, peerOf: int -> int, now: int)
    requires WellFormed(list, peerOf) && x.node != y.node && !Fresh(list, x)
    ensures Act(Act(list, x, peerOf, now), y, peerOf, now) == Act(Act(list, y, peerOf, now), x, peerOf, now)
    decreases |list|
  {
    if list == [] {
      NothingCommutes(x, y, peerOf, now);
    } else if list[0].node == x.node {
      HeadCommutes(list, x, y, peerOf, now);
    } else if list[0].node == y.node {
      HeadCommutes(list, y, x, peerOf, now);
    } else {
      HeadAndTail(list, peerOf);
      ActPast(list, x, peerOf, now);
      ActPast(list, y, peerOf, now);
      StillCommutes(list[1..], x, y, peerOf, now);
      PastCommutes(list, x, y, peerOf, now);
    }
  }

  lemma NothingCommutes(x: Msg, y: Msg, peerOf: int -> int, now: int)
    requires x.node != y.node && !Brings(x.kind)
    ensures Act(Act([], x, peerOf, now), y, peerOf, now) == Act(Act([], y, peerOf, now), x, peerOf, now)
  {
    var entry := NewEntry(y, peerOf, now);
    ActOnNothing(x, peerOf, now);
    ActOnNothing(y, peerOf, now);
    assert entry.node == y.node && !Fresh([], x);
    hide *;
    if Brings(y.kind) {
      ActCons(entry, [], x, peerOf, now);
      assert [entry] + [] == [entry];
    }
  }

  lemma FreshAfter(list: seq<Entry>, x: Msg, y: Msg, peerOf: int -> int, now: int)
    requires WellFormed(list, peerOf) && x.node != y.node
    ensures Fresh(Act(list, y, peerOf, now), x) <==> Fresh(list, x)
  {
    ActKeeps(list, y, peerOf, now);
  }

  lemma PastCommutes(list: seq<Entry>, x: Msg, y: Msg, peerOf: int -> int, now: int)
    requires WellFormed(list, peerOf) && x.node != y.node && !Fresh(list, x)
    requires list != [] && list[0].node != x.node && list[0].node != y.node
    requires Act(Act(list[1..], x, peerOf, now), y, peerOf, now) == Act(Act(list[1..], y, peerOf, now), x, peerOf, now)
    ensures Act(Act(list, x, peerOf, now), y, peerOf, now) == Act(Act(list, y, peerOf, now), x, peerOf, now)
  {
    var h, tail, entry := list[0], list[1..], NewEntry(y, peerOf, now);
    assert entry.node == y.node;
    HeadAndTail(list, peerOf);
    hide *;
    ActPast(list, x, peerOf, now);
    ActPast(list, y, peerOf, now);
    FreshAfter(tail, x, y, peerOf, now);
    FreshAfter(tail, y, x, peerOf, now);
    var moved := Act(tail, x, peerOf, now);
    if Fresh(tail, y) && h.peer > peerOf(y.node) {
      ActCons(entry, list, x, peerOf, now);
      ActPast([h] + moved, y, peerOf, now);
      assert ([h] + moved)[1..] == moved;
    } else {
      ActCons(h, moved, y, peerOf, now);
      ActCons(h, Act(tail, y, peerOf, now), x, peerOf, now);
    }
  }

  /** Messages about different nodes commute, unless both bring a newcomer and the newcomers' peer ids are equal. */
  lemma MessagesCommuteIff(list: seq<Entry>, x: Msg, y: Msg, peerOf: int -> int, now: int)
    requires WellFormed(list, peerOf) && x.node != y.node
    ensures Act(Act(list, x, peerOf, now), y, peerOf, now) == Act(Act(list, y, peerOf, now), x, peerOf, now) <==>
            !(Fresh(list, x) && Fresh(list, y) && peerOf(x.node) == peerOf(y.node))
  {
    if !Fresh(list, x) {
      StillCommutes(list, x, y, peerOf, now);
    } else if !Fresh(list, y) {
      StillCommutes(list, y, x, peerOf, now);
    } else {
      FreshAfter(list, x, y, peerOf, now);
      FreshAfter(list, y, x, peerOf, now);
      ActFresh(list, x, peerOf, now);
      ActFresh(list, y, peerOf, now);
      ActFresh(Act(list, x, peerOf, now), y, peerOf, now);
      ActFresh(Act(list, y, peerOf, now), x, peerOf, now);
      NewcomersCommuteIff(list, NewEntry(x, peerOf, now), NewEntry(y, peerOf, now));
    }
  }

  // ----- a whole buffer -----

  /** No two kept messages bring newcomers with the same peer id. */
  ghost predicate NoTwins(list: seq<Entry>, latest: map<int, Msg>, peerOf: int -> int) {
    forall m, n :: m in latest && n in latest && m != n && Fresh(list, latest[m]) && Fresh(list, latest[n]) ==>
                     peerOf(m) != peerOf(n)
  }

  // Messages that are not about x's node leave x as new as it was.
  lemma StaysFresh(list: seq<Entry>, msgs: seq<Msg>, x: Msg, peerOf: int -> int, now: int)
    requires WellFormed(list, peerOf)
    requires forall i :: 0 <= i < |msgs| ==> msgs[i].node != x.node
    ensures Fresh(ActAll(list, msgs, peerOf, now), x) <==> Fresh(list, x)
  {
    Untouched(list, msgs, peerOf, now, x.node);
  }

  lemma CommuteAtEnd(list: seq<Entry>, front: seq<Msg>, x: Msg, y: Msg, peerOf: int -> int, now: int)
    requires WellFormed(list, peerOf) && x.node != y.node
    requires forall i :: 0 <= i < |front| ==> front[i].node != x.node && front[i].node != y.node
    ensures ActAll(list, front + [x] + [y], peerOf, now) == ActAll(list, front + [y] + [x], peerOf, now) <==>
            !(Fresh(list, x) && Fresh(list, y) && peerOf(x.node) == peerOf(y.node))
  {
    var sofar := ActAll(list, front, peerOf, now);
    ActAllKeeps(list, front, peerOf, now);
    StaysFresh(list, front, x, peerOf, now);
    StaysFresh(list, front, y, peerOf, now);
    MessagesCommuteIff(sofar, x, y, peerOf, now);
    hide Act;
    hide Fresh;
    ActAllSnoc(list, front, x, peerOf, now);
    ActAllSnoc(list, front + [x], y, peerOf, now);
    ActAllSnoc(list, front, y, peerOf, now);
    ActAllSnoc(list, front + [y], x, peerOf, now);
  }

  lemma ActAllSnoc(list: seq<Entry>, front: seq<Msg>, x: Msg, peerOf: int -> int, now: int)
    ensures ActAll(list, front + [x], peerOf, now) == Act(ActAll(list, front, peerOf, now), x, peerOf, now)
  {
    assert (front + [x])[..|front + [x]| - 1] == front;
  }

  /** A message can be applied last instead. */
  lemma {:induction false} SinkToEnd(list: seq<Entry>, msgs: seq<Msg>, j: nat, latest: map<int, Msg>,
                                     peerOf: int -> int, now: int)
    requires WellFormed(list, peerOf) && Lists(msgs, latest) && NoTwins(list, latest, peerOf) && j < |msgs|
    ensures ActAll(list, msgs, peerOf, now) ==
            Act(ActAll(list, msgs[..j] + msgs[j + 1..], peerOf, now), msgs[j], peerOf, now)
  {
    var front, x, z := msgs[..|msgs| - 1], msgs[j], msgs[|msgs| - 1];
    if j == |front| {
      assert msgs[..j] + msgs[j + 1..] == front;
    } else {
      var others := WithoutInner(msgs, j, latest);
      SinkToEnd(list, front, j, latest - {z.node}, peerOf, now);
      hide Lists;
      hide Act;
      CommuteAtEnd(list, others, x, z, peerOf, now);
      ActAllSnoc(list, others, x, peerOf, now);
      ActAllSnoc(list, others + [x], z, peerOf, now);
      ActAllSnoc(list, others + [z], x, peerOf, now);
    }
  }

  lemma WithoutInner(msgs: seq<Msg>, j: nat, latest: map<int, Msg>) returns (others: seq<Msg>)
    requires Lists(msgs, latest) && j + 1 < |msgs|
    ensures var front, x, z := msgs[..|msgs| - 1], msgs[j], msgs[|msgs| - 1];
            && Lists(front, latest - {z.node})
            && others == front[..j] + front[j + 1..] && msgs[..j] + msgs[j + 1..] == others + [z]
            && (forall i :: 0 <= i < |others| ==> others[i].node != x.node && others[i].node != z.node)
            && x.node in latest && latest[x.node] == x && z.node in latest && latest[z.node] == z && x.node != z.node
  {
    var front := msgs[..|msgs| - 1];
    others := front[..j] + front[j + 1..];
    ListsFront(msgs, latest);
    assert msgs[..j] + msgs[j + 1..] == others + [msgs[|msgs| - 1]];
    assert forall i :: 0 <= i < |others| ==> others[i] == msgs[if i < j then i else i + 1];
  }

  lemma ListsWithout(msgs: seq<Msg>, j: nat, latest: map<int, Msg>)
    requires Lists(msgs, latest) && j < |msgs|
    ensures Lists(msgs[..j] + msgs[j + 1..], latest - {msgs[j].node})
  {
    var others, rest := msgs[..j] + msgs[j + 1..], latest - {msgs[j].node};
    assert forall i :: 0 <= i < |others| ==> others[i] == msgs[if i < j then i else i + 1];
    forall n | n in rest ensures rest[n] in others {
      var i :| 0 <= i < |msgs| && msgs[i] == latest[n];
      assert others[if i < j then i else i - 1] == rest[n];
    }
  }

  lemma ListsNothingIff(msgs: seq<Msg>, latest: map<int, Msg>)
    requires Lists(msgs, latest)
    ensures msgs == [] <==> latest == map[]
  {
    if msgs == [] {
      assert forall n :: n !in latest;
    } else {
      assert msgs[0].node in latest;
    }
  }

  lemma {:induction false} ListingsAgree(list: seq<Entry>, p: seq<Msg>, q: seq<Msg>, latest: map<int, Msg>,
                                         peerOf: int -> int, now: int)
    requires WellFormed(list, peerOf) && Lists(p, latest) && Lists(q, latest) && NoTwins(list, latest, peerOf)
    ensures ActAll(list, p, peerOf, now) == ActAll(list, q, peerOf, now)
  {
    if p == [] {
      ListsNothingIff(p, latest);
      ListsNothingIff(q, latest);
    } else {
      var x := p[|p| - 1];
      assert latest[x.node] == x;
      var j :| 0 <= j < |q| && q[j] == x;
      SinkToEnd(list, q, j, latest, peerOf, now);
      ListsFront(p, latest);
      ListsWithout(q, j, latest);
      ListingsAgree(list, p[..|p| - 1], q[..j] + q[j + 1..], latest - {x.node}, peerOf, now);
    }
  }

  lemma {:induction false} SomeListing(latest: map<int, Msg>) returns (msgs: seq<Msg>)
    requires forall n :: n in latest ==> latest[n].node == n
    ensures Lists(msgs, latest)
    decreases |latest|
  {
    if n :| n in latest {
      var front := SomeListing(latest - {n});
      msgs := ListsSnoc(front, latest[n], latest);
    } else {
      msgs := [];
    }
  }

  lemma ListsSnoc(front: seq<Msg>, x: Msg, latest: map<int, Msg>) returns (msgs: seq<Msg>)
    requires x.node in latest && latest[x.node] == x && Lists(front, latest - {x.node})
    ensures msgs == front + [x] && Lists(msgs, latest)
  {
    msgs := front + [x];
    forall n | n in latest ensures latest[n] in msgs && latest[n].node == n {
      if n != x.node {
        assert (latest - {x.node})[n] == latest[n];
      } else {
        assert msgs[|front|] == x;
      }
    }
  }

  lemma TwinsShow(list: seq<Entry>, latest: map<int, Msg>, peerOf: int -> int, now: int)
    returns (p: seq<Msg>, q: seq<Msg>)
    requires WellFormed(list, peerOf) && !NoTwins(list, latest, peerOf)
    requires forall n :: n in latest ==> latest[n].node == n
    ensures Lists(p, latest) && Lists(q, latest)
    ensures ActAll(list, p, peerOf, now) != ActAll(list, q, peerOf, now)
  {
    var m, n :| m in latest && n in latest && m != n && Fresh(list, latest[m]) && Fresh(list, latest[n]) &&
                peerOf(m) == peerOf(n);
    var x, y := latest[m], latest[n];
    var front := SomeListing(latest - {m} - {n});
    assert latest - {n} - {m} == latest - {m} - {n};
    var withX := ListsSnoc(front, x, latest - {n});
    p := ListsSnoc(withX, y, latest);
    var withY := ListsSnoc(front, y, latest - {m});
    q := ListsSnoc(withY, x, latest);
    CommuteAtEnd(list, front, x, y, peerOf, now);
  }

  /** Whatever order the map hands the kept messages out in, the list comes out the same, timestamps included,
      exactly when no two of them bring newcomers with the same peer id. */
  lemma OrderDoesNotShowIff(list: seq<Entry>, latest: map<int, Msg>, peerOf: int -> int, now: int)
    requires WellFormed(list, peerOf) && forall n :: n in latest ==> latest[n].node == n
    ensures (forall p, q :: Lists(p, latest) && Lists(q, latest) ==>
                              ActAll(list, p, peerOf, now) == ActAll(list, q, peerOf, now)) <==>
            NoTwins(list, latest, peerOf)
  {
    if NoTwins(list, latest, peerOf) {
      forall p, q | Lists(p, latest) && Lists(q, latest)
        ensures ActAll(list, p, peerOf, now) == ActAll(list, q, peerOf, now)
      {
        ListingsAgree(list, p, q, latest, peerOf, now);
      }
    } else {
      var p, q := TwinsShow(list, latest, peerOf, now);
    }
  }
}
