/** The membership list and what gossip does to it. */
module Membership {
  import opened Sequences
  import opened Entries
  import opened Ring
  import opened Gossip

  const KNEIGHBORS := 3

  datatype Lookup = Absent | Present(status: Status)

  // ----- the list as a value -----

  function IndexOfNode(list: seq<Entry>, node: int): (index: int)
    ensures -1 <= index < |list|
    ensures index >= 0 ==> list[index].node == node
    ensures forall k :: 0 <= k < |list| && (index == -1 || k < index) ==> list[k].node != node
  {
    if list == [] then -1
    else if list[0].node == node then 0
    else
      var rest := IndexOfNode(list[1..], node);
      assert forall k :: 1 <= k < |list| ==> list[k] == list[1..][k - 1];
      if rest == -1 then -1 else rest + 1
  }

  /** What the list says about a node. */
  function Find(list: seq<Entry>, node: int): Lookup {
    var i := IndexOfNode(list, node);
    if i == -1 then Absent else Present(list[i].status)
  }

  /** Sorted by peer id, one entry a node, and the peer id is the hash of the node's address. */
  ghost predicate WellFormed(list: seq<Entry>, peerOf: int -> int) {
    && (forall i, j :: 0 <= i < j < |list| ==> list[i].peer <= list[j].peer)
    && (forall i, j :: 0 <= i < j < |list| ==> list[i].node != list[j].node)
    && (forall i :: 0 <= i < |list| ==> list[i].peer == peerOf(list[i].node))
  }

  /** Everything but the timestamps. */
  function Shape(list: seq<Entry>): (shape: seq<(int, Status, int)>)
    ensures |shape| == |list|
  {
    seq(|list|, i requires 0 <= i < |list| => (list[i].node, list[i].status, list[i].peer))
  }

  // Appending and sorting by peer id: the new entry ends up behind all those not above it.
  function Added(list: seq<Entry>, e: Entry): seq<Entry> {
    if list == [] then [e]
    else if list[0].peer > e.peer then [e] + list
    else [list[0]] + Added(list[1..], e)
  }

  function Removed(list: seq<Entry>, node: int): seq<Entry> {
    var i := IndexOfNode(list, node);
    if i == -1 then list else list[..i] + list[i + 1..]
  }

  function Updated(list: seq<Entry>, node: int, status: Status): seq<Entry> {
    var i := IndexOfNode(list, node);
    if i == -1 then list else list[i := list[i].(status := status)]
  }

  function AddedOrUpdated(list: seq<Entry>, msg: Msg, peerOf: int -> int, now: int): seq<Entry> {
    var i := IndexOfNode(list, msg.node);
    if i == -1 then Added(list, Entry(msg.node, now, Active, peerOf(msg.node)))
    else if !msg.kind.Join? then list[i := list[i].(status := StatusOf(msg.kind), timestamp := msg.timestamp)]
    else list[i := list[i].(status := Active, peer := peerOf(msg.node))]
  }

  // The status named by a message type; only ALIVE reaches this, and its text is that of ACTIVE.
  function StatusOf(kind: Kind): Status {
    match kind
    case Fail => Failed
    case Leave => Left
    case Suspect => Suspected
    case _ => Active
  }

  /** One message applied. */
  function Act(list: seq<Entry>, msg: Msg, peerOf: int -> int, now: int): seq<Entry> {
    match msg.kind
    case Fail => Removed(list, msg.node)
    case Leave => Removed(list, msg.node)
    case Join => AddedOrUpdated(list, msg, peerOf, now)
    case Alive => AddedOrUpdated(list, msg, peerOf, now)
    case Suspect => Updated(list, msg.node, Suspected)
    case Unknown => list
  }

  function ActAll(list: seq<Entry>, msgs: seq<Msg>, peerOf: int -> int, now: int): seq<Entry> {
    if msgs == [] then list
    else Act(ActAll(list, msgs[..|msgs| - 1], peerOf, now), msgs[|msgs| - 1], peerOf, now)
  }

  /** What a message means for the node it names, whatever the rest of the list. */
  function Effect(was: Lookup, kind: Kind): Lookup {
    match kind
    case Fail => Absent
    case Leave => Absent
    case Join => Present(Active)
    case Alive => Present(Active)
    case Suspect => if was.Present? then Present(Suspected) else Absent
    case Unknown => was
  }

  // ----- messages act on their own node only -----

  lemma AtMostOneIndex(list: seq<Entry>, peerOf: int -> int, i: int)
    requires WellFormed(list, peerOf) && 0 <= i < |list|
    ensures IndexOfNode(list, list[i].node) == i
  {
  }

  lemma FindHead(list: seq<Entry>, n: int)
    requires list != []
    ensures Find(list, n) == if list[0].node == n then Present(list[0].status) else Find(list[1..], n)
  {
  }

  lemma ConsKeeps(x: Entry, rest: seq<Entry>, peerOf: int -> int)
    requires WellFormed(rest, peerOf) && x.peer == peerOf(x.node)
    requires forall y :: y in rest ==> x.peer <= y.peer && x.node != y.node
    ensures WellFormed([x] + rest, peerOf)
    ensures forall n :: Find([x] + rest, n) == if n == x.node then Present(x.status) else Find(rest, n)
  {
    assert ([x] + rest)[1..] == rest;
    forall n {
      FindHead([x] + rest, n);
    }
  }

  lemma HeadAndTail(list: seq<Entry>, peerOf: int -> int)
    requires WellFormed(list, peerOf) && list != []
    ensures WellFormed(list[1..], peerOf) && list == [list[0]] + list[1..]
    ensures forall y :: y in list[1..] ==> list[0].peer <= y.peer && list[0].node != y.node
    ensures forall n :: Find(list, n) == if list[0].node == n then Present(list[0].status) else Find(list[1..], n)
  {
    assert forall i :: 0 <= i < |list[1..]| ==> list[1..][i] == list[i + 1];
    forall n {
      FindHead(list, n);
    }
  }

  lemma {:induction false} AddedKeeps(list: seq<Entry>, e: Entry, peerOf: int -> int)
    requires WellFormed(list, peerOf) && e.peer == peerOf(e.node)
    requires forall y :: y in list ==> y.node != e.node
    ensures WellFormed(Added(list, e), peerOf)
    ensures forall x :: x in Added(list, e) <==> x in list || x == e
    ensures forall n :: Find(Added(list, e), n) == if n == e.node then Present(e.status) else Find(list, n)
  {
    if list == [] {
      ConsKeeps(e, [], peerOf);
      assert [e] + [] == [e];
    } else {
      HeadAndTail(list, peerOf);
      hide Find;
      hide IndexOfNode;
      hide WellFormed;
      if list[0].peer > e.peer {
        ConsKeeps(e, list, peerOf);
      } else {
        AddedKeeps(list[1..], e, peerOf);
        ConsKeeps(list[0], Added(list[1..], e), peerOf);
      }
    }
  }

  lemma FindAfterCut(list: seq<Entry>, k: nat, after: seq<Entry>, peerOf: int -> int, n: int)
    requires WellFormed(list, peerOf) && WellFormed(after, peerOf) && k < |list| == |after| + 1
    requires forall i :: 0 <= i < |after| ==> after[i] == list[if i < k then i else i + 1]
    ensures Find(after, n) == if n == list[k].node then Absent else Find(list, n)
  {
    var i, j := IndexOfNode(after, n), IndexOfNode(list, n);
    if n != list[k].node && j != -1 {
      assert after[if j < k then j else j - 1] == list[j];
      AtMostOneIndex(after, peerOf, if j < k then j else j - 1);
    } else if i != -1 {
      AtMostOneIndex(list, peerOf, if i < k then i else i + 1);
    }
  }

  lemma CutKeeps(list: seq<Entry>, k: nat, peerOf: int -> int)
    requires WellFormed(list, peerOf) && k < |list|
    ensures var after := list[..k] + list[k + 1..];
            && WellFormed(after, peerOf) && |after| == |list| - 1
            && forall i :: 0 <= i < |after| ==> after[i] == list[if i < k then i else i + 1]
  {
  }

  lemma RemovedKeeps(list: seq<Entry>, node: int, peerOf: int -> int)
    requires WellFormed(list, peerOf)
    ensures WellFormed(Removed(list, node), peerOf)
    ensures forall n :: Find(Removed(list, node), n) == if n == node then Absent else Find(list, n)
    ensures forall x :: x in Removed(list, node) ==> x in list
  {
    var k, after := IndexOfNode(list, node), Removed(list, node);
    if k != -1 {
      CutKeeps(list, k, peerOf);
      hide WellFormed;
      hide Find;
      forall n ensures Find(after, n) == if n == node then Absent else Find(list, n) {
        FindAfterCut(list, k, after, peerOf, n);
      }
    }
  }

  // Replacing an entry by one of the same node and peer.
  lemma ReplacedKeeps(list: seq<Entry>, k: int, e: Entry, peerOf: int -> int)
    requires WellFormed(list, peerOf) && 0 <= k < |list|
    requires e.node == list[k].node && e.peer == list[k].peer
    ensures WellFormed(list[k := e], peerOf)
    ensures forall n :: Find(list[k := e], n) == if n == e.node then Present(e.status) else Find(list, n)
  {
    var after := list[k := e];
    AtMostOneIndex(list, peerOf, k);
    forall n ensures Find(after, n) == if n == e.node then Present(e.status) else Find(list, n) {
      var i, j := IndexOfNode(after, n), IndexOfNode(list, n);
      if j != -1 {
        assert after[j].node == n;
        AtMostOneIndex(after, peerOf, j);
      } else if i != -1 {
        AtMostOneIndex(list, peerOf, i);
      }
    }
  }

  /** A message keeps the list well formed and has its effect on the named node alone. */
  lemma ActKeeps(list: seq<Entry>, msg: Msg, peerOf: int -> int, now: int)
    requires WellFormed(list, peerOf)
    ensures WellFormed(Act(list, msg, peerOf, now), peerOf)
    ensures forall n :: Find(Act(list, msg, peerOf, now), n) ==
                        if n == msg.node then Effect(Find(list, n), msg.kind) else Find(list, n)
  {
    var i := IndexOfNode(list, msg.node);
    match msg.kind
    case Fail => RemovedKeeps(list, msg.node, peerOf);
    case Leave => RemovedKeeps(list, msg.node, peerOf);
    case Suspect =>
      if i != -1 {
        ReplacedKeeps(list, i, list[i].(status := Suspected), peerOf);
      }
    case Unknown =>
    case Join =>
      if i == -1 {
        AddedKeeps(list, Entry(msg.node, now, Active, peerOf(msg.node)), peerOf);
      } else {
        ReplacedKeeps(list, i, list[i].(status := Active, peer := peerOf(msg.node)), peerOf);
      }
    case Alive =>
      if i == -1 {
        AddedKeeps(list, Entry(msg.node, now, Active, peerOf(msg.node)), peerOf);
      } else {
        ReplacedKeeps(list, i, list[i].(status := Active, timestamp := msg.timestamp), peerOf);
      }
  }

  /** What a message does, in terms of the entries: a failure or a departure leaves none of the node, a join or a sign
      of life makes it active, the latter with its own timestamp, a suspicion marks the entry it finds, and entries of
      other nodes stay as they are. */
  ghost predicate Does(before: seq<Entry>, after: seq<Entry>, msg: Msg, peer: int, now: int) {
    && (forall e: Entry :: e.node != msg.node ==> (e in after <==> e in before))
    && (msg.kind.Fail? || msg.kind.Leave? ==> forall e :: e in after ==> e.node != msg.node)
    && (msg.kind.Join? || msg.kind.Alive? ==>
          && (forall e :: e in after && e.node == msg.node ==> e.status == Active)
          && ((forall e :: e in before ==> e.node != msg.node) ==> Entry(msg.node, now, Active, peer) in after))
    && (msg.kind.Join? ==>
          forall e :: e in before && e.node == msg.node ==> e.(status := Active, peer := peer) in after)
    && (msg.kind.Alive? ==>
          forall e :: e in before && e.node == msg.node ==> e.(status := Active, timestamp := msg.timestamp) in after)
    && (msg.kind.Suspect? ==>
          && (forall e :: e in after && e.node == msg.node ==> e.status == Suspected)
          && (forall e :: e in before && e.node == msg.node ==> e.(status := Suspected) in after))
    && (msg.kind.Unknown? ==> after == before)
  }

  lemma CutEntries(list: seq<Entry>, k: nat, peerOf: int -> int)
    requires WellFormed(list, peerOf) && k < |list|
    ensures forall e :: e in list[..k] + list[k + 1..] <==> e in list && e.node != list[k].node
  {
    forall e | e in list && e.node != list[k].node ensures e in list[..k] + list[k + 1..] {
      var i :| 0 <= i < |list| && list[i] == e;
      assert (list[..k] + list[k + 1..])[if i < k then i else i - 1] == e;
    }
  }

  lemma ReplacedEntries(list: seq<Entry>, k: nat, e: Entry, peerOf: int -> int)
    requires WellFormed(list, peerOf) && k < |list| && e.node == list[k].node
    ensures e in list[k := e]
    ensures forall x :: x in list[k := e] <==> x == e || (x in list && x.node != e.node)
  {
    assert list[k := e][k] == e;
    forall x | x in list && x.node != e.node ensures x in list[k := e] {
      var i :| 0 <= i < |list| && list[i] == x;
      assert list[k := e][i] == x;
    }
  }

  // The one entry of the node has been replaced.
  lemma ReplacingDoes(before: seq<Entry>, after: seq<Entry>, was: Entry, e: Entry, msg: Msg, peer: int, now: int)
    requires was in before && was.node == msg.node && e.node == msg.node
    requires forall x :: x in before && x.node == msg.node ==> x == was
    requires forall x :: x in after <==> x == e || (x in before && x.node != e.node)
    requires match msg.kind
      case Join => e == was.(status := Active, peer := peer)
      case Alive => e == was.(status := Active, timestamp := msg.timestamp)
      case Suspect => e == was.(status := Suspected)
      case _ => false
    ensures Does(before, after, msg, peer, now)
  {
  }

  lemma ActDoes(list: seq<Entry>, msg: Msg, peerOf: int -> int, now: int)
    requires WellFormed(list, peerOf)
    ensures Does(list, Act(list, msg, peerOf, now), msg, peerOf(msg.node), now)
  {
    var i, peer, after := IndexOfNode(list, msg.node), peerOf(msg.node), Act(list, msg, peerOf, now);
    if i == -1 {
      if msg.kind.Join? || msg.kind.Alive? {
        AddedKeeps(list, Entry(msg.node, now, Active, peer), peerOf);
      }
    } else {
      var was := list[i];
      assert was in list && forall e :: e in list && e.node == msg.node ==> e == was;
      match msg.kind
      case Unknown =>
      case Fail => CutEntries(list, i, peerOf);
      case Leave => CutEntries(list, i, peerOf);
      case Suspect => ReplaceDoes(list, i, after, was.(status := Suspected), msg, peerOf, now);
      case Join => ReplaceDoes(list, i, after, was.(status := Active, peer := peer), msg, peerOf, now);
      case Alive => ReplaceDoes(list, i, after, was.(status := Active, timestamp := msg.timestamp), msg, peerOf, now);
    }
  }

  lemma ReplaceDoes(list: seq<Entry>, i: nat, after: seq<Entry>, e: Entry, msg: Msg, peerOf: int -> int, now: int)
    requires WellFormed(list, peerOf) && i < |list| && list[i].node == msg.node && after == list[i := e]
    requires e == match msg.kind
      case Join => list[i].(status := Active, peer := peerOf(msg.node))
      case Alive => list[i].(status := Active, timestamp := msg.timestamp)
      case _ => list[i].(status := Suspected)
    requires msg.kind.Join? || msg.kind.Alive? || msg.kind.Suspect?
    ensures Does(list, after, msg, peerOf(msg.node), now)
  {
    assert list[i] in list && forall x :: x in list && x.node == msg.node ==> x == list[i];
    ReplacedEntries(list, i, e, peerOf);
    hide WellFormed;
    ReplacingDoes(list, after, list[i], e, msg, peerOf(msg.node), now);
  }

  // ----- a de-duplicated buffer acts pointwise -----

  /** The effect of the kept messages on one node. */
  function Merged(was: Lookup, n: int, latest: map<int, Msg>): Lookup {
    if n in latest then Effect(was, latest[n].kind) else was
  }

  lemma {:induction false} ActAllKeeps(list: seq<Entry>, msgs: seq<Msg>, peerOf: int -> int, now: int)
    requires WellFormed(list, peerOf)
    ensures WellFormed(ActAll(list, msgs, peerOf, now), peerOf)
  {
    if msgs != [] {
      ActAllKeeps(list, msgs[..|msgs| - 1], peerOf, now);
      ActKeeps(ActAll(list, msgs[..|msgs| - 1], peerOf, now), msgs[|msgs| - 1], peerOf, now);
    }
  }

  /** Applying a de-duplicated buffer in whatever order gives each node the effect of its one message. */
  lemma {:induction false} BufferActsPointwise(list: seq<Entry>, msgs: seq<Msg>, latest: map<int, Msg>,
                                               peerOf: int -> int, now: int, n: int)
    requires WellFormed(list, peerOf) && Lists(msgs, latest)
    ensures Find(ActAll(list, msgs, peerOf, now), n) == Merged(Find(list, n), n, latest)
  {
    if msgs == [] {
      assert n !in latest;
    } else {
      var front, last := msgs[..|msgs| - 1], msgs[|msgs| - 1];
      var rest := latest - {last.node};
      ListsFront(msgs, latest);
      ActAllKeeps(list, front, peerOf, now);
      ActKeeps(ActAll(list, front, peerOf, now), last, peerOf, now);
      BufferActsPointwise(list, front, rest, peerOf, now, n);
    }
  }

  lemma ListsFront(msgs: seq<Msg>, latest: map<int, Msg>)
    requires msgs != [] && Lists(msgs, latest)
    ensures Lists(msgs[..|msgs| - 1], latest - {msgs[|msgs| - 1].node})
  {
    var front, last := msgs[..|msgs| - 1], msgs[|msgs| - 1];
    var rest := latest - {last.node};
    forall n | n in rest ensures rest[n] in front {
      var i :| 0 <= i < |msgs| && msgs[i] == latest[n];
      assert front[i] == rest[n];
    }
  }

  /** Applying the buffer again changes nothing, so leaving it in place until the next ping is harmless. */
  lemma ApplyingTwiceIsOnce(list: seq<Entry>, first: seq<Msg>, second: seq<Msg>, latest: map<int, Msg>,
                            peerOf: int -> int, now: int, later: int, n: int)
    requires WellFormed(list, peerOf) && Lists(first, latest) && Lists(second, latest)
    ensures var once := ActAll(list, first, peerOf, now);
            Find(ActAll(once, second, peerOf, later), n) == Find(once, n)
  {
    var once := ActAll(list, first, peerOf, now);
    ActAllKeeps(list, first, peerOf, now);
    BufferActsPointwise(list, first, latest, peerOf, now, n);
    BufferActsPointwise(once, second, latest, peerOf, later, n);
  }

  // ----- two newcomers -----

  /** Two newcomers commute exactly when their addresses hash to different positions. */
  lemma {:induction false} NewcomersCommuteIff(list: seq<Entry>, x: Entry, y: Entry)
    requires x.node != y.node
    requires forall i, j :: 0 <= i < j < |list| ==> list[i].peer <= list[j].peer
    ensures Added(Added(list, x), y) == Added(Added(list, y), x) <==> x.peer != y.peer
  {
    if list != [] && list[0].peer <= x.peer && list[0].peer <= y.peer {
      NewcomersCommuteIff(list[1..], x, y);
      var xs, ys := Added(list[1..], x), Added(list[1..], y);
      AddedBehind(list[0], xs, y);
      AddedBehind(list[0], ys, x);
      assert ([list[0]] + Added(xs, y))[1..] == Added(xs, y) && ([list[0]] + Added(ys, x))[1..] == Added(ys, x);
    } else if list == [] || (list[0].peer > x.peer && list[0].peer > y.peer) {
      assert Added(list, x) == [x] + list && Added(list, y) == [y] + list;
      BothInFront(list, x, y);
      BothInFront(list, y, x);
      if x.peer == y.peer {
        assert Added(Added(list, x), y)[0] == x && Added(Added(list, y), x)[0] == y;
      }
    } else if list[0].peer > x.peer {
      AddedBehind(x, list, y);
    } else {
      AddedBehind(y, list, x);
    }
  }

  lemma BothInFront(list: seq<Entry>, x: Entry, y: Entry)
    requires list != [] ==> list[0].peer > y.peer
    ensures Added([x] + list, y) == if x.peer > y.peer then [y, x] + list else [x, y] + list
  {
    if x.peer <= y.peer {
      AddedBehind(x, list, y);
    }
  }

  lemma AddedBehind(h: Entry, tail: seq<Entry>, e: Entry)
    requires h.peer <= e.peer
    ensures Added([h] + tail, e) == [h] + Added(tail, e)
  {
    assert ([h] + tail)[1..] == tail;
  }

  // ----- the service -----

  /** Is the message worth keeping, given what the list says about its node? */
  function Needed(was: Lookup, kind: Kind): bool {
    && !(kind.Fail? && was.Absent?)
    && !(kind.Join? && was.Present?)
    && !(kind.Suspect? && was == Present(Suspected))
  }

  function Filtered(list: seq<Entry>, msgs: seq<Msg>): seq<Msg> {
    if msgs == [] then []
    else
      var front, last := Filtered(list, msgs[..|msgs| - 1]), msgs[|msgs| - 1];
      if Needed(Find(list, last.node), last.kind) then front + [last] else front
  }

  /** Received again after it has been applied, a failure, a join or a suspicion of a present node is dropped,
      and nothing else is. */
  lemma AppliedMessagesAreDropped(list: seq<Entry>, msg: Msg, peerOf: int -> int, now: int, again: Msg)
    requires WellFormed(list, peerOf)
    requires again.node == msg.node && again.kind == msg.kind
    ensures Filtered(Act(list, msg, peerOf, now), [again]) == [] <==>
              msg.kind.Fail? || msg.kind.Join? || (msg.kind.Suspect? && Find(list, msg.node).Present?)
  {
    ActKeeps(list, msg, peerOf, now);
    var after := Act(list, msg, peerOf, now);
    assert [again][..0] == [] && Filtered(after, []) == [];
    assert Filtered(after, [again]) == if Needed(Find(after, again.node), again.kind) then [again] else [];
  }

  // ----- what the filter keeps, in terms of the list's entries -----

  /** A failure that no entry is about, a join that some entry is about, a suspicion of a suspected entry. */
  ghost predicate Superfluous(list: seq<Entry>, m: Msg) {
    || (m.kind.Fail? && forall i :: 0 <= i < |list| ==> list[i].node != m.node)
    || (m.kind.Join? && exists i :: 0 <= i < |list| && list[i].node == m.node)
    || (m.kind.Suspect? && exists i :: 0 <= i < |list| && list[i].node == m.node && list[i].status == Suspected)
  }

  /** kept are the messages at the positions of at, which are those of all that are not superfluous, in order. */
  ghost predicate KeptAt(list: seq<Entry>, messages: seq<Msg>, kept: seq<Msg>, at: seq<int>) {
    && Draws(messages, kept, at)
    && (forall i :: 0 <= i < |messages| ==> (i in at <==> !Superfluous(list, messages[i])))
  }

  /** Each message that is not superfluous is kept, in its place and as often as it came, and no other is. */
  ghost predicate KeepsTheRest(list: seq<Entry>, messages: seq<Msg>, kept: seq<Msg>) {
    exists at :: KeptAt(list, messages, kept, at)
  }

  lemma NeededIff(list: seq<Entry>, peerOf: int -> int, m: Msg)
    requires WellFormed(list, peerOf)
    ensures Needed(Find(list, m.node), m.kind) <==> !Superfluous(list, m)
  {
    var i := IndexOfNode(list, m.node);
    if k :| 0 <= k < |list| && list[k].node == m.node {
      AtMostOneIndex(list, peerOf, k);
    }
  }

  lemma {:induction false} FilterPositions(list: seq<Entry>, peerOf: int -> int, messages: seq<Msg>)
    returns (at: seq<int>)
    requires WellFormed(list, peerOf)
    ensures KeptAt(list, messages, Filtered(list, messages), at)
  {
    at := [];
    if messages != [] {
      var n := |messages| - 1;
      at := FilterPositions(list, peerOf, messages[..n]);
      NeededIff(list, peerOf, messages[n]);
      assert messages == messages[..n] + [messages[n]];
      at := OneMorePosition(list, messages[..n], messages[n], Filtered(list, messages[..n]), at);
    }
  }

  lemma OneMorePosition(list: seq<Entry>, messages: seq<Msg>, m: Msg, kept: seq<Msg>, was: seq<int>)
    returns (at: seq<int>)
    requires KeptAt(list, messages, kept, was)
    ensures KeptAt(list, messages + [m], if Superfluous(list, m) then kept else kept + [m], at)
  {
    hide Superfluous;
    DrawsOn(messages, kept, was, m);
    hide Draws;
    at := if Superfluous(list, m) then was else was + [|messages|];
    forall i | 0 <= i < |messages + [m]| ensures i in at <==> !Superfluous(list, (messages + [m])[i]) {
      assert (messages + [m])[i] == if i < |messages| then messages[i] else m;
    }
  }

  /** Whatever the list, and with no regard to what was applied before. */
  lemma FilterIsExact(list: seq<Entry>, peerOf: int -> int, messages: seq<Msg>)
    requires WellFormed(list, peerOf)
    ensures KeepsTheRest(list, messages, Filtered(list, messages))
  {
    var at := FilterPositions(list, peerOf, messages);
  }

  /** What is superfluous would change nothing, except for one kind of message: a join of a node that is listed as
      suspected is dropped, and would have made it active. */
  lemma DroppedWouldActIff(list: seq<Entry>, m: Msg, peerOf: int -> int, now: int)
    requires WellFormed(list, peerOf) && Superfluous(list, m)
    ensures (exists n :: Find(Act(list, m, peerOf, now), n) != Find(list, n)) <==>
            m.kind.Join? && Find(list, m.node) != Present(Active)
  {
    ActKeeps(list, m, peerOf, now);
    NeededIff(list, peerOf, m);
    assert Find(Act(list, m, peerOf, now), m.node) == Effect(Find(list, m.node), m.kind);
  }

  /** So no failure and no suspicion that would change what the list says is dropped. */
  lemma ChangesAreKept(list: seq<Entry>, m: Msg, peerOf: int -> int, now: int, n: int)
    requires WellFormed(list, peerOf) && (m.kind.Fail? || m.kind.Suspect?)
    requires Find(Act(list, m, peerOf, now), n) != Find(list, n)
    ensures !Superfluous(list, m)
  {
    if Superfluous(list, m) {
      DroppedWouldActIff(list, m, peerOf, now);
    }
  }

  /** A message of a signal that is not superfluous, and that nothing in the buffer or the signal differs from about its
      node, is what is kept about the node. With a failure the node is off the list and signalled. */
  lemma {:induction false} UnopposedIsKept(list: seq<Entry>, buffer: seq<Msg>, messages: seq<Msg>, m: Msg,
                                           peerOf: int -> int, suspicion: bool)
    requires WellFormed(list, peerOf) && m in messages && !Superfluous(list, m)
    requires forall x :: x in buffer || x in messages ==> x.node == m.node ==> x == m
    ensures var latest := Latest(buffer + Filtered(list, messages), suspicion);
            && m.node in latest && latest[m.node] == m
            && Merged(Find(list, m.node), m.node, latest) == Effect(Find(list, m.node), m.kind)
  {
    var kept := Filtered(list, messages);
    var at := FilterPositions(list, peerOf, messages);
    var i :| 0 <= i < |messages| && messages[i] == m;
    var k :| 0 <= k < |at| && at[k] == i;
    var all := buffer + kept;
    assert all[|buffer| + k] == m;
    LatestKeys(all, m.node, suspicion);
    KeptWasSent(all, m.node, suspicion);
  }

  // ----- timestamps -----

  /** The time of the last join about the node, if there is one. */
  function JoinTime(messages: seq<Msg>, node: int, was: int): int {
    if messages == [] then was
    else
      var last := messages[|messages| - 1];
      if last.kind.Join? && last.node == node then last.timestamp else JoinTime(messages[..|messages| - 1], node, was)
  }

  ghost predicate JoinAt(messages: seq<Msg>, node: int, i: int) {
    0 <= i < |messages| && messages[i].kind.Join? && messages[i].node == node
  }

  /** The last join about the node counts; without one nothing changes. */
  lemma {:induction false} JoinTimeIsLast(messages: seq<Msg>, node: int, was: int, i: int)
    requires forall j :: i < j ==> !JoinAt(messages, node, j)
    requires i == -1 || JoinAt(messages, node, i)
    ensures JoinTime(messages, node, was) == if i == -1 then was else messages[i].timestamp
  {
    if messages != [] {
      var n := |messages| - 1;
      assert forall j :: JoinAt(messages[..n], node, j) ==> JoinAt(messages, node, j);
      if i < n {
        assert !JoinAt(messages, node, n);
        JoinTimeIsLast(messages[..n], node, was, i);
      }
    }
  }

  /** Each entry with the time of the last join about it. */
  function Refreshed(list: seq<Entry>, messages: seq<Msg>): (after: seq<Entry>)
    ensures |after| == |list|
  {
    seq(|list|, i requires 0 <= i < |list| =>
          list[i].(timestamp := JoinTime(messages, list[i].node, list[i].timestamp)))
  }

  lemma RefreshedShape(list: seq<Entry>, messages: seq<Msg>, peerOf: int -> int)
    requires WellFormed(list, peerOf)
    ensures WellFormed(Refreshed(list, messages), peerOf) && Shape(Refreshed(list, messages)) == Shape(list)
  {
  }

  lemma RefreshedStep(list: seq<Entry>, messages: seq<Msg>, m: Msg, peerOf: int -> int)
    requires WellFormed(list, peerOf)
    ensures var was, i := Refreshed(list, messages), IndexOfNode(Refreshed(list, messages), m.node);
            Refreshed(list, messages + [m]) ==
            if m.kind.Join? && i != -1 then was[i := was[i].(timestamp := m.timestamp)] else was
  {
    var was, i := Refreshed(list, messages), IndexOfNode(Refreshed(list, messages), m.node);
    assert (messages + [m])[..|messages|] == messages;
    forall k | 0 <= k < |list|
      ensures JoinTime(messages + [m], list[k].node, list[k].timestamp) ==
              if m.kind.Join? && k == i then m.timestamp else was[k].timestamp
    {
      assert was[k].node == list[k].node;
      assert i >= 0 ==> was[i].node == list[i].node;
    }
  }

  // Same nodes, statuses and peers, so the same answers.
  lemma SameShapeSameFind(a: seq<Entry>, b: seq<Entry>, n: int)
    requires Shape(a) == Shape(b)
    ensures Find(a, n) == Find(b, n) && IndexOfNode(a, n) == IndexOfNode(b, n)
  {
    assert |a| == |Shape(a)| == |b|;
    forall i | 0 <= i < |a| ensures a[i].node == b[i].node && a[i].status == b[i].status {
      assert Shape(a)[i] == Shape(b)[i];
    }
    var i, j := IndexOfNode(a, n), IndexOfNode(b, n);
    assert i != -1 ==> b[i].node == n;
    assert j != -1 ==> a[j].node == n;
  }

  lemma SwappedDown(was: seq<Entry>, e: Entry, j: nat)
    requires 0 < j <= |was|
    ensures var list := was[..j] + [e] + was[j..];
            && list[j - 1] == was[j - 1] && list[j] == e
            && list[j := list[j - 1]][j - 1 := list[j]] == was[..j - 1] + [e] + was[j - 1..]
  {
  }

  class MembershipService {
    const peerOf: int -> int
    var list: seq<Entry>
    var failSignals: seq<int>
    var currentMsgsInBuffer: seq<Msg>

    ghost predicate Valid()
      reads this
    {
      WellFormed(list, peerOf)
    }

    // The introducer's ring id is taken to be the hash of its address.
    constructor (peerOf: int -> int, introducer: int, now: int)
      ensures Valid() && this.peerOf == peerOf
      ensures list == [Entry(introducer, now, Active, peerOf(introducer))]
      ensures failSignals == [] && currentMsgsInBuffer == []
    {
      this.peerOf := peerOf;
      list := [Entry(introducer, now, Active, peerOf(introducer))];
      failSignals := [];
      currentMsgsInBuffer := [];
    }

    method GetIndexOfNode(node: int) returns (index: int)
      ensures index == IndexOfNode(list, node)
    {
      for i := 0 to |list|
        invariant forall k :: 0 <= k < i ==> list[k].node != node
      {
        if list[i].node == node {
          return i;
        }
      }
      return -1;
    }

    /** Append, then sort by peer id. */
    method Add(entry: Entry)
      requires forall i, j :: 0 <= i < j < |list| ==> list[i].peer <= list[j].peer
      modifies `list
      ensures list == Added(old(list), entry)
    {
      ghost var was := list;
      list := list + [entry];
      var j := |list| - 1;
      while j > 0 && list[j].peer < list[j - 1].peer
        invariant 0 <= j <= |was|
        invariant list == was[..j] + [entry] + was[j..]
        invariant forall k :: j <= k < |was| ==> was[k].peer > entry.peer
      {
        SwappedDown(was, entry, j);
        list := list[j := list[j - 1]][j - 1 := list[j]];
        j := j - 1;
      }
      AddedAt(was, entry, j);
    }

    method AddOrUpdate(message: Msg, now: int)
      requires Valid()
      modifies `list
      ensures list == AddedOrUpdated(old(list), message, peerOf, now)
    {
      var index := GetIndexOfNode(message.node);
      if index != -1 {
        if !message.kind.Join? {
          list := list[index := list[index].(status := StatusOf(message.kind))];
          list := list[index := list[index].(timestamp := message.timestamp)];
        } else {
          list := list[index := list[index].(status := Active)];
          list := list[index := list[index].(peer := peerOf(message.node))];
        }
      } else {
        Add(Entry(message.node, now, Active, peerOf(message.node)));
      }
    }

    method Update(nodeId: int, status: Status) returns (found: bool)
      modifies `list
      ensures list == Updated(old(list), nodeId, status)
      ensures found <==> Find(old(list), nodeId).Present?
    {
      for i := 0 to |list|
        invariant list == old(list)
        invariant forall k :: 0 <= k < i ==> list[k].node != nodeId
      {
        if list[i].node == nodeId {
          list := list[i := list[i].(status := status)];
          return true;
        }
      }
      return false;
    }

    method Remove(nodeId: int) returns (found: bool)
      modifies `list
      ensures list == Removed(old(list), nodeId)
      ensures found <==> Find(old(list), nodeId).Present?
    {
      for i := 0 to |list|
        invariant list == old(list)
        invariant forall k :: 0 <= k < i ==> list[k].node != nodeId
      {
        if list[i].node == nodeId {
          list := list[..i] + list[i + 1..];
          return true;
        }
      }
      return false;
    }

    method IsSuspected(nodeId: int) returns (suspected: bool)
      requires Valid()
      ensures suspected <==> Find(list, nodeId) == Present(Suspected)
    {
      for i := 0 to |list|
        invariant forall k :: 0 <= k < i ==> !(list[k].node == nodeId && list[k].status == Suspected)
      {
        if list[i].node == nodeId && list[i].status == Suspected {
          AtMostOneIndex(list, peerOf, i);
          return true;
        }
      }
      return false;
    }

    /** A suspected node becomes active again; nothing else changes. */
    method Rejuvenate(nodeId: int, now: int)
      requires Valid()
      modifies `list
      ensures Valid()
      ensures Find(old(list), nodeId) != Present(Suspected) ==> list == old(list)
      ensures Find(old(list), nodeId) == Present(Suspected) ==>
                var i := IndexOfNode(old(list), nodeId);
                list == old(list)[i := old(list)[i].(status := Active, timestamp := now)]
      ensures forall n :: Find(list, n) ==
                          if n == nodeId && Find(old(list), n) == Present(Suspected) then Present(Active)
                          else Find(old(list), n)
    {
      for i := 0 to |list|
        invariant list == old(list)
        invariant forall k :: 0 <= k < i ==> !(list[k].node == nodeId && list[k].status == Suspected)
      {
        if list[i].node == nodeId && list[i].status == Suspected {
          AtMostOneIndex(list, peerOf, i);
          ReplacedKeeps(list, i, list[i].(status := Active, timestamp := now), peerOf);
          list := list[i := list[i].(status := Active)];
          list := list[i := list[i].(timestamp := now)];
          assert list == old(list)[i := old(list)[i].(status := Active, timestamp := now)];
          return;
        }
      }
      assert Find(list, nodeId) != Present(Suspected);
    }

    /** A failure of a present node is signalled once, and is the only thing signalled. */
    method PerformActionOnMessage(message: Msg, now: int)
      requires Valid()
      modifies `list, `failSignals
      ensures Valid()
      ensures list == Act(old(list), message, peerOf, now)
      ensures Does(old(list), list, message, peerOf(message.node), now)
      ensures failSignals == old(failSignals) +
              if message.kind.Fail? && Find(old(list), message.node).Present? then [message.node] else []
    {
      hide WellFormed;
      hide IndexOfNode;
      hide Added;
      hide AddedOrUpdated;
      hide Removed;
      hide Updated;
      ghost var after := Act(list, message, peerOf, now);
      assert WellFormed(after, peerOf) by {
        ActKeeps(list, message, peerOf, now);
      }
      ActDoes(list, message, peerOf, now);
      hide Does;
      var found;
      match message.kind {
        case Fail =>
          var index := GetIndexOfNode(message.node);
          if index != -1 {
            failSignals := failSignals + [message.node];
          }
          found := Remove(message.node);
        case Join => AddOrUpdate(message, now);
        case Leave => found := Remove(message.node);
        case Suspect => found := Update(message.node, Suspected);
        case Alive => AddOrUpdate(message, now);
        case Unknown =>
      }
    }

    /** Drops the superfluous messages, except that a join of a listed node refreshes its timestamp. */
    method RemoveMsgIfNoActionNeeded(messages: seq<Msg>) returns (filteredMsgs: seq<Msg>)
      requires Valid()
      modifies `list
      ensures Valid() && Shape(list) == Shape(old(list))
      ensures KeepsTheRest(old(list), messages, filteredMsgs) && filteredMsgs == Filtered(old(list), messages)
      ensures list == Refreshed(old(list), messages)
    {
      filteredMsgs := [];
      ghost var was := list;
      assert Refreshed(was, []) == was;
      for i := 0 to |messages|
        invariant list == Refreshed(was, messages[..i])
        invariant filteredMsgs == Filtered(was, messages[..i])
      {
        var message := messages[i];
        assert messages[..i + 1] == messages[..i] + [message] && messages[..i + 1][..i] == messages[..i];
        RefreshedStep(was, messages[..i], message, peerOf);
        RefreshedShape(was, messages[..i], peerOf);
        SameShapeSameFind(list, was, message.node);
        hide Refreshed;
        hide Shape;
        hide WellFormed;
        var index := GetIndexOfNode(message.node);
        if message.kind.Fail? && index == -1 {
          continue;
        }
        if message.kind.Join? && index != -1 {
          list := list[index := list[index].(timestamp := message.timestamp)];
          continue;
        }
        if message.kind.Suspect? && index != -1 && list[index].status == Suspected {
          continue;
        }
        filteredMsgs := filteredMsgs + [message];
      }
      assert messages[..|messages|] == messages;
      RefreshedShape(was, messages, peerOf);
      FilterIsExact(was, peerOf, messages);
    }

    /** One signal: filter, append to the buffer, de-duplicate, apply everything in the buffer.
        Whatever order the de-duplication hands the messages out in, every node ends up as said. */
    method ProcessSignal(messages: seq<Msg>, suspicion: bool, now: int)
      requires Valid()
      modifies this
      ensures Valid()
      ensures KeepsTheRest(old(list), messages, Filtered(old(list), messages))
      ensures Lists(currentMsgsInBuffer, Latest(old(currentMsgsInBuffer) + Filtered(old(list), messages), suspicion))
      ensures var latest := Latest(old(currentMsgsInBuffer) + Filtered(old(list), messages), suspicion);
              forall n :: Find(list, n) == Merged(Find(old(list), n), n, latest)
      ensures list == ActAll(Refreshed(old(list), messages), currentMsgsInBuffer, peerOf, now)
      ensures failSignals == old(failSignals) + Signalled(old(list), currentMsgsInBuffer)
    {
      ghost var latest := Latest(currentMsgsInBuffer + Filtered(list, messages), suspicion);
      ghost var was := list;
      var filteredMsgs := RemoveMsgIfNoActionNeeded(messages);
      hide KeepsTheRest;
      hide Refreshed;
      currentMsgsInBuffer := currentMsgsInBuffer + filteredMsgs;
      currentMsgsInBuffer := RemoveConflictMessages(currentMsgsInBuffer, suspicion);
      forall n ensures Find(list, n) == Find(was, n) {
        SameShapeSameFind(list, was, n);
      }
      SameSignalled(list, was, currentMsgsInBuffer);
      ApplyBuffer(latest, now);
    }

    method ApplyBuffer(ghost latest: map<int, Msg>, now: int)
      requires Valid() && Lists(currentMsgsInBuffer, latest)
      modifies `list, `failSignals
      ensures Valid()
      ensures list == ActAll(old(list), currentMsgsInBuffer, peerOf, now)
      ensures forall n :: Find(list, n) == Merged(Find(old(list), n), n, latest)
      ensures failSignals == old(failSignals) + Signalled(old(list), currentMsgsInBuffer)
    {
      ghost var was, signalsBefore := list, failSignals;
      for i := 0 to |currentMsgsInBuffer|
        invariant Valid()
        invariant list == ActAll(was, currentMsgsInBuffer[..i], peerOf, now)
        invariant failSignals == signalsBefore + Signalled(was, currentMsgsInBuffer[..i])
      {
        var msg := currentMsgsInBuffer[i];
        assert currentMsgsInBuffer[..i + 1][..i] == currentMsgsInBuffer[..i];
        Untouched(was, currentMsgsInBuffer[..i], peerOf, now, msg.node);
        PerformActionOnMessage(msg, now);
      }
      assert currentMsgsInBuffer[..|currentMsgsInBuffer|] == currentMsgsInBuffer;
      forall n ensures Find(list, n) == Merged(Find(was, n), n, latest) {
        BufferActsPointwise(was, currentMsgsInBuffer, latest, peerOf, now, n);
      }
    }

    /** The next three nodes clockwise. */
    method GetNeighbours(nodeId: int) returns (neighbours: seq<int>)
      ensures neighbours == Neighbours(list, nodeId)
    {
      neighbours := [];
      var index := GetIndexOfNode(nodeId);
      if index != -1 {
        for j := 1 to KNEIGHBORS + 1
          invariant neighbours == NeighboursAt(list, index)[..j - 1]
        {
          neighbours := neighbours + [list[(j + index) % |list|].node];
        }
      }
    }
  }

  /** The failures among the messages that name a listed node. */
  function Signalled(list: seq<Entry>, msgs: seq<Msg>): seq<int> {
    if msgs == [] then []
    else
      var front, last := Signalled(list, msgs[..|msgs| - 1]), msgs[|msgs| - 1];
      if last.kind.Fail? && Find(list, last.node).Present? then front + [last.node] else front
  }

  lemma {:induction false} SameSignalled(a: seq<Entry>, b: seq<Entry>, msgs: seq<Msg>)
    requires forall n :: Find(a, n) == Find(b, n)
    ensures Signalled(a, msgs) == Signalled(b, msgs)
  {
    if msgs != [] {
      SameSignalled(a, b, msgs[..|msgs| - 1]);
    }
  }

  lemma {:induction false} Untouched(list: seq<Entry>, msgs: seq<Msg>, peerOf: int -> int, now: int, n: int)
    requires WellFormed(list, peerOf)
    requires forall i :: 0 <= i < |msgs| ==> msgs[i].node != n
    ensures Find(ActAll(list, msgs, peerOf, now), n) == Find(list, n)
  {
    if msgs != [] {
      var front := msgs[..|msgs| - 1];
      Untouched(list, front, peerOf, now, n);
      ActAllKeeps(list, front, peerOf, now);
      ActKeeps(ActAll(list, front, peerOf, now), msgs[|msgs| - 1], peerOf, now);
    }
  }

  /** Each failed node that is on the list is signalled, once; no other is. */
  lemma {:induction false} SignalledOnce(list: seq<Entry>, msgs: seq<Msg>, latest: map<int, Msg>)
    requires Lists(msgs, latest)
    ensures var s := Signalled(list, msgs);
            && (forall n :: n in s <==> n in latest && latest[n].kind.Fail? && Find(list, n).Present?)
            && (forall i, j :: 0 <= i < j < |s| ==> s[i] != s[j])
  {
    if msgs != [] {
      ListsFront(msgs, latest);
      SignalledOnce(list, msgs[..|msgs| - 1], latest - {msgs[|msgs| - 1].node});
    } else {
      assert forall n :: n !in latest;
    }
  }

  // ----- who monitors whom -----

  function Neighbours(list: seq<Entry>, nodeId: int): (neighbours: seq<int>)
    ensures |neighbours| == if IndexOfNode(list, nodeId) == -1 then 0 else KNEIGHBORS
  {
    var index := IndexOfNode(list, nodeId);
    if index == -1 then []
    else NeighboursAt(list, index)
  }

  function NeighboursAt(list: seq<Entry>, index: nat): (neighbours: seq<int>)
    requires index < |list|
    ensures |neighbours| == KNEIGHBORS
  {
    var n := |list|;
    [list[(1 + index) % n].node, list[(2 + index) % n].node, list[(3 + index) % n].node]
  }

  /** Three distinct others are pinged exactly when the list has at least four nodes. */
  lemma NeighboursAreOthersIff(list: seq<Entry>, peerOf: int -> int, i: int)
    requires WellFormed(list, peerOf) && 0 <= i < |list|
    ensures var ns := Neighbours(list, list[i].node);
            |ns| == 3 &&
            (ns[0] != ns[1] && ns[1] != ns[2] && ns[0] != ns[2] && list[i].node !in ns <==> |list| >= 4)
  {
    AtMostOneIndex(list, peerOf, i);
    if |list| >= 4 {
      NeighboursOfFour(list, i);
    } else {
      ReturnsHome(list, i);
    }
  }

  lemma NeighboursOfFour(list: seq<Entry>, i: int)
    requires |list| >= 4 && 0 <= i < |list|
    ensures NeighboursAt(list, i) ==
            [list[After(list, i, 1)].node, list[After(list, i, 2)].node, list[After(list, i, 3)].node]
  {
    ModWrap(1 + i, |list|);
    ModWrap(2 + i, |list|);
    ModWrap(3 + i, |list|);
  }

  function After(list: seq<Entry>, i: int, d: int): (j: int)
    requires 0 <= i < |list| && 1 <= d < |list|
    ensures 0 <= j < |list|
  {
    if i + d < |list| then i + d else i + d - |list|
  }

  lemma ReturnsHome(list: seq<Entry>, i: int)
    requires 1 <= |list| <= 3 && 0 <= i < |list|
    ensures list[i].node in NeighboursAt(list, i)
  {
    ModWrap(|list| + i, |list|);
    assert NeighboursAt(list, i)[|list| - 1] == list[i].node;
  }

  ghost predicate Monitors(list: seq<Entry>, m: int, node: int) {
    node in Neighbours(list, m)
  }

  /** Every node is monitored by exactly its three predecessors on the ring. */
  lemma MonitoredByPredecessors(list: seq<Entry>, peerOf: int -> int, i: int, j: int)
    requires WellFormed(list, peerOf) && |list| >= 4 && 0 <= i < |list| && 0 <= j < |list|
    ensures Monitors(list, list[j].node, list[i].node) <==>
              var d := if i > j then i - j else i - j + |list|; 1 <= d <= 3
  {
    AtMostOneIndex(list, peerOf, j);
    var ns := Neighbours(list, list[j].node);
    NeighboursOfFour(list, j);
    assert list[i].node in ns <==> list[i].node == ns[0] || list[i].node == ns[1] || list[i].node == ns[2];
  }

  /** So a failed node has a live monitor as long as at most two others are down. */
  lemma FailureIsWatched(list: seq<Entry>, peerOf: int -> int, i: int, down: set<int>)
    requires WellFormed(list, peerOf) && |list| >= 4 && 0 <= i < |list|
    requires |down - {list[i].node}| <= 2
    ensures exists m :: m !in down && m != list[i].node && Monitors(list, m, list[i].node)
  {
    var a, b, c := Before(list, i, 1), Before(list, i, 2), Before(list, i, 3);
    MonitoredByPredecessors(list, peerOf, i, a);
    MonitoredByPredecessors(list, peerOf, i, b);
    MonitoredByPredecessors(list, peerOf, i, c);
    var m := OneOfThree(list[a].node, list[b].node, list[c].node, down - {list[i].node});
    assert Monitors(list, m, list[i].node);
  }

  function Before(list: seq<Entry>, i: int, d: int): (j: int)
    requires 0 <= i < |list| && 1 <= d < |list|
    ensures 0 <= j < |list|
  {
    if i >= d then i - d else i - d + |list|
  }

  /** Two elements cannot exhaust three. */
  lemma OneOfThree(a: int, b: int, c: int, s: set<int>) returns (m: int)
    requires a != b && b != c && a != c && |s| <= 2
    ensures m !in s && (m == a || m == b || m == c)
  {
    m := if a !in s then a else if b !in s then b else c;
    if a in s && b in s {
      assert |s - {a} - {b}| == |s| - 2;
    }
  }

  // ----- removal and placement -----

  /** No two nodes of the list hash to the same ring position. */
  ghost predicate NoCollision(list: seq<Entry>) {
    forall i, j :: 0 <= i < j < |list| ==> list[i].peer != list[j].peer
  }

  lemma RemovedPeers(list: seq<Entry>, node: int, peerOf: int -> int)
    requires WellFormed(list, peerOf) && NoCollision(list) && Find(list, node).Present?
    ensures PeerIds(Removed(list, node)) == Without(PeerIds(list), peerOf(node))
    ensures StrictlyAscending(PeerIds(list)) && peerOf(node) in PeerIds(list)
  {
    var k, ids := IndexOfNode(list, node), PeerIds(list);
    assert ids[k] == peerOf(node) && StrictlyAscending(ids);
    hide Without;
    hide WellFormed;
    hide NoCollision;
    PeersCut(list, k);
    WithoutAt(ids, k);
  }

  lemma PeersCut(list: seq<Entry>, k: nat)
    requires k < |list|
    ensures PeerIds(list[..k] + list[k + 1..]) == PeerIds(list)[..k] + PeerIds(list)[k + 1..]
  {
  }

  /** Routing after a node has been removed: the old successor sequence without its peer, so that only routes
      through that peer change, each by exactly one newcomer. */
  lemma RoutingAfterRemove(list: seq<Entry>, node: int, peerOf: int -> int, h: int)
    requires WellFormed(list, peerOf) && NoCollision(list) && Find(list, node).Present? && |list| >= 4
    ensures var before, after, x := PeerIds(list), PeerIds(Removed(list, node)), peerOf(node);
            && |Without(Successors(before, h), x)| == |list| - 1
            && |Successors(before, h)| == |list|
            && Route(after, h) == Without(Successors(before, h), x)[..3]
            && (x !in Route(before, h) ==> Route(after, h) == Route(before, h))
            && (x in Route(before, h) ==> Route(after, h) == Without(Route(before, h), x) + [Successors(before, h)[3]]
                                          && Successors(before, h)[3] !in Route(before, h))
  {
    RemovedPeers(list, node, peerOf);
    RemovalIsLocal(PeerIds(list), h, peerOf(node));
  }

  // ----- every run of membership steps -----

  datatype Action =
    | Gossip(msg: Msg)
    | MarkSuspected(node: int)
    | MarkAlive(node: int)
    | MarkFailed(node: int)
    | Admit(node: int)

  /** The list after one step at a node; the introducer admits nodes that are not listed yet. */
  function Step(list: seq<Entry>, action: Action, peerOf: int -> int, now: int): seq<Entry> {
    match action
    case Gossip(msg) => Act(list, msg, peerOf, now)
    case MarkSuspected(n) => Updated(list, n, Suspected)
    case MarkAlive(n) => if Find(list, n) == Present(Suspected) then Updated(list, n, Active) else list
    case MarkFailed(n) => Removed(list, n)
    case Admit(n) => if Find(list, n).Present? then list else Added(list, Entry(n, now, Active, peerOf(n)))
  }

  function Steps(list: seq<Entry>, actions: seq<Action>, peerOf: int -> int, now: int): seq<Entry> {
    if actions == [] then list
    else Step(Steps(list, actions[..|actions| - 1], peerOf, now), actions[|actions| - 1], peerOf, now)
  }

  /** The list stays sorted, free of duplicates and true to the hash over every sequence of steps. */
  lemma {:induction false} EveryRunIsWellFormed(list: seq<Entry>, actions: seq<Action>, peerOf: int -> int, now: int)
    requires WellFormed(list, peerOf)
    ensures WellFormed(Steps(list, actions, peerOf, now), peerOf)
  {
    if actions != [] {
      var before := Steps(list, actions[..|actions| - 1], peerOf, now);
      EveryRunIsWellFormed(list, actions[..|actions| - 1], peerOf, now);
      match actions[|actions| - 1]
      case Gossip(msg) => ActKeeps(before, msg, peerOf, now);
      case MarkSuspected(n) => ActKeeps(before, Msg(Suspect, n, now), peerOf, now);
      case MarkAlive(n) =>
        var i := IndexOfNode(before, n);
        if i != -1 {
          ReplacedKeeps(before, i, before[i].(status := Active), peerOf);
        }
      case MarkFailed(n) => RemovedKeeps(before, n, peerOf);
      case Admit(n) =>
        if Find(before, n).Absent? {
          AddedKeeps(before, Entry(n, now, Active, peerOf(n)), peerOf);
        }
    }
  }

  lemma {:induction false} AddedAt(list: seq<Entry>, e: Entry, j: nat)
    requires forall i, j :: 0 <= i < j < |list| ==> list[i].peer <= list[j].peer
    requires j <= |list| && (j > 0 ==> list[j - 1].peer <= e.peer)
    requires forall k :: j <= k < |list| ==> list[k].peer > e.peer
    ensures Added(list, e) == list[..j] + [e] + list[j..]
  {
    if j == 0 {
    } else {
      assert list[0].peer <= list[j - 1].peer;
      AddedAt(list[1..], e, j - 1);
      assert list[1..][..j - 1] == list[1..j] && list[1..][j - 1..] == list[j..];
      assert list[..j] == [list[0]] + list[1..j];
    }
  }
}


