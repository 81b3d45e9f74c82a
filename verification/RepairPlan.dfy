/** Which peers re-replicate which ring arcs after one peer has failed. */
module RepairPlan {
  import opened Entries
  import opened Ring

  /** Files with hash in the arc [fromFile, toFile) go from sender to receiver. */
  datatype Transfer = Transfer(fromFile: int, toFile: int, sender: int, receiver: int)

  datatype Neighbors = NoNeighbors | Neighbors(preceding: seq<int>, succeeding: seq<int>)

  /** Half-open arc of the ring; it wraps when a is not below b. */
  predicate InArc(h: int, a: int, b: int) {
    if a < b then a <= h < b else a <= h || h < b
  }

  // Remainder with the sign of the dividend.
  function Rem(a: int, b: int): int
    requires b > 0
  {
    if a >= 0 then a % b else -((-a) % b)
  }

  /** The list with p put in front of the first greater id. */
  function Insert(ring: seq<int>, p: int): seq<int> {
    UpTo(ring, p) + [p] + Above(ring, p)
  }

  /** a modulo n, spelled out for one turn either way. */
  function Wrap(a: int, n: int): int
    requires n > 0
  {
    if -n <= a < 0 then a + n else if 0 <= a < n then a else if n <= a < 2 * n then a - n else a % n
  }

  lemma WrapIsMod(a: int, n: int)
    requires n > 0
    ensures Wrap(a, n) == a % n && 0 <= Wrap(a, n) < n
  {
    if -n <= a < 0 {
      OneTurn(a, n);
    } else if n <= a < 2 * n {
      ModWrap(a, n);
    }
  }

  lemma OneTurn(a: int, n: int)
    requires -n <= a < 0
    ensures a % n == a + n
  {
    assert a == n * -1 + (a + n);
    assert a / n == -1;
  }

  // The peer d places after position k of a ring, counting around; d may be negative.
  function Around(full: seq<int>, k: int, d: int): int
    requires full != []
  {
    WrapIsMod(k + d, |full|);
    full[Wrap(k + d, |full|)]
  }

  function Preceding(full: seq<int>, k: int, count: nat): (r: seq<int>)
    requires full != []
    ensures |r| == count
  {
    if count == 0 then [] else [Around(full, k, 0 - (count as int))] + Preceding(full, k, count - 1)
  }

  function Succeeding(full: seq<int>, k: int, count: nat): (r: seq<int>)
    requires full != []
    ensures |r| == count
  {
    if count == 0 then [] else Succeeding(full, k, count - 1) + [Around(full, k, count)]
  }

  lemma ThreeNeighbors(full: seq<int>, k: int)
    requires full != []
    ensures Preceding(full, k, 3) == [Around(full, k, -3), Around(full, k, -2), Around(full, k, -1)]
    ensures Succeeding(full, k, 3) == [Around(full, k, 1), Around(full, k, 2), Around(full, k, 3)]
  {
    assert Preceding(full, k, 1) == [Around(full, k, -1)];
    assert Preceding(full, k, 2) == [Around(full, k, -2), Around(full, k, -1)];
    assert Succeeding(full, k, 1) == [Around(full, k, 1)];
    assert Succeeding(full, k, 2) == [Around(full, k, 1), Around(full, k, 2)];
  }

  /** Neighbours of p once inserted, or none in the one case in which an index comes out negative. */
  function NeighborsOf(ring: seq<int>, p: int): (r: Neighbors)
    ensures r.Neighbors? ==> |r.preceding| == |r.succeeding| == 3
  {
    if |ring| == 1 && ring[0] >= p then NoNeighbors
    else
      var full, k := Insert(ring, p), |UpTo(ring, p - 1)|;
      Neighbors(Preceding(full, k, 3), Succeeding(full, k, 3))
  }

  /** The three transfers: nearest predecessor first, after the reversal. */
  function PlanFrom(n: Neighbors, failed: int): (plan: seq<Transfer>)
    requires n.Neighbors? && |n.preceding| == |n.succeeding| == 3
    ensures |plan| == 3
  {
    var p, s := n.preceding, n.succeeding;
    [Transfer(p[0], p[1], p[2], s[0]),
     Transfer(p[1], p[2], p[2], s[1]),
     Transfer(p[2], failed, s[0], s[2])]
  }

  function Plan(survivors: seq<int>, failed: int): (plan: seq<Transfer>)
    ensures |plan| == 0 || |plan| == 3
  {
    var n := NeighborsOf(survivors, failed);
    if n.NoNeighbors? then [] else PlanFrom(n, failed)
  }

  // ----- facts about insertion -----

  lemma InsertKeeps(ring: seq<int>, p: int)
    requires Ascending(ring)
    ensures |Insert(ring, p)| == |ring| + 1
    ensures var c := |UpTo(ring, p)|;
            && c <= |ring|
            && Insert(ring, p) == ring[..c] + [p] + ring[c..]
            && (forall i :: 0 <= i < c ==> ring[i] <= p)
            && (forall i :: c <= i < |ring| ==> ring[i] > p)
    ensures Ascending(Insert(ring, p))
  {
    SortedSplits(ring, p);
    SuccessorsRotate(ring, p);
  }

  lemma UpToAbsent(ring: seq<int>, p: int)
    requires Ascending(ring) && p !in ring
    ensures |UpTo(ring, p)| == |UpTo(ring, p - 1)|
  {
    SuccessorsRotate(ring, p);
    assert forall i :: 0 <= i < |ring| ==> ring[i] in ring;
    CutIs(ring, p - 1, |UpTo(ring, p)|);
  }

  /** Re-inserting an absent id gives the strictly sorted ring from which removing it leads back. */
  lemma InsertIsRemoveInverse(survivors: seq<int>, failed: int)
    requires StrictlyAscending(survivors) && failed !in survivors
    ensures var full := Insert(survivors, failed);
            && |full| == |survivors| + 1
            && |UpTo(survivors, failed)| <= |survivors|
            && full[|UpTo(survivors, failed)|] == failed
            && StrictlyAscending(full)
            && Without(full, failed) == survivors
  {
    hide Without;
    hide Insert;
    InsertKeeps(survivors, failed);
    var c, full := |UpTo(survivors, failed)|, Insert(survivors, failed);
    forall i | 0 <= i < |full| && i != c ensures full[i] != failed {
      assert full[i] == if i < c then survivors[i] else survivors[i - 1];
      assert full[i] in survivors;
    }
    StrictlyInserted(survivors, failed, c);
    WithoutAt(full, c);
    assert full[..c] + full[c + 1..] == survivors;
  }

  lemma StrictlyInserted(s: seq<int>, p: int, c: nat)
    requires StrictlyAscending(s) && p !in s && c <= |s|
    requires forall i :: 0 <= i < c ==> s[i] <= p
    requires forall i :: c <= i < |s| ==> s[i] > p
    ensures StrictlyAscending(s[..c] + [p] + s[c..])
  {
    assert forall i :: 0 <= i < |s| ==> s[i] in s;
  }

  // ----- the loops -----

  lemma InsertedAt(mL: seq<Entry>, peerId: int)
    requires Ascending(PeerIds(mL))
    ensures var c, full := |UpTo(PeerIds(mL), peerId)|, Insert(PeerIds(mL), peerId);
            && |full| == |mL| + 1 && c <= |mL| && full[c] == peerId
            && (forall i :: 0 <= i < |mL| ==> (mL[i].peer > peerId <==> c <= i))
            && (forall i :: 0 <= i < |mL| ==> mL[i].peer == full[if i < c then i else i + 1])
  {
    InsertKeeps(PeerIds(mL), peerId);
    hide Insert;
    hide UpTo;
  }

  /** The list with peerId inserted before the first greater id, built with two moving indices. */
  method HypotheticalList(mL: seq<Entry>, peerId: int) returns (a: array<int>)
    requires Ascending(PeerIds(mL))
    ensures fresh(a) && a[..] == Insert(PeerIds(mL), peerId)
  {
    var numPeers := |mL|;
    ghost var ring := PeerIds(mL);
    ghost var c := |UpTo(ring, peerId)|;
    ghost var full := Insert(ring, peerId);
    InsertedAt(mL, peerId);
    hide *;
    var hypotheticalList := new int[numPeers + 1];
    var inserted := false;
    var i, j := 0, 0;
    while i < numPeers
      invariant 0 <= i <= numPeers && j == (if inserted then i + 1 else i)
      invariant inserted <==> c < i
      invariant forall k :: 0 <= k < j ==> hypotheticalList[k] == full[k]
    {
      if !inserted && mL[i].peer > peerId {
        hypotheticalList[j] := peerId;
        inserted := true;
        j := j + 1;
      }
      hypotheticalList[j] := mL[i].peer;
      i, j := i + 1, j + 1;
    }
    if !inserted {
      hypotheticalList[numPeers] := peerId;
    }
    return hypotheticalList;
  }

  method FirstIndexOf(a: array<int>, id: int) returns (peerIndex: nat)
    requires exists i :: 0 <= i < a.Length && a[i] == id
    ensures peerIndex < a.Length && a[peerIndex] == id
    ensures forall i :: 0 <= i < peerIndex ==> a[i] != id
  {
    peerIndex := 0;
    for i := 0 to a.Length
      invariant forall k :: 0 <= k < i ==> a[k] != id
    {
      if a[i] == id {
        peerIndex := i;
        break;
      }
    }
  }

  method HypotheticalNeighborsForPeerId(mL: seq<Entry>, peerId: int)
    returns (precedingPeers: seq<int>, succeedingPeers: seq<int>)
    requires Ascending(PeerIds(mL))
    ensures NeighborsOf(PeerIds(mL), peerId) ==
            if precedingPeers == [] then NoNeighbors else Neighbors(precedingPeers, succeedingPeers)
    ensures precedingPeers == [] <==> succeedingPeers == []
    ensures precedingPeers == [] <==> |mL| == 1 && mL[0].peer >= peerId
  {
    var hypotheticalList := HypotheticalList(mL, peerId);
    FirstCopy(PeerIds(mL), peerId);
    var peerIndex := FirstIndexOf(hypotheticalList, peerId);
    ghost var below := |UpTo(PeerIds(mL), peerId - 1)|;
    assert hypotheticalList[..][below] == peerId;
    assert peerIndex == below by {
      assert hypotheticalList[..][peerIndex] == peerId;
    }
    precedingPeers, succeedingPeers := Window(hypotheticalList, peerIndex);
  }

  /** Three places back and three on from peerIndex, or nothing when an index comes out negative. */
  method Window(hypotheticalList: array<int>, peerIndex: nat)
    returns (precedingPeers: seq<int>, succeedingPeers: seq<int>)
    requires peerIndex < hypotheticalList.Length
    ensures if hypotheticalList.Length == 2 && peerIndex == 0 then precedingPeers == succeedingPeers == []
            else precedingPeers == Preceding(hypotheticalList[..], peerIndex, 3)
                 && succeedingPeers == Succeeding(hypotheticalList[..], peerIndex, 3)
  {
    precedingPeers, succeedingPeers := [], [];
    var n := hypotheticalList.Length;
    ghost var full := hypotheticalList[..];
    for i := 1 to 4
      invariant precedingPeers == Preceding(full, peerIndex, i - 1)
      invariant succeedingPeers == Succeeding(full, peerIndex, i - 1)
      invariant i == 4 ==> !(n == 2 && peerIndex == 0)
    {
      var precedingIndex := Rem(peerIndex - i + n, n);
      var succeedingIndex := Rem(peerIndex + i, n);
      BackIndex(peerIndex, i, n);
      WrapIsMod(peerIndex + i, n);
      if precedingIndex < 0 || precedingIndex >= n {
        return [], [];
      }
      assert full[precedingIndex] == Around(full, peerIndex, 0 - i);
      precedingPeers := [hypotheticalList[precedingIndex]] + precedingPeers;
      succeedingPeers := succeedingPeers + [hypotheticalList[succeedingIndex]];
    }
  }

  lemma FirstCopy(ring: seq<int>, p: int)
    requires Ascending(ring)
    ensures var full, below := Insert(ring, p), |UpTo(ring, p - 1)|;
            && |full| == |ring| + 1 && below < |full| && full[below] == p
            && (forall i :: 0 <= i < below ==> full[i] < p)
            && (|ring| == 1 ==> (below == 0 <==> ring[0] >= p))
  {
    InsertKeeps(ring, p);
    SuccessorsRotate(ring, p - 1);
    SortedSplits(ring, p - 1);
    UpToGrows(ring, p);
    if |ring| == 1 {
      assert ring == [ring[0]];
    }
  }

  lemma {:induction false} UpToGrows(ring: seq<int>, p: int)
    ensures |UpTo(ring, p - 1)| <= |UpTo(ring, p)|
  {
    if ring != [] {
      UpToGrows(ring[1..], p);
    }
  }

  /** A step back of at most three lands in range except from position 0 of a ring of two. */
  lemma BackIndex(k: int, i: int, n: int)
    requires 0 <= k < n && 1 <= i <= 3
    ensures var r := Rem(k - i + n, n);
            if n == 2 && k == 0 && i == 3 then r < 0 else 0 <= r < n && r == Wrap(k - i, n)
  {
    WrapIsMod(k - i, n);
    if n >= 3 {
      ModWrap(k - i + n, n);
    }
  }

  method HandleFileTransferRequestsInFailureRepair(failedPeer: int, prevPeers: array<int>, nextPeers: seq<int>)
    returns (transferRanges: seq<Transfer>)
    requires prevPeers.Length == 3 && |nextPeers| == 3
    modifies prevPeers
    ensures forall k :: 0 <= k < 3 ==> prevPeers[k] == old(prevPeers[2 - k])
    ensures transferRanges == PlanFrom(Neighbors(old(prevPeers[..]), nextPeers), failedPeer)
  {
    for i := 0 to prevPeers.Length / 2
      invariant forall k :: 0 <= k < i ==>
                              prevPeers[k] == old(prevPeers[2 - k]) && prevPeers[2 - k] == old(prevPeers[k])
      invariant forall k :: i <= k < 3 - i ==> prevPeers[k] == old(prevPeers[k])
    {
      prevPeers[i], prevPeers[prevPeers.Length - i - 1] := prevPeers[prevPeers.Length - i - 1], prevPeers[i];
    }
    transferRanges := [
      Transfer(prevPeers[2], prevPeers[1], prevPeers[0], nextPeers[0]),
      Transfer(prevPeers[1], prevPeers[0], prevPeers[0], nextPeers[1]),
      Transfer(prevPeers[0], failedPeer, nextPeers[0], nextPeers[2])
    ];
  }

  /** The transfers this peer has to send, in plan order. */
  function OwnRanges(plan: seq<Transfer>, self: int): (own: seq<Transfer>)
    ensures forall t :: t in own <==> t in plan && t.sender == self
  {
    if plan == [] then []
    else
      var front := OwnRanges(plan[..|plan| - 1], self);
      var last := plan[|plan| - 1];
      assert plan == plan[..|plan| - 1] + [last];
      if last.sender == self then front + [last] else front
  }

  method GetOwnFileRanges(plan: seq<Transfer>, self: int) returns (own: seq<Transfer>)
    ensures own == OwnRanges(plan, self)
  {
    own := [];
    for i := 0 to |plan|
      invariant own == OwnRanges(plan[..i], self)
    {
      assert plan[..i + 1][..i] == plan[..i];
      if plan[i].sender == self {
        own := own + [plan[i]];
      }
    }
    assert plan[..|plan|] == plan;
  }

  // ----- the plan against placement before and after the removal -----

  /** The arc that ends at position m of the ring is the set of hashes whose primary sits there. */
  lemma ArcIsOwner(ring: seq<int>, h: int, m: int)
    requires StrictlyAscending(ring) && |ring| >= 2 && 0 <= m < |ring|
    ensures InArc(h, Around(ring, m, -1), ring[m]) <==> Owner(ring, h) == m
  {
    SuccessorsRotate(ring, h);
    if InArc(h, Around(ring, m, -1), ring[m]) {
      if m == 0 && ring[|ring| - 1] <= h {
        CutIs(ring, h, |ring|);
      } else {
        CutIs(ring, h, m);
      }
    }
  }

  // Position of the primary of h.
  function Owner(ring: seq<int>, h: int): int {
    if |UpTo(ring, h)| == |ring| then 0 else |UpTo(ring, h)|
  }

  lemma RouteAround(ring: seq<int>, h: int)
    requires Ascending(ring) && |ring| >= 4
    ensures 0 <= Owner(ring, h) < |ring| == |Successors(ring, h)|
    ensures var c := Owner(ring, h);
            && Route(ring, h) == [Around(ring, c, 0), Around(ring, c, 1), Around(ring, c, 2)]
            && Successors(ring, h)[3] == Around(ring, c, 3)
  {
    SuccessorsRotate(ring, h);
    RouteIsPrefix(ring, h);
    hide Successors;
    hide Route;
    hide UpTo;
    hide Ascending;
    var s, c, n := Successors(ring, h), |UpTo(ring, h)|, |ring|;
    forall d | 0 <= d < 4 ensures s[d] == Around(ring, Owner(ring, h), d) {
      assert s[d] == if d < n - c then ring[c + d] else ring[d - (n - c)];
    }
  }

  /** The transfers for the peer at position k of the ring: the arcs end there and at its two predecessors. */
  function PlanAt(full: seq<int>, k: int): (plan: seq<Transfer>)
    requires 0 <= k < |full|
    ensures |plan| == 3
  {
    [Transfer(Around(full, k, -3), Around(full, k, -2), Around(full, k, -1), Around(full, k, 1)),
     Transfer(Around(full, k, -2), Around(full, k, -1), Around(full, k, -1), Around(full, k, 2)),
     Transfer(Around(full, k, -1), full[k], Around(full, k, 1), Around(full, k, 3))]
  }

  lemma PlanIsPlanAt(survivors: seq<int>, failed: int)
    requires StrictlyAscending(survivors) && failed !in survivors && |survivors| != 1
    ensures var full, k := Insert(survivors, failed), |UpTo(survivors, failed)|;
            && 0 <= k < |full| && full[k] == failed && Plan(survivors, failed) == PlanAt(full, k)
  {
    InsertIsRemoveInverse(survivors, failed);
    UpToAbsent(survivors, failed);
    ThreeNeighbors(Insert(survivors, failed), |UpTo(survivors, failed)|);
  }

  ghost predicate Covers(t: Transfer, h: int) {
    InArc(h, t.fromFile, t.toFile)
  }

  lemma ArcsAt(full: seq<int>, k: int, h: int)
    requires StrictlyAscending(full) && |full| >= 4 && 0 <= k < |full|
    ensures Covers(PlanAt(full, k)[0], h) <==> Owner(full, h) == Wrap(k - 2, |full|)
    ensures Covers(PlanAt(full, k)[1], h) <==> Owner(full, h) == Wrap(k - 1, |full|)
    ensures Covers(PlanAt(full, k)[2], h) <==> Owner(full, h) == k
  {
    ArcIsOwner(full, h, Wrap(k - 2, |full|));
    ArcIsOwner(full, h, Wrap(k - 1, |full|));
    ArcIsOwner(full, h, k);
  }

  /** A hash is routed through the peer at k iff one of the three arcs covers it, and never two do. */
  lemma ArcsAreTheLostHashes(full: seq<int>, k: int, h: int)
    requires StrictlyAscending(full) && |full| >= 4 && 0 <= k < |full|
    ensures var plan := PlanAt(full, k);
            && (full[k] in Route(full, h) <==> Covers(plan[0], h) || Covers(plan[1], h) || Covers(plan[2], h))
            && (forall i, j :: 0 <= i < 3 && 0 <= j < 3 && Covers(plan[i], h) && Covers(plan[j], h) ==> i == j)
  {
    ArcsAt(full, k, h);
    RouteAround(full, h);
    hide Route;
    hide Successors;
    hide Owner;
    hide Covers;
    hide PlanAt;
    hide Around;
    hide StrictlyAscending;
    var c := Owner(full, h);
    MeetsAt(full, k, c, 0);
    MeetsAt(full, k, c, 1);
    MeetsAt(full, k, c, 2);
    var route := Route(full, h);
    assert full[k] in route <==> full[k] == route[0] || full[k] == route[1] || full[k] == route[2];
  }

  // Going d places on from c meets the peer at k iff c is d places before k.
  lemma MeetsAt(full: seq<int>, k: int, c: int, d: int)
    requires StrictlyAscending(full) && 0 <= k < |full| && 0 <= c < |full| && 0 <= d < |full|
    ensures Around(full, c, d) == full[k] <==> c == Wrap(k - d, |full|)
  {
    var j := Wrap(c + d, |full|);
    assert full[j] == full[k] <==> j == k;
  }

  /** The receiver of a covering arc is the fourth peer from the hash; the sender is on its route and not at k. */
  lemma EndsOfTransfer(full: seq<int>, k: int, h: int, i: int)
    requires StrictlyAscending(full) && |full| >= 4 && 0 <= k < |full|
    requires 0 <= i < 3 && Covers(PlanAt(full, k)[i], h)
    ensures |Successors(full, h)| == |full|
    ensures PlanAt(full, k)[i].receiver == Successors(full, h)[3]
    ensures PlanAt(full, k)[i].sender in Route(full, h) && PlanAt(full, k)[i].sender in full
    ensures PlanAt(full, k)[i].sender != full[k]
  {
    ArcsAt(full, k, h);
    RouteAround(full, h);
    NotFailed(full, k);
    ReceiverIsFourth(full, k, Owner(full, h), i);
    SenderIsEarly(full, k, Owner(full, h), i);
    var route, sender := Route(full, h), PlanAt(full, k)[i].sender;
    assert sender == route[0] || sender == route[1];
  }

  lemma ReceiverIsFourth(full: seq<int>, k: int, c: int, i: int)
    requires |full| >= 4 && 0 <= k < |full| && 0 <= i < 3 && c == Wrap(k - 2 + i, |full|)
    ensures PlanAt(full, k)[i].receiver == Around(full, c, 3)
  {
    AroundFrom(full, k, i - 2, 3);
    assert PlanAt(full, k)[i].receiver == Around(full, k, i + 1);
  }

  lemma SenderIsEarly(full: seq<int>, k: int, c: int, i: int)
    requires |full| >= 4 && 0 <= k < |full| && 0 <= i < 3 && c == Wrap(k - 2 + i, |full|)
    ensures PlanAt(full, k)[i].sender == Around(full, c, if i == 1 then 0 else 1)
    ensures PlanAt(full, k)[i].sender == Around(full, k, if i == 2 then 1 else -1)
  {
    AroundFrom(full, k, i - 2, if i == 1 then 0 else 1);
  }

  lemma AroundFrom(full: seq<int>, k: int, a: int, b: int)
    requires |full| >= 4 && 0 <= k < |full| && -2 <= a <= 0 && 0 <= b <= 3
    ensures Around(full, Wrap(k + a, |full|), b) == Around(full, k, a + b)
  {
  }

  lemma NotFailed(full: seq<int>, k: int)
    requires StrictlyAscending(full) && |full| >= 2 && 0 <= k < |full|
    ensures Around(full, k, -1) != full[k] && Around(full, k, 1) != full[k]
  {
  }

  /** The whole plan: exactly the routes through the failed peer change, and each transfer mends one. */
  lemma PlanIsExact(survivors: seq<int>, failed: int, h: int)
    requires StrictlyAscending(survivors) && failed !in survivors && |survivors| >= 3
    ensures |Plan(survivors, failed)| == 3
    ensures var plan := Plan(survivors, failed);
            var before, after := Route(Insert(survivors, failed), h), Route(survivors, h);
            && (before == after <==> forall i :: 0 <= i < 3 ==> !Covers(plan[i], h))
            && (forall i :: 0 <= i < 3 && Covers(plan[i], h) ==>
                  && plan[i].sender in before && plan[i].sender in survivors
                  && (forall p :: p in after && p !in before <==> p == plan[i].receiver)
                  && (forall p :: p in before && p !in after <==> p == failed))
  {
    InsertIsRemoveInverse(survivors, failed);
    PlanIsPlanAt(survivors, failed);
    var full, k := Insert(survivors, failed), |UpTo(survivors, failed)|;
    ExactAt(full, k, survivors, h);
  }

  lemma ExactAt(full: seq<int>, k: int, survivors: seq<int>, h: int)
    requires StrictlyAscending(full) && |full| >= 4 && 0 <= k < |full|
    requires survivors == Without(full, full[k])
    ensures var plan, before, after := PlanAt(full, k), Route(full, h), Route(survivors, h);
            && (before == after <==> forall i :: 0 <= i < 3 ==> !Covers(plan[i], h))
            && (forall i :: 0 <= i < 3 && Covers(plan[i], h) ==>
                  && plan[i].sender in before && plan[i].sender in survivors
                  && (forall p :: p in after && p !in before <==> p == plan[i].receiver)
                  && (forall p :: p in before && p !in after <==> p == full[k]))
  {
    var failed, before, after, plan := full[k], Route(full, h), Route(survivors, h), PlanAt(full, k);
    ArcsAreTheLostHashes(full, k, h);
    RemovalIsLocal(full, h, failed);
    WithoutKeeps(before, failed);
    WithoutKeeps(full, failed);
    forall i | 0 <= i < 3 && Covers(plan[i], h)
      ensures plan[i].sender in before && plan[i].sender in survivors
      ensures forall p :: p in after && p !in before <==> p == plan[i].receiver
      ensures forall p :: p in before && p !in after <==> p == failed
      ensures before != after
    {
      EndsOfTransfer(full, k, h, i);
      assert after == Without(before, failed) + [plan[i].receiver];
      assert failed in before && failed !in after;
    }
  }

  /** With fewer than three survivors some receiver is the failed peer itself. */
  lemma ReceiversSurviveIff(survivors: seq<int>, failed: int)
    requires StrictlyAscending(survivors) && failed !in survivors && |survivors| != 1
    ensures (forall t :: t in Plan(survivors, failed) ==> t.receiver in survivors) <==> |survivors| >= 3
  {
    InsertIsRemoveInverse(survivors, failed);
    PlanIsPlanAt(survivors, failed);
    var full, k := Insert(survivors, failed), |UpTo(survivors, failed)|;
    WithoutKeeps(full, failed);
    ReceiversAt(full, k);
  }

  lemma ReceiversAt(full: seq<int>, k: int)
    requires StrictlyAscending(full) && 0 <= k < |full|
    ensures (forall t :: t in PlanAt(full, k) ==> t.receiver in full && t.receiver != full[k]) <==> |full| >= 4
  {
    var plan := PlanAt(full, k);
    assert plan[0] in plan && plan[1] in plan && plan[2] in plan;
    if |full| <= 3 {
      ReturnsToStart(full, k);
      assert plan[|full| - 1].receiver == full[k];
    }
  }

  lemma ReturnsToStart(full: seq<int>, k: int)
    requires full != [] && 0 <= k < |full|
    ensures Around(full, k, |full|) == full[k]
  {
    WrapIsMod(k + |full|, |full|);
  }

  // ----- who sends to whom -----

  lemma AroundApart(full: seq<int>, k: int, a: int, b: int)
    requires StrictlyAscending(full) && |full| >= 4 && 0 <= k < |full| && -1 <= a <= 3 && -1 <= b <= 3
    ensures Around(full, k, a) == Around(full, k, b) <==> a == b || (|full| == 4 && (a - b == 4 || b - a == 4))
  {
    var i, j := Wrap(k + a, |full|), Wrap(k + b, |full|);
    assert full[i] == full[j] <==> i == j;
  }

  /** The nearest predecessor sends to the first two successors and the first successor to the third, which is the
      nearest predecessor again exactly with three survivors. All other ends differ. */
  lemma PlanEnds(survivors: seq<int>, failed: int)
    requires StrictlyAscending(survivors) && failed !in survivors && |survivors| >= 3
    ensures |Plan(survivors, failed)| == 3
    ensures var plan := Plan(survivors, failed);
            && plan[1].sender == plan[0].sender && plan[2].sender == plan[0].receiver
            && plan[0].receiver != plan[1].receiver && plan[0].receiver != plan[2].receiver
            && plan[1].receiver != plan[2].receiver
            && plan[0].sender != plan[0].receiver && plan[0].sender != plan[1].receiver
            && (plan[2].receiver == plan[0].sender <==> |survivors| == 3)
  {
    InsertIsRemoveInverse(survivors, failed);
    PlanIsPlanAt(survivors, failed);
    var full, k := Insert(survivors, failed), |UpTo(survivors, failed)|;
    hide Insert;
    hide UpTo;
    hide Plan;
    hide Without;
    AroundApart(full, k, 1, 2);
    AroundApart(full, k, 1, 3);
    AroundApart(full, k, 2, 3);
    AroundApart(full, k, -1, 1);
    AroundApart(full, k, -1, 2);
    AroundApart(full, k, -1, 3);
    hide Around;
  }

  /** For a hash of the middle arc the first successor was on the route and stays there. For one of the last arc the
      nearest predecessor was not on it. */
  lemma EndsOnRoute(survivors: seq<int>, failed: int, h: int)
    requires StrictlyAscending(survivors) && failed !in survivors && |survivors| >= 3
    ensures |Plan(survivors, failed)| == 3
    ensures var plan := Plan(survivors, failed);
            var before, after := Route(Insert(survivors, failed), h), Route(survivors, h);
            && (Covers(plan[1], h) ==> plan[0].receiver in before && plan[0].receiver in after)
            && (Covers(plan[2], h) ==> plan[0].sender !in before)
  {
    PlanIsExact(survivors, failed, h);
    ReceiversSurviveIff(survivors, failed);
    InsertIsRemoveInverse(survivors, failed);
    PlanIsPlanAt(survivors, failed);
    var full, k := Insert(survivors, failed), |UpTo(survivors, failed)|;
    var plan, before := Plan(survivors, failed), Route(full, h);
    assert plan[0] in plan;
    hide Insert;
    hide UpTo;
    hide Plan;
    hide Route;
    EndsOnRouteAt(full, k, h);
  }

  lemma EndsOnRouteAt(full: seq<int>, k: int, h: int)
    requires StrictlyAscending(full) && |full| >= 4 && 0 <= k < |full|
    ensures var plan, before := PlanAt(full, k), Route(full, h);
            && (Covers(plan[1], h) ==> plan[0].receiver in before)
            && (Covers(plan[2], h) ==> plan[0].sender !in before)
  {
    ArcsAt(full, k, h);
    RouteAround(full, h);
    hide Route;
    hide Successors;
    hide Covers;
    hide Owner;
    var c, route := Owner(full, h), Route(full, h);
    if Covers(PlanAt(full, k)[1], h) {
      AroundFrom(full, k, -1, 2);
      assert route[2] == Around(full, k, 1);
    }
    if Covers(PlanAt(full, k)[2], h) {
      AroundApart(full, k, -1, 0);
      AroundApart(full, k, -1, 1);
      AroundApart(full, k, -1, 2);
      assert forall p :: p in route <==> p == route[0] || p == route[1] || p == route[2];
    }
  }
}
