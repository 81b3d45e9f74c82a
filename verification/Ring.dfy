/** Entries of the membership list. */
module Entries {
  datatype Status = Active | Failed | Suspected | Left

  datatype Entry = Entry(node: int, timestamp: int, status: Status, peer: int)

  function PeerIds(list: seq<Entry>): (ids: seq<int>)
    ensures |ids| == |list|
    ensures forall i :: 0 <= i < |list| ==> ids[i] == list[i].peer
  {
    seq(|list|, i requires 0 <= i < |list| => list[i].peer)
  }
}

/** Consistent-hash placement: a file lives on the first three peers clockwise of its hash. */
module Ring {
  import opened Entries

  // Hashes keep the low eleven bits of murmur3.
  const RING_SIZE := 2048

  ghost predicate Ascending(ring: seq<int>) {
    forall i, j :: 0 <= i < j < |ring| ==> ring[i] <= ring[j]
  }

  ghost predicate StrictlyAscending(ring: seq<int>) {
    forall i, j :: 0 <= i < j < |ring| ==> ring[i] < ring[j]
  }

  ghost predicate OnRing(ring: seq<int>) {
    forall p :: p in ring ==> 0 <= p < RING_SIZE
  }

  // The ids greater than h, and those at most h, in list order.
  function Above(ring: seq<int>, h: int): seq<int> {
    if ring == [] then []
    else if ring[0] > h then [ring[0]] + Above(ring[1..], h)
    else Above(ring[1..], h)
  }

  function UpTo(ring: seq<int>, h: int): seq<int> {
    if ring == [] then []
    else if ring[0] > h then UpTo(ring[1..], h)
    else [ring[0]] + UpTo(ring[1..], h)
  }

  /** The peers in the order in which they are met going clockwise from h. */
  function Successors(ring: seq<int>, h: int): seq<int> {
    Above(ring, h) + UpTo(ring, h)
  }

  function Without(ring: seq<int>, x: int): seq<int> {
    if ring == [] then []
    else if ring[0] == x then Without(ring[1..], x)
    else [ring[0]] + Without(ring[1..], x)
  }

  /** Primary and two replicas; a short ring repeats peers. */
  function Route(ring: seq<int>, h: int): (route: seq<int>)
    ensures |route| == if ring == [] then 0 else 3
  {
    SuccessorsArePeers(ring, h);
    var s := Successors(ring, h);
    if ring == [] then [] else [s[0], s[1 % |s|], s[2 % |s|]]
  }

  // ----- the shape of the successor sequence -----

  lemma {:induction false} SuccessorsArePeers(ring: seq<int>, h: int)
    ensures |Successors(ring, h)| == |ring|
    ensures forall p :: p in Successors(ring, h) <==> p in ring
  {
    if ring != [] {
      SuccessorsArePeers(ring[1..], h);
      forall p ensures p in ring <==> p == ring[0] || p in ring[1..] {
        MembersSplit(ring, p);
      }
    }
  }

  lemma MembersSplit(s: seq<int>, p: int)
    requires s != []
    ensures p in s <==> p == s[0] || p in s[1..]
  {
    assert s == [s[0]] + s[1..];
  }

  lemma {:induction false} AllAbove(ring: seq<int>, h: int)
    requires forall i :: 0 <= i < |ring| ==> ring[i] > h
    ensures UpTo(ring, h) == [] && Above(ring, h) == ring
  {
    if ring != [] {
      AllAbove(ring[1..], h);
    }
  }

  lemma {:induction false} SortedSplits(ring: seq<int>, h: int)
    requires Ascending(ring)
    ensures ring == UpTo(ring, h) + Above(ring, h)
    ensures forall p :: p in UpTo(ring, h) ==> p <= h
    ensures forall p :: p in Above(ring, h) ==> p > h
  {
    if ring != [] {
      if ring[0] > h {
        AllAbove(ring, h);
      } else {
        SortedSplits(ring[1..], h);
        assert ring == [ring[0]] + ring[1..];
      }
    }
  }

  /** The cut between ids up to h and ids above it is unique. */
  lemma {:induction false} CutIs(ring: seq<int>, h: int, c: nat)
    requires c <= |ring|
    requires forall i :: 0 <= i < c ==> ring[i] <= h
    requires forall i :: c <= i < |ring| ==> ring[i] > h
    ensures |UpTo(ring, h)| == c
  {
    if c == 0 {
      AllAbove(ring, h);
    } else {
      CutIs(ring[1..], h, c - 1);
    }
  }

  /** Index form: the first id above h sits at position |UpTo|, and the successors are the list rotated there. */
  lemma SuccessorsRotate(ring: seq<int>, h: int)
    requires Ascending(ring)
    ensures var c := |UpTo(ring, h)|;
            && c <= |ring|
            && Successors(ring, h) == ring[c..] + ring[..c]
            && (forall i :: 0 <= i < c ==> ring[i] <= h)
            && (forall i :: c <= i < |ring| ==> ring[i] > h)
  {
    SortedSplits(ring, h);
    CutAt(ring, UpTo(ring, h), Above(ring, h), h);
  }

  lemma CutAt(ring: seq<int>, low: seq<int>, high: seq<int>, h: int)
    requires ring == low + high
    requires forall p :: p in low ==> p <= h
    requires forall p :: p in high ==> p > h
    ensures ring[..|low|] == low && ring[|low|..] == high
    ensures forall i :: 0 <= i < |low| ==> ring[i] <= h
    ensures forall i :: |low| <= i < |ring| ==> ring[i] > h
  {
    forall i | 0 <= i < |low| ensures ring[i] <= h {
      assert low[i] in low;
    }
    forall i | |low| <= i < |ring| ensures ring[i] > h {
      assert high[i - |low|] in high;
    }
  }

  lemma RouteIsPrefix(ring: seq<int>, h: int)
    requires |ring| >= 3
    ensures |Successors(ring, h)| == |ring|
    ensures Route(ring, h) == Successors(ring, h)[..3]
  {
    SuccessorsArePeers(ring, h);
    var n := |ring|;
    assert 1 % n == 1 && 2 % n == 2;
  }

  // ----- routing means: the three nearest peers clockwise -----

  function Clockwise(h: int, p: int): int {
    if p > h then p - h else p - h + RING_SIZE
  }

  ghost predicate NearestThree(ring: seq<int>, h: int, r: seq<int>) {
    && |r| == 3
    && (forall i :: 0 <= i < 3 ==> r[i] in ring)
    && Clockwise(h, r[0]) < Clockwise(h, r[1]) < Clockwise(h, r[2])
    && (forall p :: p in ring && p !in r ==> Clockwise(h, r[2]) < Clockwise(h, p))
  }

  lemma SuccessorsByDistance(ring: seq<int>, h: int)
    requires StrictlyAscending(ring) && OnRing(ring) && 0 <= h < RING_SIZE
    ensures var s := Successors(ring, h);
            forall i, j :: 0 <= i < j < |s| ==> Clockwise(h, s[i]) < Clockwise(h, s[j])
  {
    SuccessorsRotate(ring, h);
    var c, s := |UpTo(ring, h)|, Successors(ring, h);
    var n := |ring|;
    forall i, j | 0 <= i < j < |s| ensures Clockwise(h, s[i]) < Clockwise(h, s[j]) {
      assert s[i] == if i < n - c then ring[i + c] else ring[i - (n - c)];
      assert s[j] == if j < n - c then ring[j + c] else ring[j - (n - c)];
      assert s[i] in ring && s[j] in ring;
    }
  }

  /** With three peers or more the route is exactly the three nearest, primary first. */
  lemma RouteIsNearestThree(ring: seq<int>, h: int, r: seq<int>)
    requires StrictlyAscending(ring) && OnRing(ring) && 0 <= h < RING_SIZE
    requires |ring| >= 3
    ensures NearestThree(ring, h, r) <==> r == Route(ring, h)
  {
    SuccessorsArePeers(ring, h);
    SuccessorsByDistance(ring, h);
    RouteIsPrefix(ring, h);
    if r == Route(ring, h) {
      RouteIsNear(ring, h);
    }
    if NearestThree(ring, h, r) {
      NearIsRoute(ring, h, r);
    }
  }

  lemma RouteIsNear(ring: seq<int>, h: int)
    requires |ring| >= 3 && |Successors(ring, h)| == |ring|
    requires Route(ring, h) == Successors(ring, h)[..3]
    requires forall p :: p in Successors(ring, h) <==> p in ring
    requires var s := Successors(ring, h);
             forall i, j :: 0 <= i < j < |s| ==> Clockwise(h, s[i]) < Clockwise(h, s[j])
    ensures NearestThree(ring, h, Route(ring, h))
  {
    var s, route := Successors(ring, h), Route(ring, h);
    forall p | p in ring ensures p in route || Clockwise(h, route[2]) < Clockwise(h, p) {
      var i :| 0 <= i < |s| && s[i] == p;
      if i < 3 {
        assert route[i] == p;
      }
    }
    assert route[0] == s[0] && route[1] == s[1] && route[2] == s[2];
  }

  lemma NearIsRoute(ring: seq<int>, h: int, r: seq<int>)
    requires |ring| >= 3 && |Successors(ring, h)| == |ring|
    requires Route(ring, h) == Successors(ring, h)[..3]
    requires forall p :: p in Successors(ring, h) <==> p in ring
    requires var s := Successors(ring, h);
             forall i, j :: 0 <= i < j < |s| ==> Clockwise(h, s[i]) < Clockwise(h, s[j])
    requires NearestThree(ring, h, r)
    ensures r == Route(ring, h)
  {
    hide Successors;
    hide Route;
    hide Clockwise;
    var s := Successors(ring, h);
    assert r[0] in s && r[1] in s && r[2] in s;
    var a :| 0 <= a < |s| && s[a] == r[0];
    var b :| 0 <= b < |s| && s[b] == r[1];
    var c :| 0 <= c < |s| && s[c] == r[2];
    assert a < b < c;
    assert s[0] in ring && s[1] in ring && s[2] in ring;
    assert s[0] in r && s[1] in r && s[2] in r;
    assert r == s[..3];
  }

  // ----- removal is local -----

  lemma {:induction false} WithoutConcat(a: seq<int>, b: seq<int>, x: int)
    ensures Without(a + b, x) == Without(a, x) + Without(b, x)
  {
    if a == [] {
      assert a + b == b;
    } else {
      WithoutConcat(a[1..], b, x);
      assert (a + b)[0] == a[0] && (a + b)[1..] == a[1..] + b;
      assert Without(a + b, x) == if a[0] == x then Without(a[1..] + b, x) else [a[0]] + Without(a[1..] + b, x);
    }
  }

  /** Removing a peer commutes with walking the ring, whatever the list. */
  lemma {:induction false} SuccessorsAfterRemoval(ring: seq<int>, h: int, x: int)
    ensures Successors(Without(ring, x), h) == Without(Successors(ring, h), x)
    ensures Above(Without(ring, x), h) == Without(Above(ring, h), x)
    ensures UpTo(Without(ring, x), h) == Without(UpTo(ring, h), x)
  {
    if ring != [] {
      var p, rest := ring[0], ring[1..];
      SuccessorsAfterRemoval(rest, h, x);
      if p != x {
        assert Without(ring, x)[1..] == Without(rest, x);
        assert Without([p], x) == [p];
      } else {
        assert Without([p], x) == [];
      }
      WithoutConcat([p], Above(rest, h), x);
      WithoutConcat([p], UpTo(rest, h), x);
    }
    WithoutConcat(Above(ring, h), UpTo(ring, h), x);
  }

  lemma {:induction false} WithoutAbsent(ring: seq<int>, x: int)
    requires x !in ring
    ensures Without(ring, x) == ring
  {
    if ring != [] {
      WithoutAbsent(ring[1..], x);
      assert ring == [ring[0]] + ring[1..];
    }
  }

  lemma {:induction false} WithoutKeeps(ring: seq<int>, x: int)
    ensures forall p :: p in Without(ring, x) <==> p in ring && p != x
    ensures |Without(ring, x)| <= |ring|
  {
    if ring != [] {
      WithoutKeeps(ring[1..], x);
      forall p ensures p in ring <==> p == ring[0] || p in ring[1..] {
        MembersSplit(ring, p);
      }
    }
  }

  lemma {:induction false} WithoutAscending(ring: seq<int>, x: int)
    requires StrictlyAscending(ring)
    ensures StrictlyAscending(Without(ring, x))
  {
    if ring != [] {
      var rest := Without(ring[1..], x);
      WithoutAscending(ring[1..], x);
      WithoutKeeps(ring[1..], x);
      forall k | 0 <= k < |rest| ensures ring[0] < rest[k] {
        assert rest[k] in rest;
        assert rest[k] in ring[1..];
      }
    }
  }

  /** Deleting the element at index k of a list without duplicates. */
  lemma WithoutAt(s: seq<int>, k: int)
    requires 0 <= k < |s|
    requires forall i :: 0 <= i < |s| && i != k ==> s[i] != s[k]
    ensures Without(s, s[k]) == s[..k] + s[k + 1..]
  {
    var x := s[k];
    assert s == s[..k] + ([x] + s[k + 1..]);
    WithoutConcat(s[..k], [x] + s[k + 1..], x);
    WithoutConcat([x], s[k + 1..], x);
    assert Without([x], x) == [];
    assert x !in s[..k] && x !in s[k + 1..];
    WithoutAbsent(s[..k], x);
    WithoutAbsent(s[k + 1..], x);
  }

  lemma SuccessorsDistinct(ring: seq<int>, h: int)
    requires StrictlyAscending(ring)
    ensures var s := Successors(ring, h);
            forall i, j :: 0 <= i < |s| && 0 <= j < |s| && i != j ==> s[i] != s[j]
  {
    SuccessorsRotate(ring, h);
  }

  /** A removal that leaves three survivors changes only the routes through the removed peer,
      each of which loses it and gains exactly the peer that was fourth. */
  lemma RemovalIsLocal(ring: seq<int>, h: int, x: int)
    requires StrictlyAscending(ring) && x in ring && |ring| >= 4
    ensures |Without(ring, x)| == |Without(Successors(ring, h), x)| == |ring| - 1 == |Successors(ring, h)| - 1
    ensures Route(Without(ring, x), h) == Without(Successors(ring, h), x)[..3]
    ensures x !in Route(ring, h) ==> Route(Without(ring, x), h) == Route(ring, h)
    ensures x in Route(ring, h) ==>
              && Route(Without(ring, x), h) == Without(Route(ring, h), x) + [Successors(ring, h)[3]]
              && Successors(ring, h)[3] !in Route(ring, h)
  {
    SuccessorsArePeers(ring, h);
    SuccessorsDistinct(ring, h);
    SuccessorsAfterRemoval(ring, h, x);
    SuccessorsArePeers(Without(ring, x), h);
    var s := Successors(ring, h);
    var k :| 0 <= k < |s| && s[k] == x;
    FirstThreeAfterDrop(s, k);
    RouteIsPrefix(ring, h);
    RouteIsPrefix(Without(ring, x), h);
  }

  lemma FirstThreeAfterDrop(s: seq<int>, k: int)
    requires |s| >= 4 && 0 <= k < |s|
    requires forall i, j :: 0 <= i < |s| && 0 <= j < |s| && i != j ==> s[i] != s[j]
    ensures |Without(s, s[k])| == |s| - 1
    ensures s[k] in s[..3] <==> k < 3
    ensures Without(s, s[k])[..3] == if k < 3 then Without(s[..3], s[k]) + [s[3]] else s[..3]
    ensures s[3] !in s[..3]
  {
    WithoutAt(s, k);
    if k < 3 {
      assert s[..3][k] == s[k];
      WithoutAt(s[..3], k);
      assert s[..3][..k] == s[..k];
      assert s[..3][k + 1..] + [s[3]] == s[k + 1..4];
      assert (s[..k] + s[k + 1..])[..3] == s[..k] + s[k + 1..4];
    } else {
      assert (s[..k] + s[k + 1..])[..3] == s[..3];
    }
  }

  // ----- the routing loops -----

  method FileRouting(fileHashId: int, mL: seq<Entry>) returns (routedFile: seq<int>)
    requires Ascending(PeerIds(mL))
    ensures routedFile == Route(PeerIds(mL), fileHashId)
  {
    NoRoute(fileHashId);
    hide Route;
    hide UpTo;
    routedFile := [];
    ghost var ring := PeerIds(mL);
    for i := 0 to |mL|
      invariant routedFile == []
      invariant |ring| == |mL| && forall k :: 0 <= k < |mL| ==> ring[k] == mL[k].peer
      invariant forall k :: 0 <= k < i ==> ring[k] <= fileHashId
    {
      if mL[i].peer > fileHashId {
        routedFile := routedFile + [mL[i].peer];
        routedFile := routedFile + [mL[(i + 1) % |mL|].peer];
        routedFile := routedFile + [mL[(i + 2) % |mL|].peer];
        CutIs(ring, fileHashId, i);
        RouteFrom(ring, fileHashId);
        assert routedFile == [ring[i], ring[(i + 1) % |ring|], ring[(i + 2) % |ring|]];
        break;
      }
    }
    if |routedFile| == 0 && |mL| > 0 {
      routedFile := routedFile + [mL[0].peer];
      routedFile := routedFile + [mL[1 % |mL|].peer];
      routedFile := routedFile + [mL[2 % |mL|].peer];
      CutIs(ring, fileHashId, |mL|);
      RouteFrom(ring, fileHashId);
      assert routedFile == [ring[0], ring[1 % |ring|], ring[2 % |ring|]];
    }
  }

  lemma NoRoute(h: int)
    ensures Route([], h) == []
  {
  }

  lemma RouteFrom(ring: seq<int>, h: int)
    requires Ascending(ring) && ring != []
    ensures var c, n := |UpTo(ring, h)|, |ring|;
            && (c < n ==> Route(ring, h) == [ring[c], ring[(c + 1) % n], ring[(c + 2) % n]])
            && (c == n ==> Route(ring, h) == [ring[0], ring[1 % n], ring[2 % n]])
  {
    SuccessorsRotate(ring, h);
    hide UpTo;
    hide Above;
    hide Ascending;
    if |UpTo(ring, h)| < |ring| {
      RotatedIndex(ring, h, 1);
      RotatedIndex(ring, h, 2);
    }
  }

  lemma RotatedIndex(ring: seq<int>, h: int, d: nat)
    requires Ascending(ring) && |UpTo(ring, h)| < |ring| && d <= 2
    ensures |Successors(ring, h)| == |ring|
    ensures ring[(|UpTo(ring, h)| + d) % |ring|] == Successors(ring, h)[d % |ring|]
  {
    SuccessorsRotate(ring, h);
    var c, n := |UpTo(ring, h)|, |ring|;
    if n == 1 {
    } else {
      ModWrap(d, n);
      ModWrap(c + d, n);
    }
  }

  lemma ModWrap(a: nat, n: nat)
    requires a < 2 * n
    ensures a % n == if a < n then a else a - n
  {
    if a >= n {
      assert a == n + (a - n);
    }
  }

  function IndexOfPeer(mL: seq<Entry>, peerId: int): (index: int)
    ensures -1 <= index < |mL|
    ensures index >= 0 ==> mL[index].peer == peerId
    ensures forall k :: 0 <= k < |mL| && (index == -1 || k < index) ==> mL[k].peer != peerId
  {
    if |mL| == 0 then -1
    else
      var front := IndexOfPeer(mL[..|mL| - 1], peerId);
      if front != -1 then front
      else if mL[|mL| - 1].peer == peerId then |mL| - 1 else -1
  }

  method GetIndexOfPeer(mL: seq<Entry>, peerId: int) returns (index: int)
    ensures index == IndexOfPeer(mL, peerId)
  {
    for i := 0 to |mL|
      invariant forall k :: 0 <= k < i ==> mL[k].peer != peerId
    {
      if mL[i].peer == peerId {
        return i;
      }
    }
    return -1;
  }

  /** The owner of a peer id is the first entry that carries it. */
  ghost predicate Owns(mL: seq<Entry>, node: int, peerId: int) {
    exists i :: 0 <= i < |mL| && mL[i].node == node && mL[i].peer == peerId
                && forall k :: 0 <= k < i ==> mL[k].peer != peerId
  }

  /** The nodes that hold a file: the owners of its route, in route order. */
  method GetNodeIdsOfFile(fileHashId: int, mL: seq<Entry>) returns (nodeIds: seq<int>)
    requires Ascending(PeerIds(mL))
    ensures |nodeIds| == |Route(PeerIds(mL), fileHashId)|
    ensures forall k :: 0 <= k < |nodeIds| ==> Owns(mL, nodeIds[k], Route(PeerIds(mL), fileHashId)[k])
  {
    nodeIds := [];
    var filePeerIds := FileRouting(fileHashId, mL);
    SuccessorsArePeers(PeerIds(mL), fileHashId);
    for i := 0 to |filePeerIds|
      invariant |nodeIds| == i
      invariant forall k :: 0 <= k < i ==> Owns(mL, nodeIds[k], filePeerIds[k])
    {
      var index := GetIndexOfPeer(mL, filePeerIds[i]);
      assert filePeerIds[i] in PeerIds(mL);
      assert exists j :: 0 <= j < |mL| && PeerIds(mL)[j] == filePeerIds[i];
      assert Owns(mL, mL[index].node, filePeerIds[i]);
      nodeIds := nodeIds + [mL[index].node];
    }
  }

  // ----- binary search refines the linear scan -----

  /** First index whose peer id is not below peerId. */
  method HypotheticalIndexForPeerId(mL: seq<Entry>, peerId: int) returns (left: int)
    requires Ascending(PeerIds(mL))
    ensures 0 <= left <= |mL|
    ensures forall k :: 0 <= k < left ==> mL[k].peer < peerId
    ensures forall k :: left <= k < |mL| ==> mL[k].peer >= peerId
    ensures left == |UpTo(PeerIds(mL), peerId - 1)|
  {
    left := 0;
    var right := |mL|;
    ghost var ring := PeerIds(mL);
    while left < right
      invariant 0 <= left <= right <= |mL|
      invariant forall k :: 0 <= k < left ==> ring[k] < peerId
      invariant forall k :: right <= k < |mL| ==> ring[k] >= peerId
    {
      var mid := (left + right) / 2;
      if mL[mid].peer < peerId {
        left := mid + 1;
      } else {
        right := mid;
      }
    }
    CutIs(ring, peerId - 1, left);
  }

  /** Searching for h + 1, modulo the length, finds the primary that the linear scan routes h to. */
  lemma SearchFindsPrimary(ring: seq<int>, h: int, index: int)
    requires Ascending(ring) && ring != []
    requires 0 <= index <= |ring|
    requires forall k :: 0 <= k < index ==> ring[k] < h + 1
    requires forall k :: index <= k < |ring| ==> ring[k] >= h + 1
    ensures ring[index % |ring|] == Route(ring, h)[0]
  {
    SuccessorsRotate(ring, h);
    CutIs(ring, h, index);
    ModWrap(index, |ring|);
    var s := Successors(ring, h);
    assert s == ring[index..] + ring[..index];
    assert s[0] == if index < |ring| then ring[index] else ring[0];
  }
}
