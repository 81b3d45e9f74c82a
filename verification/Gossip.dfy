/** De-duplication of the gossip buffer. */
module Gossip {
  datatype Kind = Fail | Leave | Suspect | Join | Alive | Unknown

  datatype Msg = Msg(kind: Kind, node: int, timestamp: int)

  predicate Conflicting(a: Msg, b: Msg) {
    (a.kind.Fail? && b.kind.Join?) || (a.kind.Join? && b.kind.Fail?)
  }

  /** The one kept of two messages about the same node, existing having come first. */
  function Prefer(existing: Msg, msg: Msg, suspicion: bool): Msg {
    if Conflicting(existing, msg) then
      if msg.timestamp > existing.timestamp then msg else existing
    else if msg.timestamp > existing.timestamp && !suspicion then msg
    else existing
  }

  function Take(latest: map<int, Msg>, msg: Msg, suspicion: bool): map<int, Msg> {
    latest[msg.node := if msg.node in latest then Prefer(latest[msg.node], msg, suspicion) else msg]
  }

  /** The message kept for each node after the messages have been taken in order. */
  function Latest(msgs: seq<Msg>, suspicion: bool): map<int, Msg> {
    if msgs == [] then map[]
    else Take(Latest(msgs[..|msgs| - 1], suspicion), msgs[|msgs| - 1], suspicion)
  }

  ghost predicate DistinctNodes(msgs: seq<Msg>) {
    forall i, j :: 0 <= i < j < |msgs| ==> msgs[i].node != msgs[j].node
  }

  /** msgs lists the values of latest, each once, in some order. */
  ghost predicate Lists(msgs: seq<Msg>, latest: map<int, Msg>) {
    && DistinctNodes(msgs)
    && (forall i :: 0 <= i < |msgs| ==> msgs[i].node in latest && latest[msgs[i].node] == msgs[i])
    && (forall n :: n in latest ==> latest[n] in msgs && latest[n].node == n)
  }

  lemma {:induction false} LatestNamesItsNode(msgs: seq<Msg>, suspicion: bool)
    ensures forall n :: n in Latest(msgs, suspicion) ==> Latest(msgs, suspicion)[n].node == n
  {
    if msgs != [] {
      LatestNamesItsNode(msgs[..|msgs| - 1], suspicion);
    }
  }

  /** The map's iteration order is arbitrary, so the result is some listing of the kept messages. */
  method RemoveConflictMessages(msgs: seq<Msg>, suspicion: bool) returns (result: seq<Msg>)
    ensures Lists(result, Latest(msgs, suspicion))
  {
    var latestMessages: map<int, Msg> := map[];
    for i := 0 to |msgs|
      invariant latestMessages == Latest(msgs[..i], suspicion)
    {
      var msg := msgs[i];
      assert msgs[..i + 1][..i] == msgs[..i];
      if msg.node in latestMessages {
        var existingMsg := latestMessages[msg.node];
        if (existingMsg.kind.Fail? && msg.kind.Join?) || (existingMsg.kind.Join? && msg.kind.Fail?) {
          if msg.timestamp > existingMsg.timestamp {
            latestMessages := latestMessages[msg.node := msg];
          }
        } else if msg.timestamp > existingMsg.timestamp && suspicion == false {
          latestMessages := latestMessages[msg.node := msg];
        }
      } else {
        latestMessages := latestMessages[msg.node := msg];
      }
    }
    assert msgs[..|msgs|] == msgs;
    LatestNamesItsNode(msgs, suspicion);
    result := ListMap(latestMessages);
  }

  method ListMap(latestMessages: map<int, Msg>) returns (result: seq<Msg>)
    requires forall n :: n in latestMessages ==> latestMessages[n].node == n
    ensures Lists(result, latestMessages)
  {
    result := [];
    var nodes := latestMessages.Keys;
    while exists n :: n in nodes
      decreases nodes
      invariant DistinctNodes(result)
      invariant forall i :: 0 <= i < |result| ==>
                  && result[i].node in latestMessages && latestMessages[result[i].node] == result[i]
                  && result[i].node !in nodes
      invariant forall n :: n in latestMessages && n !in nodes ==> latestMessages[n] in result
    {
      var n :| n in nodes;
      nodes := nodes - {n};
      result := result + [latestMessages[n]];
    }
  }

  // ----- incremental -----

  lemma {:induction false} LatestConcat(a: seq<Msg>, b: seq<Msg>, c: seq<Msg>, suspicion: bool)
    requires Latest(a, suspicion) == Latest(b, suspicion)
    ensures Latest(a + c, suspicion) == Latest(b + c, suspicion)
  {
    if c == [] {
      assert a + c == a && b + c == b;
    } else {
      var front, last := c[..|c| - 1], c[|c| - 1];
      LatestConcat(a, b, front, suspicion);
      assert (a + c)[..|a + c| - 1] == a + front && (b + c)[..|b + c| - 1] == b + front;
    }
  }

  lemma {:induction false} LatestOfListing(msgs: seq<Msg>, latest: map<int, Msg>, suspicion: bool)
    requires Lists(msgs, latest)
    ensures Latest(msgs, suspicion) == latest
  {
    if msgs == [] {
      assert forall n :: n !in latest;
    } else {
      var front, last := msgs[..|msgs| - 1], msgs[|msgs| - 1];
      var rest := latest - {last.node};
      forall n | n in rest ensures rest[n] in front {
        var i :| 0 <= i < |msgs| && msgs[i] == latest[n];
        assert front[i] == rest[n];
      }
      LatestOfListing(front, rest, suspicion);
      assert latest == rest[last.node := last];
    }
  }

  /** De-duplicating early, listing what is left in any order and going on with new messages gives the same
      as de-duplicating everything at once, in either mode. */
  lemma DeduplicationIsIncremental(earlier: seq<Msg>, kept: seq<Msg>, newer: seq<Msg>, suspicion: bool)
    requires Lists(kept, Latest(earlier, suspicion))
    ensures Latest(kept + newer, suspicion) == Latest(earlier + newer, suspicion)
  {
    LatestOfListing(kept, Latest(earlier, suspicion), suspicion);
    LatestConcat(kept, earlier, newer, suspicion);
  }

  // ----- what is kept -----

  // Position i holds the first message about n with the greatest timestamp.
  ghost predicate FirstMax(msgs: seq<Msg>, n: int, i: int) {
    && 0 <= i < |msgs| && msgs[i].node == n
    && (forall j :: 0 <= j < i && msgs[j].node == n ==> msgs[j].timestamp < msgs[i].timestamp)
    && (forall j :: i < j < |msgs| && msgs[j].node == n ==> msgs[j].timestamp <= msgs[i].timestamp)
  }

  ghost predicate Mentions(msgs: seq<Msg>, n: int) {
    exists i :: 0 <= i < |msgs| && msgs[i].node == n
  }

  lemma {:induction false} LatestKeys(msgs: seq<Msg>, n: int, suspicion: bool)
    ensures n in Latest(msgs, suspicion) <==> Mentions(msgs, n)
  {
    if msgs != [] {
      var front := msgs[..|msgs| - 1];
      LatestKeys(front, n, suspicion);
      if Mentions(front, n) {
        var i :| 0 <= i < |front| && front[i].node == n;
        assert msgs[i].node == n;
      }
    }
  }

  /** With suspicion off the kept message is the first one with the greatest timestamp. */
  lemma {:induction false} KeptIsFirstMax(msgs: seq<Msg>, n: int) returns (i: int)
    requires Mentions(msgs, n)
    ensures FirstMax(msgs, n, i)
    ensures n in Latest(msgs, false) && Latest(msgs, false)[n] == msgs[i]
  {
    var front, last := msgs[..|msgs| - 1], msgs[|msgs| - 1];
    LatestKeys(msgs, n, false);
    LatestKeys(front, n, false);
    if Mentions(front, n) {
      i := KeptIsFirstMax(front, n);
      assert msgs[i] == front[i];
      if last.node == n && last.timestamp > msgs[i].timestamp {
        i := |msgs| - 1;
      }
    } else {
      i := |msgs| - 1;
      assert forall j :: 0 <= j < |front| ==> msgs[j] == front[j];
      var k :| 0 <= k < |msgs| && msgs[k].node == n;
    }
  }

  /** No message about the same node has a greater timestamp. */
  ghost predicate Greatest(msgs: seq<Msg>, m: Msg) {
    m in msgs && forall x :: x in msgs && x.node == m.node ==> x.timestamp <= m.timestamp
  }

  /** About each node all messages with the greatest timestamp are equal. */
  ghost predicate GreatestAgree(msgs: seq<Msg>) {
    forall x, y :: Greatest(msgs, x) && Greatest(msgs, y) && x.node == y.node ==> x == y
  }

  /** So with suspicion off receivers of the same messages, in any order and repeated at will, keep the same ones if
      nothing ties at the top. */
  lemma ReceiversAgree(a: seq<Msg>, b: seq<Msg>)
    requires (forall m :: m in a <==> m in b) && GreatestAgree(a)
    ensures Latest(a, false) == Latest(b, false)
  {
    forall n
      ensures n in Latest(a, false) <==> n in Latest(b, false)
      ensures n in Latest(a, false) ==> Latest(a, false)[n] == Latest(b, false)[n]
    {
      LatestKeys(a, n, false);
      LatestKeys(b, n, false);
      if Mentions(a, n) {
        SameMentions(a, b, n);
        SameKept(a, b, n);
      } else if Mentions(b, n) {
        SameMentions(b, a, n);
      }
    }
  }

  /** The same messages in whatever order leave the same ones. */
  ghost predicate AnyOrder(a: seq<Msg>, suspicion: bool) {
    forall b :: multiset(b) == multiset(a) ==> Latest(b, suspicion) == Latest(a, suspicion)
  }

  /** For any buffer, with suspicion off: the order is immaterial exactly when nothing ties at the top. */
  lemma OrderImmaterialIff(a: seq<Msg>)
    ensures AnyOrder(a, false) <==> GreatestAgree(a)
  {
    if GreatestAgree(a) {
      forall b: seq<Msg> | multiset(b) == multiset(a) ensures Latest(b, false) == Latest(a, false) {
        forall m ensures m in a <==> m in b {
          assert m in a <==> m in multiset(a);
          assert m in b <==> m in multiset(b);
        }
        ReceiversAgree(a, b);
      }
    } else {
      var x, y :| Greatest(a, x) && Greatest(a, y) && x.node == y.node && x != y;
      var withX := InFront(a, x);
      var withY := InFront(a, y);
      FirstGreatestIsKept(withX);
      FirstGreatestIsKept(withY);
    }
  }

  lemma InFront(a: seq<Msg>, x: Msg) returns (b: seq<Msg>)
    requires Greatest(a, x)
    ensures multiset(b) == multiset(a) && |b| > 0 && b[0] == x && Greatest(b, x)
  {
    var i :| 0 <= i < |a| && a[i] == x;
    b := [x] + (a[..i] + a[i + 1..]);
    assert a == a[..i] + [x] + a[i + 1..];
    assert multiset(b) == multiset([x]) + multiset(a[..i]) + multiset(a[i + 1..]);
    forall m | m in b ensures m in a {
      assert m in multiset(b);
    }
  }

  lemma FirstGreatestIsKept(b: seq<Msg>)
    requires |b| > 0 && Greatest(b, b[0])
    ensures b[0].node in Latest(b, false) && Latest(b, false)[b[0].node] == b[0]
  {
    var n := b[0].node;
    assert Mentions(b, n);
    var i := KeptIsFirstMax(b, n);
    assert b[i] in b && b[0] in b;
  }

  lemma SameMentions(a: seq<Msg>, b: seq<Msg>, n: int)
    requires forall m :: m in a <==> m in b
    requires Mentions(a, n)
    ensures Mentions(b, n)
  {
    var i :| 0 <= i < |a| && a[i].node == n;
    assert a[i] in b;
  }

  lemma SameKept(a: seq<Msg>, b: seq<Msg>, n: int)
    requires forall m :: m in a <==> m in b
    requires GreatestAgree(a) && Mentions(a, n) && Mentions(b, n)
    ensures n in Latest(a, false) && n in Latest(b, false) && Latest(a, false)[n] == Latest(b, false)[n]
  {
    var i := KeptIsFirstMax(a, n);
    var j := KeptIsFirstMax(b, n);
    forall m | m in a && m.node == n ensures m.timestamp <= a[i].timestamp && m.timestamp <= b[j].timestamp {
      MaxIsGreatest(a, n, i, m);
      MaxIsGreatest(b, n, j, m);
    }
    assert b[j] in a && a[i] in a;
    assert Greatest(a, a[i]) && Greatest(a, b[j]);
  }

  lemma MaxIsGreatest(msgs: seq<Msg>, n: int, i: int, m: Msg)
    requires FirstMax(msgs, n, i) && m in msgs && m.node == n
    ensures m.timestamp <= msgs[i].timestamp
  {
    var j :| 0 <= j < |msgs| && msgs[j] == m;
  }

  /** For two messages about one node the order is immaterial exactly when they are equal, or their
      timestamps differ and suspicion is off or they are a failure against a join. */
  lemma PairOrderMattersExactly(x: Msg, y: Msg, suspicion: bool)
    requires x.node == y.node
    ensures Latest([x, y], suspicion) == Latest([y, x], suspicion) <==>
            x == y || (x.timestamp != y.timestamp && (!suspicion || Conflicting(x, y)))
  {
    LatestPair(x, y, suspicion);
    LatestPair(y, x, suspicion);
    var a, b := Latest([x, y], suspicion), Latest([y, x], suspicion);
    assert a == b <==> a[x.node] == b[x.node];
  }

  lemma LatestPair(x: Msg, y: Msg, suspicion: bool)
    requires x.node == y.node
    ensures Latest([x, y], suspicion) == map[x.node := Prefer(x, y, suspicion)]
  {
    assert [x, y][..1] == [x] && [x][..0] == [];
    assert Latest([x], suspicion) == map[x.node := x];
  }

  /** In suspicion mode a first message other than a failure or a join is never displaced. */
  lemma {:induction false} SuspicionKeepsFirst(msgs: seq<Msg>, i: nat)
    requires i < |msgs| && !msgs[i].kind.Fail? && !msgs[i].kind.Join?
    requires forall j :: 0 <= j < i ==> msgs[j].node != msgs[i].node
    ensures msgs[i].node in Latest(msgs, true) && Latest(msgs, true)[msgs[i].node] == msgs[i]
  {
    var front := msgs[..|msgs| - 1];
    if i < |front| {
      SuspicionKeepsFirst(front, i);
    } else {
      LatestKeys(front, msgs[i].node, true);
    }
  }

  // ----- suspicion mode: any buffer -----

  /** Every message about the same node that differs from z is its opposite and older: a failure against a join. */
  ghost predicate Overrules(msgs: seq<Msg>, z: Msg) {
    z in msgs && forall x :: x in msgs && x.node == z.node && x != z ==> Conflicting(z, x) && x.timestamp < z.timestamp
  }

  ghost predicate HasWinner(msgs: seq<Msg>, n: int) {
    exists z :: Overrules(msgs, z) && z.node == n
  }

  lemma {:induction false} KeptWasSent(msgs: seq<Msg>, n: int, suspicion: bool)
    requires n in Latest(msgs, suspicion)
    ensures Latest(msgs, suspicion)[n] in msgs && Latest(msgs, suspicion)[n].node == n
  {
    var front := msgs[..|msgs| - 1];
    if n in Latest(front, suspicion) {
      KeptWasSent(front, n, suspicion);
    }
  }

  // What is kept about n changes only to a failure or a join among the messages that follow.
  lemma {:induction false} KeptOrFollowing(front: seq<Msg>, back: seq<Msg>, n: int)
    requires n in Latest(front, true)
    ensures n in Latest(front + back, true)
    ensures var kept := Latest(front + back, true)[n]; kept == Latest(front, true)[n] || kept in back
  {
    if back == [] {
      assert front + back == front;
    } else {
      KeptOrFollowing(front, back[..|back| - 1], n);
      assert (front + back)[..|front + back| - 1] == front + back[..|back| - 1];
    }
  }

  lemma {:induction false} NotDisplaced(front: seq<Msg>, back: seq<Msg>, x: Msg)
    requires x.node in Latest(front, true) && Latest(front, true)[x.node] == x
    requires forall m :: m in back && m.node == x.node ==> Prefer(x, m, true) == x
    ensures x.node in Latest(front + back, true) && Latest(front + back, true)[x.node] == x
  {
    if back == [] {
      assert front + back == front;
    } else {
      NotDisplaced(front, back[..|back| - 1], x);
      assert (front + back)[..|front + back| - 1] == front + back[..|back| - 1];
    }
  }

  lemma {:induction false} WinnerIsKept(msgs: seq<Msg>, z: Msg)
    requires forall x :: x in msgs && x.node == z.node && x != z ==> Conflicting(z, x) && x.timestamp < z.timestamp
    ensures z in msgs ==> z.node in Latest(msgs, true) && Latest(msgs, true)[z.node] == z
  {
    if msgs != [] {
      var front := msgs[..|msgs| - 1];
      WinnerIsKept(front, z);
      if z !in front && z.node in Latest(front, true) {
        KeptWasSent(front, z.node, true);
      }
    }
  }

  lemma {:induction false} SplitByKind(msgs: seq<Msg>, kind: Kind) returns (those: seq<Msg>, others: seq<Msg>)
    ensures multiset(those) + multiset(others) == multiset(msgs)
    ensures forall m :: m in those ==> m in msgs && m.kind == kind
    ensures forall m :: m in others ==> m in msgs && m.kind != kind
  {
    those, others := [], [];
    if msgs != [] {
      var last := msgs[|msgs| - 1];
      those, others := SplitByKind(msgs[..|msgs| - 1], kind);
      assert msgs == msgs[..|msgs| - 1] + [last];
      if last.kind == kind {
        those := those + [last];
      } else {
        others := others + [last];
      }
    }
  }

  // x first, then all messages of z's kind, then the rest: z is not what is kept.
  lemma OtherOutcome(a: seq<Msg>, x: Msg, z: Msg) returns (b: seq<Msg>)
    requires x in a && x.node == z.node && x != z
    requires forall m :: m in a && m.node == x.node && m.kind == z.kind ==> Prefer(x, m, true) == x
    ensures multiset(b) == multiset(a)
    ensures x.node in Latest(b, true) && Latest(b, true)[x.node] != z
  {
    var i :| 0 <= i < |a| && a[i] == x;
    var rest := a[..i] + a[i + 1..];
    var those, others := SplitByKind(rest, z.kind);
    assert a == a[..i] + [x] + a[i + 1..];
    assert multiset(a) == multiset([x]) + multiset(rest);
    assert [x][..0] == [] && Latest([x], true) == map[x.node := x];
    NotDisplaced([x], those, x);
    KeptOrFollowing([x] + those, others, x.node);
    b := [x] + those + others;
    assert multiset(b) == multiset([x]) + multiset(those) + multiset(others);
  }

  lemma WinnersAgree(a: seq<Msg>, b: seq<Msg>)
    requires forall m :: m in a <==> m in b
    requires forall n :: Mentions(a, n) ==> HasWinner(a, n)
    ensures Latest(a, true) == Latest(b, true)
  {
    forall n
      ensures n in Latest(a, true) <==> n in Latest(b, true)
      ensures n in Latest(a, true) ==> Latest(a, true)[n] == Latest(b, true)[n]
    {
      LatestKeys(a, n, true);
      LatestKeys(b, n, true);
      if Mentions(a, n) {
        var z :| Overrules(a, z) && z.node == n;
        WinnerIsKept(a, z);
        WinnerIsKept(b, z);
      } else if Mentions(b, n) {
        SameMentions(b, a, n);
      }
    }
  }

  lemma AnyOrderHasWinner(a: seq<Msg>, n: int)
    requires AnyOrder(a, true) && Mentions(a, n)
    ensures HasWinner(a, n)
  {
    LatestKeys(a, n, true);
    KeptWasSent(a, n, true);
    var z := Latest(a, true)[n];
    forall x | x in a && x.node == n && x != z ensures x.kind != z.kind {
      if x.kind == z.kind {
        var b := OtherOutcome(a, x, z);
      }
    }
    forall x | x in a && x.node == n && x != z ensures Conflicting(z, x) && x.timestamp < z.timestamp {
      if !(Conflicting(z, x) && x.timestamp < z.timestamp) {
        var b := OtherOutcome(a, x, z);
      }
    }
    assert Overrules(a, z);
  }

  /** For any buffer, with suspicion on: the order is immaterial exactly when about each node there is one message that
      overrules all that differ from it. */
  lemma SuspicionOrderImmaterialIff(a: seq<Msg>)
    ensures AnyOrder(a, true) <==> forall n :: Mentions(a, n) ==> HasWinner(a, n)
  {
    if AnyOrder(a, true) {
      forall n | Mentions(a, n) ensures HasWinner(a, n) {
        AnyOrderHasWinner(a, n);
      }
    } else if forall n :: Mentions(a, n) ==> HasWinner(a, n) {
      var b :| multiset(b) == multiset(a) && Latest(b, true) != Latest(a, true);
      forall m ensures m in a <==> m in b {
        assert m in a <==> m in multiset(a);
        assert m in b <==> m in multiset(b);
      }
      WinnersAgree(a, b);
    }
  }
}
