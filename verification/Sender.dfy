/** The sending side of a stage-1 task: first sends, then retries until everything is acknowledged or given up. */
module Sender {
  import opened Sequences
  import opened WorkSplit

  const MAX_RETRY_COUNT := 8

  function Ids(ts: seq<Tuple>): set<Id> {
    set t | t in ts :: t.id
  }

  lemma IdsSnoc(ts: seq<Tuple>, t: Tuple)
    ensures Ids(ts + [t]) == Ids(ts) + {t.id}
  {
    assert forall u :: u in ts + [t] <==> u in ts || u == t;
  }

  // Cutting position i out of a list without repeated ids.
  lemma IdsCut(ts: seq<Tuple>, i: nat)
    requires DistinctIds(ts) && i < |ts|
    ensures var cut := ts[..i] + ts[i + 1..];
            DistinctIds(cut) && Ids(cut) == Ids(ts) - {ts[i].id} && forall t :: t in cut <==> t in ts && t != ts[i]
  {
    var cut := ts[..i] + ts[i + 1..];
    assert forall k :: 0 <= k < |cut| ==> cut[k] == ts[if k < i then k else k + 1];
    forall t | t in ts && t != ts[i] ensures t in cut {
      var k :| 0 <= k < |ts| && ts[k] == t;
      assert cut[if k < i then k else k - 1] == t;
    }
  }

  /** How many more sends the pending tuples may get. */
  function Budget(unacked: seq<Tuple>, retries: map<Id, int>): int {
    if unacked == [] then 0
    else
      var last := unacked[|unacked| - 1];
      Budget(unacked[..|unacked| - 1], retries) + Allowance(last, retries)
  }

  function Allowance(t: Tuple, retries: map<Id, int>): int {
    if t.id in retries then MAX_RETRY_COUNT + 1 - retries[t.id] else 0
  }

  // Each id of the job is pending, acknowledged or dropped, and never two of these.
  datatype Ledger = Ledger(all: set<Id>, acked: set<Id>, dropped: set<Id>, resends: map<Id, int>)

  ghost predicate Balanced(ledger: Ledger, unacked: seq<Tuple>, retries: map<Id, int>, ackMap: map<Id, bool>) {
    && DistinctIds(unacked)
    && retries.Keys == Ids(unacked)
    && ledger.all == Ids(unacked) + ledger.acked + ledger.dropped
    && Ids(unacked) !! ledger.acked !! ledger.dropped
    && ledger.all <= ackMap.Keys && ledger.all == ledger.resends.Keys
    && (forall id :: id in retries ==>
                       0 <= retries[id] <= MAX_RETRY_COUNT && ledger.resends[id] == retries[id] && !ackMap[id])
    && (forall id :: id in ledger.dropped ==> ledger.resends[id] == MAX_RETRY_COUNT + 1 && !ackMap[id])
    && (forall id :: id in ledger.acked ==> 1 <= ledger.resends[id] <= MAX_RETRY_COUNT + 1 && ackMap[id])
  }

  // ----- one resend, by outcome -----

  function Resent(ledger: Ledger, id: Id): Ledger
    requires id in ledger.resends
  {
    ledger.(resends := ledger.resends[id := ledger.resends[id] + 1])
  }

  lemma AckBalances(ledger: Ledger, unacked: seq<Tuple>, retries: map<Id, int>, ackMap: map<Id, bool>, i: nat)
    requires Balanced(ledger, unacked, retries, ackMap) && i < |unacked|
    ensures var id := unacked[i].id;
            && id in ledger.resends
            && Balanced(Resent(ledger, id).(acked := ledger.acked + {id}),
                        unacked[..i] + unacked[i + 1..], retries - {id}, ackMap[id := true])
  {
    assert unacked[i].id in Ids(unacked);
    IdsCut(unacked, i);
  }

  lemma DropBalances(ledger: Ledger, unacked: seq<Tuple>, retries: map<Id, int>, ackMap: map<Id, bool>, i: nat)
    requires Balanced(ledger, unacked, retries, ackMap) && i < |unacked|
    requires unacked[i].id in retries && retries[unacked[i].id] == MAX_RETRY_COUNT
    ensures var id := unacked[i].id;
            && id in ledger.resends
            && Balanced(Resent(ledger, id).(dropped := ledger.dropped + {id}),
                        unacked[..i] + unacked[i + 1..], retries - {id}, ackMap[id := false])
  {
    assert unacked[i].id in Ids(unacked);
    IdsCut(unacked, i);
  }

  lemma WaitBalances(ledger: Ledger, unacked: seq<Tuple>, retries: map<Id, int>, ackMap: map<Id, bool>, i: nat)
    requires Balanced(ledger, unacked, retries, ackMap) && i < |unacked|
    requires unacked[i].id in retries && retries[unacked[i].id] < MAX_RETRY_COUNT
    ensures var id := unacked[i].id;
            && id in ledger.resends
            && Balanced(Resent(ledger, id), unacked, retries[id := retries[id] + 1], ackMap[id := false])
  {
    assert unacked[i].id in Ids(unacked);
    assert retries[unacked[i].id := retries[unacked[i].id] + 1].Keys == retries.Keys;
  }

  lemma InLedger(ledger: Ledger, unacked: seq<Tuple>, retries: map<Id, int>, ackMap: map<Id, bool>, i: nat)
    requires Balanced(ledger, unacked, retries, ackMap) && i < |unacked|
    ensures var id := unacked[i].id;
            && id in retries && id in ledger.resends && id in ledger.all && id in ackMap
            && 0 <= retries[id] <= MAX_RETRY_COUNT
    ensures DistinctIds(unacked) && retries.Keys == Ids(unacked)
    ensures forall id :: id in retries ==> retries[id] <= MAX_RETRY_COUNT
  {
    assert unacked[i].id in Ids(unacked);
  }

  /** What a balanced ledger says: nothing is resent more than nine times, all that is pending may still be sent, and
      with nothing pending everything is acknowledged or dropped. */
  lemma AccountsFor(ledger: Ledger, unacked: seq<Tuple>, retries: map<Id, int>, ackMap: map<Id, bool>)
    requires Balanced(ledger, unacked, retries, ackMap)
    ensures forall id :: id in ledger.all ==> id in ledger.resends && 0 <= ledger.resends[id] <= MAX_RETRY_COUNT + 1
    ensures Budget(unacked, retries) >= |unacked|
    ensures unacked == [] ==> ledger.all == ledger.acked + ledger.dropped
  {
    PendingAllowed(unacked, retries);
    BudgetPositive(unacked, retries);
    if unacked == [] {
      assert Ids(unacked) == {};
    }
  }

  // The same job, with nothing acknowledged or dropped taken back.
  ghost predicate Follows(before: Ledger, after: Ledger) {
    after.all == before.all && before.acked <= after.acked && before.dropped <= after.dropped
  }

  ghost predicate SameElsewhere(before: map<Id, bool>, after: map<Id, bool>, touched: set<Id>) {
    && before.Keys <= after.Keys
    && (forall id :: id in after && id !in touched ==> id in before && after[id] == before[id])
  }

  /** Since before, exactly the ids of who have been resent, once. */
  ghost predicate SentOnce(before: Ledger, after: Ledger, who: set<Id>) {
    && before.resends.Keys == after.resends.Keys
    && (forall id :: id in after.resends ==> after.resends[id] == before.resends[id] + if id in who then 1 else 0)
  }

  lemma GoesOn(a: Ledger, b: Ledger, c: Ledger, x: map<Id, bool>, y: map<Id, bool>, z: map<Id, bool>)
    requires Follows(a, b) && Follows(b, c) && SameElsewhere(x, y, b.all) && SameElsewhere(y, z, c.all)
    ensures Follows(a, c) && SameElsewhere(x, z, c.all)
  {
  }

  lemma DistinctTail(ts: seq<Tuple>, i: nat)
    requires DistinctIds(ts) && i <= |ts|
    ensures DistinctIds(ts[i..])
  {
  }

  // Part of a round has been done, and the tuples of tail still wait for their turn.
  ghost predicate RoundSoFar(before: Ledger, now: Ledger, pending: set<Id>, tail: seq<Tuple>,
                             acks: map<Id, bool>, acksNow: map<Id, bool>) {
    && Follows(before, now)
    && SameElsewhere(acks, acksNow, before.all)
    && Ids(tail) <= pending
    && SentOnce(before, now, pending - Ids(tail))
  }

  lemma RoundStarts(before: Ledger, unacked: seq<Tuple>, acks: map<Id, bool>)
    ensures RoundSoFar(before, before, Ids(unacked), unacked[0..], acks, acks)
  {
    assert unacked[0..] == unacked;
  }

  lemma RoundGoesOn(before: Ledger, was: Ledger, now: Ledger, pending: set<Id>, tail: seq<Tuple>,
                    acks: map<Id, bool>, acksWas: map<Id, bool>, acksNow: map<Id, bool>)
    requires tail != [] && DistinctIds(tail)
    requires RoundSoFar(before, was, pending, tail, acks, acksWas)
    requires Follows(was, now) && SameElsewhere(acksWas, acksNow, now.all)
    requires tail[0].id in was.resends && now.resends == Resent(was, tail[0].id).resends
    ensures RoundSoFar(before, now, pending, tail[1..], acks, acksNow)
  {
    IdsTail(tail, 0);
    assert tail[0..] == tail;
    assert pending - Ids(tail[1..]) == pending - Ids(tail) + {tail[0].id};
  }

  lemma RoundEnds(before: Ledger, now: Ledger, pending: set<Id>, acks: map<Id, bool>, acksNow: map<Id, bool>)
    requires RoundSoFar(before, now, pending, [], acks, acksNow)
    ensures Follows(before, now) && SameElsewhere(acks, acksNow, now.all) && SentOnce(before, now, pending)
  {
    assert pending - Ids([]) == pending;
  }

  // ----- the log of sends -----

  /** A send, and whether its acknowledgement came. */
  datatype Send = Send(tuple: Tuple, acked: bool)

  function Tuples(log: seq<Send>): (ts: seq<Tuple>)
    ensures |ts| == |log|
  {
    seq(|log|, k requires 0 <= k < |log| => log[k].tuple)
  }

  // The tuples of pending up to tail have been sent since log.
  ghost predicate Passed(log: seq<Tuple>, now: seq<Tuple>, tail: seq<Tuple>, pending: seq<Tuple>) {
    now + tail == log + pending
  }

  lemma PassStarts(log: seq<Tuple>, pending: seq<Tuple>)
    ensures Passed(log, log, pending[0..], pending)
  {
    assert pending[0..] == pending;
  }

  lemma PassGoesOn(log: seq<Tuple>, now: seq<Tuple>, tail: seq<Tuple>, pending: seq<Tuple>)
    requires Passed(log, now, tail, pending) && tail != []
    ensures Passed(log, now + [tail[0]], tail[1..], pending)
  {
    assert tail == [tail[0]] + tail[1..];
  }

  lemma PassEnds(log: seq<Tuple>, now: seq<Tuple>, pending: seq<Tuple>)
    requires Passed(log, now, [], pending)
    ensures now == log + pending
  {
  }

  lemma TuplesSnoc(log: seq<Send>, x: Send)
    ensures Tuples(log + [x]) == Tuples(log) + [x.tuple]
  {
  }

  function Times(log: seq<Send>, id: Id): nat {
    if log == [] then 0
    else Times(log[..|log| - 1], id) + if log[|log| - 1].tuple.id == id then 1 else 0
  }

  ghost predicate Answered(log: seq<Send>, id: Id) {
    exists k :: 0 <= k < |log| && log[k].tuple.id == id && log[k].acked
  }

  lemma LogSnoc(log: seq<Send>, x: Send, id: Id)
    ensures Times(log + [x], id) == Times(log, id) + if x.tuple.id == id then 1 else 0
    ensures Answered(log + [x], id) <==> Answered(log, id) || (x.tuple.id == id && x.acked)
  {
    var more := log + [x];
    assert more[..|log|] == log && more[|log|] == x;
    assert forall k :: 0 <= k < |log| ==> more[k] == log[k];
  }

  /** The ledger tells what the log of resends says: how often each of its ids was sent, and which were answered. */
  ghost predicate Logged(ledger: Ledger, log: seq<Send>) {
    && (forall k :: 0 <= k < |log| ==> log[k].tuple.id in ledger.resends)
    && (forall id :: id in ledger.resends ==> ledger.resends[id] == Times(log, id))
    && (forall id :: id in ledger.resends ==> (id in ledger.acked <==> Answered(log, id)))
  }

  lemma LoggedGoesOn(was: Ledger, now: Ledger, log: seq<Send>, x: Send)
    requires Logged(was, log) && x.tuple.id in was.resends
    requires now.resends == Resent(was, x.tuple.id).resends
    requires now.acked == was.acked + if x.acked then {x.tuple.id} else {}
    ensures Logged(now, log + [x])
  {
    hide Times;
    hide Answered;
    forall id {
      LogSnoc(log, x, id);
    }
  }

  /** So what was given up was resent nine times without an answer, and what is acknowledged was answered in one of at
      most nine resends. */
  lemma LedgerIsEarned(ledger: Ledger, unacked: seq<Tuple>, retries: map<Id, int>, ackMap: map<Id, bool>,
                       log: seq<Send>, id: Id)
    requires Balanced(ledger, unacked, retries, ackMap) && Logged(ledger, log)
    ensures id in ledger.dropped ==> Times(log, id) == 9 && !Answered(log, id)
    ensures id in ledger.acked ==> 1 <= Times(log, id) <= 9 && Answered(log, id)
    ensures id in retries ==> Times(log, id) == retries[id] && !Answered(log, id)
  {
    assert id in retries ==> id in Ids(unacked);
  }

  lemma LogStarts(unacked: seq<Tuple>)
    ensures Logged(Opened(unacked), [])
  {
  }

  /** The tuples whose ids are not known to be acknowledged. */
  function Unsettled(ts: seq<Tuple>, known: map<Id, bool>): seq<Tuple> {
    if ts == [] then []
    else
      var last := ts[|ts| - 1];
      Unsettled(ts[..|ts| - 1], known) + if last.id in known && known[last.id] then [] else [last]
  }

  /** The first sends of ts: one for each unsettled tuple, in order, and its answer is what is noted. */
  ghost predicate FirstSends(ts: seq<Tuple>, known: map<Id, bool>, log: seq<Send>, ackMap: map<Id, bool>) {
    && Tuples(log) == Unsettled(ts, known)
    && forall k :: 0 <= k < |log| ==> Noted(log[k], Ids(ts), ackMap)
  }

  lemma UnsettledSnoc(ts: seq<Tuple>, t: Tuple, known: map<Id, bool>)
    ensures Unsettled(ts + [t], known) == Unsettled(ts, known) + if t.id in known && known[t.id] then [] else [t]
  {
    assert (ts + [t])[..|ts|] == ts;
  }

  ghost predicate Noted(x: Send, ids: set<Id>, ackMap: map<Id, bool>) {
    x.tuple.id in ids && x.tuple.id in ackMap && ackMap[x.tuple.id] == x.acked
  }

  lemma NotedGoesOn(x: Send, ids: set<Id>, ackMap: map<Id, bool>, id: Id, ack: bool)
    requires Noted(x, ids, ackMap) && id !in ids
    ensures Noted(x, ids + {id}, ackMap[id := ack])
  {
  }

  lemma FirstSendsGoOn(ts: seq<Tuple>, t: Tuple, known: map<Id, bool>, log: seq<Send>, ackMap: map<Id, bool>, ack: bool)
    requires FirstSends(ts, known, log, ackMap) && t.id !in Ids(ts)
    ensures FirstSends(ts + [t], known, if t.id in known && known[t.id] then log else log + [Send(t, ack)],
                       ackMap[t.id := ack])
  {
    IdsSnoc(ts, t);
    UnsettledSnoc(ts, t, known);
    TuplesSnoc(log, Send(t, ack));
    hide Ids;
    hide Unsettled;
    hide Tuples;
    forall k | 0 <= k < |log| ensures Noted(log[k], Ids(ts + [t]), ackMap[t.id := ack]) {
      NotedGoesOn(log[k], Ids(ts), ackMap, t.id, ack);
    }
    assert Noted(Send(t, ack), Ids(ts + [t]), ackMap[t.id := ack]);
    hide Noted;
    if !(t.id in known && known[t.id]) {
      var more := log + [Send(t, ack)];
      forall k | 0 <= k < |more| ensures Noted(more[k], Ids(ts + [t]), ackMap[t.id := ack]) {
        assert more[k] == if k < |log| then log[k] else Send(t, ack);
      }
    }
  }

  // ----- the budget -----

  lemma {:induction false} BudgetPositive(unacked: seq<Tuple>, retries: map<Id, int>)
    requires forall t :: t in unacked ==> t.id in retries && retries[t.id] <= MAX_RETRY_COUNT
    ensures Budget(unacked, retries) >= |unacked|
  {
    if unacked != [] {
      assert unacked[|unacked| - 1] in unacked;
      BudgetPositive(unacked[..|unacked| - 1], retries);
    }
  }

  lemma {:induction false} BudgetElsewhere(ts: seq<Tuple>, r: map<Id, int>, s: map<Id, int>)
    requires forall t :: t in ts ==> (t.id in r <==> t.id in s) && (t.id in r ==> r[t.id] == s[t.id])
    ensures Budget(ts, r) == Budget(ts, s)
  {
    if ts != [] {
      assert ts[|ts| - 1] in ts;
      BudgetElsewhere(ts[..|ts| - 1], r, s);
    }
  }

  lemma {:induction false} BudgetConcat(a: seq<Tuple>, b: seq<Tuple>, r: map<Id, int>)
    ensures Budget(a + b, r) == Budget(a, r) + Budget(b, r)
  {
    if b == [] {
      assert a + b == a;
    } else {
      BudgetConcat(a, b[..|b| - 1], r);
      assert (a + b)[..|a + b| - 1] == a + b[..|b| - 1];
    }
  }

  lemma BudgetSplit(unacked: seq<Tuple>, retries: map<Id, int>, i: nat)
    requires i < |unacked|
    ensures Budget(unacked, retries) ==
            Budget(unacked[..i], retries) + Allowance(unacked[i], retries) + Budget(unacked[i + 1..], retries)
  {
    BudgetConcat(unacked[..i + 1], unacked[i + 1..], retries);
    assert unacked[..i + 1] + unacked[i + 1..] == unacked;
    assert unacked[..i + 1][..i] == unacked[..i];
  }

  lemma OtherIds(unacked: seq<Tuple>, i: nat)
    requires DistinctIds(unacked) && i < |unacked|
    ensures forall t :: t in unacked[..i] || t in unacked[i + 1..] ==> t.id != unacked[i].id
  {
  }

  // A tuple that leaves the list takes at least one send off the budget; one that waits takes exactly one.
  lemma BudgetAfterCut(unacked: seq<Tuple>, retries: map<Id, int>, i: nat)
    requires DistinctIds(unacked) && i < |unacked| && retries.Keys == Ids(unacked)
    requires forall id :: id in retries ==> retries[id] <= MAX_RETRY_COUNT
    ensures Budget(unacked[..i] + unacked[i + 1..], retries - {unacked[i].id}) < Budget(unacked, retries)
  {
    hide Budget;
    var rest := retries - {unacked[i].id};
    assert unacked[i].id in Ids(unacked);
    OtherIds(unacked, i);
    BudgetSplit(unacked, retries, i);
    BudgetConcat(unacked[..i], unacked[i + 1..], rest);
    BudgetElsewhere(unacked[..i], retries, rest);
    BudgetElsewhere(unacked[i + 1..], retries, rest);
  }

  lemma BudgetAfterWait(unacked: seq<Tuple>, retries: map<Id, int>, i: nat)
    requires DistinctIds(unacked) && i < |unacked| && retries.Keys == Ids(unacked)
    ensures unacked[i].id in retries
    ensures Budget(unacked, retries[unacked[i].id := retries[unacked[i].id] + 1]) == Budget(unacked, retries) - 1
  {
    assert unacked[i].id in Ids(unacked);
    var more := retries[unacked[i].id := retries[unacked[i].id] + 1];
    OtherIds(unacked, i);
    BudgetSplit(unacked, retries, i);
    BudgetSplit(unacked, more, i);
    BudgetElsewhere(unacked[..i], retries, more);
    BudgetElsewhere(unacked[i + 1..], retries, more);
  }

  // ----- the sender -----

  /** What a task run tells the leader: nothing, or that a task is done. */
  datatype Report = Silent | Done(task: int)

  /** One report for t has gone out, and if it arrived t has been taken off the queue. */
  predicate Reported(before: seq<(int, bool)>, after: seq<(int, bool)>, queue: seq<int>, left: seq<int>, t: int) {
    || (after == before + [(t, true)] && left == Dropped(queue, t))
    || (after == before + [(t, false)] && left == queue)
  }

  ghost predicate AllGiven(queue: seq<int>, given: set<int>) {
    forall u :: u in queue ==> u in given
  }

  class WorkerSender {
    var TaskQueue: seq<int>
    var TupleAckMap: map<Id, bool>
    var UnackedTuples: seq<Tuple>
    var RetryCounts: map<Id, int>
    ghost var ledger: Ledger
    // All sends and all reports to the leader, with what became of them; the resends begin at mark.
    ghost var sent: seq<Send>
    ghost var reports: seq<(int, bool)>
    ghost var mark: nat

    ghost predicate Valid()
      reads `ledger, `UnackedTuples, `RetryCounts, `TupleAckMap
    {
      Balanced(ledger, UnackedTuples, RetryCounts, TupleAckMap)
    }

    ghost predicate Traced()
      reads `ledger, `sent, `mark
    {
      mark <= |sent| && Logged(ledger, sent[mark..])
    }

    constructor ()
      ensures Valid() && Traced() && sent == [] && reports == []
      ensures TupleAckMap == map[] && UnackedTuples == [] && TaskQueue == []
    {
      TaskQueue := [];
      sent, reports, mark := [], [], 0;
      TupleAckMap, UnackedTuples, RetryCounts := map[], [], map[];
      ledger := Ledger({}, {}, {}, map[]);
    }

    /** Sends over the network: whether an acknowledgement comes back in time is not up to the sender. */
    method SendTuple(tuple: Tuple) returns (ackReceived: bool)
      modifies `sent
      ensures sent == old(sent) + [Send(tuple, ackReceived)]
    {
      ackReceived := *;
      sent := sent + [Send(tuple, ackReceived)];
    }

    /** Resends the tuple at position i; it leaves the list when acknowledged or after the last try. */
    method ResendAt(i: nat) returns (removed: bool, ackReceived: bool)
      requires Valid() && i < |UnackedTuples|
      modifies `TupleAckMap, `UnackedTuples, `RetryCounts, `ledger, `sent
      ensures Valid() && Follows(old(ledger), ledger)
      ensures sent == old(sent) + [Send(old(UnackedTuples)[i], ackReceived)]
      ensures ledger.acked == old(ledger.acked) + if ackReceived then {old(UnackedTuples)[i].id} else {}
      ensures old(UnackedTuples)[i].id in old(RetryCounts)
      ensures removed <==> ackReceived || old(RetryCounts[UnackedTuples[i].id]) == MAX_RETRY_COUNT
      ensures UnackedTuples == if removed then old(UnackedTuples)[..i] + old(UnackedTuples)[i + 1..]
                               else old(UnackedTuples)
      ensures Budget(UnackedTuples, RetryCounts) < old(Budget(UnackedTuples, RetryCounts))
      ensures old(UnackedTuples)[i].id in old(ledger.resends)
      ensures ledger.resends == old(Resent(ledger, UnackedTuples[i].id).resends)
      ensures SameElsewhere(old(TupleAckMap), TupleAckMap, ledger.all)
    {
      hide Balanced;
      hide Budget;
      hide Ids;
      hide DistinctIds;
      var tuple := UnackedTuples[i];
      InLedger(ledger, UnackedTuples, RetryCounts, TupleAckMap, i);
      ghost var acks := TupleAckMap;
      ackReceived := SendTuple(tuple);
      if ackReceived {
        removed := true;
        AckBalances(ledger, UnackedTuples, RetryCounts, acks, i);
        TupleAckMap := TupleAckMap[tuple.id := true];
        ledger := Resent(ledger, tuple.id).(acked := ledger.acked + {tuple.id});
        TakeOut(i);
      } else {
        removed := GiveUpOrWait(i);
      }
    }

    // The resend at i went unanswered.
    method GiveUpOrWait(i: nat) returns (removed: bool)
      requires Valid() && i < |UnackedTuples|
      modifies `TupleAckMap, `UnackedTuples, `RetryCounts, `ledger
      ensures Valid() && Follows(old(ledger), ledger) && ledger.acked == old(ledger.acked)
      ensures old(UnackedTuples)[i].id in old(RetryCounts)
      ensures removed <==> old(RetryCounts[UnackedTuples[i].id]) == MAX_RETRY_COUNT
      ensures UnackedTuples == if removed then old(UnackedTuples)[..i] + old(UnackedTuples)[i + 1..]
                               else old(UnackedTuples)
      ensures Budget(UnackedTuples, RetryCounts) < old(Budget(UnackedTuples, RetryCounts))
      ensures old(UnackedTuples)[i].id in old(ledger.resends)
      ensures ledger.resends == old(Resent(ledger, UnackedTuples[i].id).resends)
      ensures SameElsewhere(old(TupleAckMap), TupleAckMap, ledger.all)
    {
      hide Balanced;
      hide Budget;
      hide Ids;
      hide DistinctIds;
      var id := UnackedTuples[i].id;
      InLedger(ledger, UnackedTuples, RetryCounts, TupleAckMap, i);
      ghost var acks := TupleAckMap;
      TupleAckMap := TupleAckMap[id := false];
      if RetryCounts[id] + 1 >= MAX_RETRY_COUNT + 1 {
        removed := true;
        DropBalances(ledger, UnackedTuples, RetryCounts, acks, i);
        ledger := Resent(ledger, id).(dropped := ledger.dropped + {id});
        TakeOut(i);
      } else {
        removed := false;
        WaitBalances(ledger, UnackedTuples, RetryCounts, acks, i);
        BudgetAfterWait(UnackedTuples, RetryCounts, i);
        ledger := Resent(ledger, id);
        RetryCounts := RetryCounts[id := RetryCounts[id] + 1];
      }
    }

    // Removal in place, together with the retry count.
    method TakeOut(i: nat)
      requires i < |UnackedTuples| && DistinctIds(UnackedTuples) && RetryCounts.Keys == Ids(UnackedTuples)
      requires forall id :: id in RetryCounts ==> RetryCounts[id] <= MAX_RETRY_COUNT
      modifies `UnackedTuples, `RetryCounts
      ensures UnackedTuples == old(UnackedTuples)[..i] + old(UnackedTuples)[i + 1..]
      ensures RetryCounts == old(RetryCounts) - {old(UnackedTuples)[i].id}
      ensures Budget(UnackedTuples, RetryCounts) < old(Budget(UnackedTuples, RetryCounts))
    {
      BudgetAfterCut(UnackedTuples, RetryCounts, i);
      var id := UnackedTuples[i].id;
      UnackedTuples := UnackedTuples[..i] + UnackedTuples[i + 1..];
      RetryCounts := RetryCounts - {id};
    }

    // The same, as a step of a round: what is left to resend is the tail of what was.
    method ResendNext(i: nat) returns (removed: bool)
      requires Valid() && Traced() && i < |UnackedTuples|
      modifies `TupleAckMap, `UnackedTuples, `RetryCounts, `ledger, `sent
      ensures Valid() && Traced() && Follows(old(ledger), ledger)
      ensures old(sent) <= sent && Tuples(sent) == Tuples(old(sent)) + [old(UnackedTuples)[i]]
      ensures |UnackedTuples| == old(|UnackedTuples|) - if removed then 1 else 0
      ensures UnackedTuples[if removed then i else i + 1..] == old(UnackedTuples[i..])[1..]
      ensures Budget(UnackedTuples, RetryCounts) < old(Budget(UnackedTuples, RetryCounts))
      ensures old(UnackedTuples)[i].id in old(ledger.resends)
      ensures ledger.resends == old(Resent(ledger, UnackedTuples[i].id).resends)
      ensures SameElsewhere(old(TupleAckMap), TupleAckMap, ledger.all)
    {
      hide Balanced;
      hide Budget;
      hide Logged;
      hide Tuples;
      hide Follows;
      hide SameElsewhere;
      ghost var was, log, tuple := ledger, sent, UnackedTuples[i];
      var ackReceived;
      removed, ackReceived := ResendAt(i);
      ghost var x := Send(tuple, ackReceived);
      LoggedGoesOn(was, ledger, log[mark..], x);
      TuplesSnoc(log, x);
      assert sent[mark..] == log[mark..] + [x];
    }

    /** One pass over the pending tuples, removing in place; each of them is resent exactly once, in order. */
    method ResendRound() returns (allMaxRetriesReached: bool)
      requires Valid() && Traced()
      modifies `TupleAckMap, `UnackedTuples, `RetryCounts, `ledger, `sent
      ensures Valid() && Traced() && Follows(old(ledger), ledger)
      ensures old(sent) <= sent && Tuples(sent) == Tuples(old(sent)) + old(UnackedTuples)
      ensures allMaxRetriesReached <==> UnackedTuples == []
      ensures old(UnackedTuples) != [] ==> Budget(UnackedTuples, RetryCounts) < old(Budget(UnackedTuples, RetryCounts))
      ensures SentOnce(old(ledger), ledger, old(Ids(UnackedTuples)))
      ensures SameElsewhere(old(TupleAckMap), TupleAckMap, ledger.all)
    {
      hide Balanced;
      hide RoundSoFar;
      hide Budget;
      hide Resent;
      hide Follows;
      hide SameElsewhere;
      hide SentOnce;
      allMaxRetriesReached := true;
      hide Logged;
      hide Tuples;
      hide Passed;
      ghost var before, pending, budget, acks := ledger, UnackedTuples, Budget(UnackedTuples, RetryCounts), TupleAckMap;
      ghost var log := sent;
      var i := 0;
      RoundStarts(before, pending, acks);
      PassStarts(Tuples(log), pending);
      while i < |UnackedTuples|
        invariant 0 <= i <= |UnackedTuples| <= |pending|
        invariant Valid() && Traced() && log <= sent
        invariant Passed(Tuples(log), Tuples(sent), UnackedTuples[i..], pending)
        invariant RoundSoFar(before, ledger, Ids(pending), UnackedTuples[i..], acks, TupleAckMap)
        invariant allMaxRetriesReached <==> i == 0
        invariant if |UnackedTuples| - i < |pending| then Budget(UnackedTuples, RetryCounts) < budget
                  else Budget(UnackedTuples, RetryCounts) == budget
        decreases |UnackedTuples| - i
      {
        InLedger(ledger, UnackedTuples, RetryCounts, TupleAckMap, i);
        ghost var tail, was, acksWas, sentWas := UnackedTuples[i..], ledger, TupleAckMap, Tuples(sent);
        DistinctTail(UnackedTuples, i);
        var removed := ResendNext(i);
        PassGoesOn(Tuples(log), sentWas, tail, pending);
        if !removed {
          allMaxRetriesReached := false;
          i := i + 1;
        }
        RoundGoesOn(before, was, ledger, Ids(pending), tail, acks, acksWas, TupleAckMap);
      }
      assert UnackedTuples[i..] == [];
      RoundEnds(before, ledger, Ids(pending), acks, TupleAckMap);
      PassEnds(Tuples(log), Tuples(sent), pending);
    }

    /** What the worker's other tasks and the leader do to the queue meanwhile: only tasks given to the worker are ever
        in it. */
    method OtherTasks(given: set<int>)
      requires AllGiven(TaskQueue, given)
      modifies `TaskQueue
      ensures AllGiven(TaskQueue, given)
    {
      var queue: seq<int> := *;
      if forall u :: u in queue ==> u in given {
        TaskQueue := queue;
      }
    }

    /** Tells the leader; the report may be lost. */
    method SendAckToLeader(t: int) returns (arrived: bool)
      modifies `reports
      ensures reports == old(reports) + [(t, arrived)]
    {
      arrived := *;
      reports := reports + [(t, arrived)];
    }

    /** Tells the leader, and takes the task off the queue if the report arrives. */
    method FinishTask(t: int, given: set<int>)
      requires AllGiven(TaskQueue, given)
      modifies `TaskQueue, `reports
      ensures Reported(old(reports), reports, old(TaskQueue), TaskQueue, t)
      ensures AllGiven(TaskQueue, given)
    {
      var arrived := SendAckToLeader(t);
      if arrived {
        var i := 0;
        while i < |TaskQueue|
          invariant 0 <= i <= |TaskQueue| && TaskQueue == old(TaskQueue)
          invariant forall j :: 0 <= j < i ==> TaskQueue[j] != t
        {
          if TaskQueue[i] == t {
            DroppedAt(TaskQueue, t, i);
            TaskQueue := TaskQueue[..i] + TaskQueue[i + 1..];
            return;
          }
          i := i + 1;
        }
        DroppedAt(TaskQueue, t, i);
      }
    }

    /** Rounds until nothing is pending, or until the task queue is found empty. queue is the task queue as it was found
        in the last round: when it was empty nothing is reported, and otherwise its last task is reported done, once,
        with every tuple of the job acknowledged or given up. */
    method ResendUnackedTuples(given: set<int>) returns (report: Report, ghost queue: seq<int>)
      requires Valid() && Traced() && AllGiven(TaskQueue, given)
      modifies this
      ensures Valid() && Traced() && Follows(old(ledger), ledger) && AllGiven(TaskQueue, given)
      ensures old(sent) <= sent && mark == old(mark) && AllGiven(queue, given)
      ensures report.Silent? <==> queue == []
      ensures report.Silent? ==> TaskQueue == [] && reports == old(reports)
      ensures report.Done? ==> && report.task == queue[|queue| - 1]
                               && Reported(old(reports), reports, queue, TaskQueue, report.task)
      ensures report.Done? ==> UnackedTuples == [] && ledger.all == ledger.acked + ledger.dropped
      ensures forall id :: id in ledger.all ==> id in ledger.resends && 0 <= ledger.resends[id] <= MAX_RETRY_COUNT + 1
      ensures SameElsewhere(old(TupleAckMap), TupleAckMap, ledger.all)
    {
      hide Balanced;
      hide Logged;
      report := Silent;
      queue := TaskQueue;
      while true
        invariant Valid() && Traced() && Follows(old(ledger), ledger)
        invariant old(sent) <= sent && mark == old(mark) && reports == old(reports)
        invariant SameElsewhere(old(TupleAckMap), TupleAckMap, ledger.all)
        invariant AllGiven(TaskQueue, given)
        decreases Budget(UnackedTuples, RetryCounts)
      {
        OtherTasks(given);
        queue := TaskQueue;
        AccountsFor(ledger, UnackedTuples, RetryCounts, TupleAckMap);
        if |TaskQueue| == 0 {
          return;
        }
        var task := TaskQueue[|TaskQueue| - 1];
        if |UnackedTuples| == 0 {
          FinishTask(task, given);
          return Done(task), queue;
        }
        ghost var before, acks := ledger, TupleAckMap;
        var allMaxRetriesReached := ResendRound();
        GoesOn(old(ledger), before, ledger, old(TupleAckMap), acks, TupleAckMap);
        if allMaxRetriesReached {
          AccountsFor(ledger, UnackedTuples, RetryCounts, TupleAckMap);
          FinishTask(task, given);
          return Done(task), queue;
        }
      }
    }

    /** A fresh send of an emitted tuple, by what is already known about its id. */
    method FirstSend(tuple: Tuple)
      requires DistinctIds(UnackedTuples) && RetryCounts.Keys == Ids(UnackedTuples)
      requires Ids(UnackedTuples) <= TupleAckMap.Keys
      modifies `TupleAckMap, `UnackedTuples, `RetryCounts, `sent
      ensures tuple.id in TupleAckMap
      ensures sent == old(sent) + if tuple.id in old(TupleAckMap) && old(TupleAckMap)[tuple.id] then []
                                  else [Send(tuple, TupleAckMap[tuple.id])]
      ensures var id := tuple.id;
              && id in TupleAckMap
              && TupleAckMap == old(TupleAckMap)[id := TupleAckMap[id]]
              && (id in old(TupleAckMap) && old(TupleAckMap)[id] ==> TupleAckMap[id])
              && (if id !in old(TupleAckMap) && !TupleAckMap[id]
                  then UnackedTuples == old(UnackedTuples) + [tuple] && RetryCounts == old(RetryCounts)[id := 0]
                  else UnackedTuples == old(UnackedTuples) && RetryCounts == old(RetryCounts))
    {
      if tuple.id in TupleAckMap && !TupleAckMap[tuple.id] {
        var ackReceived := SendTuple(tuple);
        TupleAckMap := TupleAckMap[tuple.id := ackReceived];
      } else if tuple.id !in TupleAckMap {
        var ackReceived := SendTuple(tuple);
        TupleAckMap := TupleAckMap[tuple.id := ackReceived];
        if !ackReceived {
          UnackedTuples := UnackedTuples + [tuple];
          RetryCounts := RetryCounts[tuple.id := 0];
        }
      }
    }

    /** The stage-1 task t: queue it, fetch the input file, scan the partition, run op1 on each line, send what it
        yields, then see to the rest. Without the input file nothing is sent or reported and the task stays queued.
        What a finished task leaves unacknowledged is exactly what was given up after nine resends, and what a
        previous run of the task on this worker had left unacknowledged and the single new send did not settle.
        The task reported done is t exactly when everything was acknowledged at once or t was last in the queue, which a
        worker given no other task guarantees. */
    method PerformTask<L>(t: int, given: set<int>, fetched: bool, lines: seq<L>, p: Partition, op1: L -> Outcome,
                          idOf: int -> Id)
      returns (report: Report, ghost atOnce: bool, ghost queue: seq<int>)
      requires Injective(idOf) && t in given && AllGiven(TaskQueue, given)
      modifies this
      ensures Valid() && Traced() && AllGiven(TaskQueue, given)
      ensures !fetched ==> && report.Silent? && UnackedTuples == [] && TupleAckMap == old(TupleAckMap)
                           && TaskQueue == old(TaskQueue) + [t] && sent == old(sent) && reports == old(reports)
      ensures fetched && report.Silent? ==> !atOnce && queue == [] && TaskQueue == [] && reports == old(reports)
      ensures report.Done? ==> && (atOnce || queue != [])
                               && report.task == (if atOnce then t else queue[|queue| - 1])
                               && Reported(old(reports), reports, queue, TaskQueue, report.task)
      ensures report.Done? ==> (report.task == t <==> atOnce || (queue != [] && queue[|queue| - 1] == t))
      ensures given == {t} && report.Done? ==> report.task == t
      ensures fetched ==> (atOnce <==> AllAnswered(TupleAckMap, ledger))
      ensures fetched ==>
                var ts := Emitted(Scanned(lines, p), op1, idOf);
                && Ids(ts) <= TupleAckMap.Keys
                && ledger.all <= Ids(ts)
                && ledger.all !! old(TupleAckMap).Keys
                && (report.Done? ==> Solved(ts, old(TupleAckMap), ledger, TupleAckMap))
      ensures fetched ==>
                && old(sent) <= sent && |old(sent)| <= mark
                && Tuples(sent[|old(sent)|..mark]) == Unsettled(Emitted(Scanned(lines, p), op1, idOf), old(TupleAckMap))
                && forall k :: |old(sent)| <= k < mark && sent[k].tuple.id !in old(TupleAckMap) ==>
                                 (sent[k].tuple.id in ledger.all <==> !sent[k].acked)
    {
      hide *;
      UnackedTuples, RetryCounts := [], map[];
      TaskQueue := TaskQueue + [t];
      assert AllGiven(TaskQueue, given) by {
        QueuedIsGiven(old(TaskQueue), t, given);
      }
      if !fetched {
        report, atOnce, queue := Silent, false, TaskQueue;
        NothingSent(TupleAckMap);
        OpenLedger([], TupleAckMap);
        return;
      }
      OtherTasks(given);
      ghost var known := TupleAckMap;
      ghost var ts := Emitted(Scanned(lines, p), op1, idOf);
      ScanAndSend(lines, p, op1, idOf);
      OpenLedger(ts, known);
      ghost var firsts := sent[|old(sent)|..];
      FirstAnswers(ts, known, firsts, UnackedTuples, RetryCounts, TupleAckMap);
      report, atOnce, queue := Conclude(t, given, ts, known);
      if queue != [] {
        LastIsGiven(queue, given);
      }
      assert sent[|old(sent)|..mark] == firsts;
    }

    // Everything emitted has been sent once; what was not answered is to be resent.
    ghost method OpenLedger(ts: seq<Tuple>, known: map<Id, bool>)
      requires SentSoFar(ts, known, UnackedTuples, RetryCounts, TupleAckMap)
      modifies `ledger, `mark
      ensures Valid() && Traced() && Unsolved(ts, known, ledger, TupleAckMap)
      ensures ledger == Opened(UnackedTuples) && ledger.acked == {} && mark == |sent|
    {
      ledger := Opened(UnackedTuples);
      mark := |sent|;
      LogStarts(UnackedTuples);
      assert sent[mark..] == [];
      LedgerOpens(ts, known, UnackedTuples, RetryCounts, TupleAckMap);
    }

    /** The task is done at once if everything is acknowledged; otherwise the retry loop sees to the rest. */
    method Conclude(t: int, given: set<int>, ghost ts: seq<Tuple>, ghost known: map<Id, bool>)
      returns (report: Report, ghost atOnce: bool, ghost queue: seq<int>)
      requires Valid() && Traced() && t in given && AllGiven(TaskQueue, given)
      requires Unsolved(ts, known, ledger, TupleAckMap) && ledger.acked == {}
      modifies this
      ensures Valid() && Traced() && AllGiven(TaskQueue, given) && AllGiven(queue, given)
      ensures old(sent) <= sent && mark == old(mark) && ledger.all == old(ledger.all)
      ensures report.Silent? ==> !atOnce && queue == [] && TaskQueue == [] && reports == old(reports)
      ensures report.Done? ==> && (atOnce || queue != [])
                               && report.task == (if atOnce then t else queue[|queue| - 1])
                               && Reported(old(reports), reports, queue, TaskQueue, report.task)
      ensures atOnce <==> AllAnswered(TupleAckMap, ledger)
      ensures Ids(ts) <= TupleAckMap.Keys
      ensures report.Done? ==> Solved(ts, known, ledger, TupleAckMap)
    {
      hide Balanced;
      hide Logged;
      hide Reported;
      hide AllGiven;
      report, atOnce, queue := Silent, false, TaskQueue;
      ghost var acks, all := TupleAckMap, ledger.all;
      var allAcknowledged := forall id :: id in TupleAckMap ==> TupleAckMap[id];
      if |TupleAckMap| == 0 {
        allAcknowledged := false;
      }
      if allAcknowledged {
        AllAnsweredNow(ts, known, ledger, UnackedTuples, RetryCounts, TupleAckMap);
        atOnce := true;
        FinishTask(t, given);
        report := Done(t);
      } else {
        report, queue := ResendUnackedTuples(given);
        hide SameElsewhere;
        NotAllAnswered(ts, known, ledger, acks, TupleAckMap);
        if report.Done? {
          WhatIsLeft(ts, known, acks, ledger, UnackedTuples, RetryCounts, TupleAckMap);
        }
      }
    }

    /** The scan loop of the task, each emitted tuple being sent as it is produced. */
    method ScanAndSend<L>(lines: seq<L>, p: Partition, op1: L -> Outcome, idOf: int -> Id)
      requires Injective(idOf) && UnackedTuples == [] && RetryCounts == map[]
      modifies `TupleAckMap, `UnackedTuples, `RetryCounts, `sent
      ensures SentSoFar(Emitted(Scanned(lines, p), op1, idOf), old(TupleAckMap), UnackedTuples, RetryCounts,
                        TupleAckMap)
      ensures old(sent) <= sent
      ensures FirstSends(Emitted(Scanned(lines, p), op1, idOf), old(TupleAckMap), sent[|old(sent)|..], TupleAckMap)
    {
      hide SentSoFar;
      hide FirstSends;
      hide Emitted;
      hide Upto;
      hide Scanned;
      hide Injective;
      ghost var known, start := TupleAckMap, |sent|;
      ghost var ts: seq<Tuple> := [];
      NothingSent(known);
      assert sent[start..] == [];
      NothingEmitted(lines, Clip(p.first, |lines|), 0, op1, idOf);
      var sequenceNumber := -1;
      var lineNumber := -1;
      ghost var a := Clip(p.first, |lines|);
      while lineNumber + 1 < |lines|
        invariant -1 <= lineNumber < |lines|
        invariant ts == Emitted(Upto(lines, a, lineNumber + 1), op1, idOf)
        invariant lineNumber >= 0 && a <= lineNumber ==> lineNumber <= p.last
        invariant sequenceNumber == |ts| - 1
        invariant SentSoFar(ts, known, UnackedTuples, RetryCounts, TupleAckMap)
        invariant old(sent) <= sent && FirstSends(ts, known, sent[start..], TupleAckMap)
      {
        lineNumber := lineNumber + 1;
        if lineNumber < p.first {
          NothingEmitted(lines, a, lineNumber, op1, idOf);
          NothingEmitted(lines, a, lineNumber + 1, op1, idOf);
          continue;
        }
        if lineNumber > p.last {
          UptoScanned(lines, p, lineNumber);
          return;
        }
        var output := op1(lines[lineNumber]);
        ghost var soFar := Upto(lines, a, lineNumber + 1);
        EmittedStep(lines, a, lineNumber, op1, idOf);
        if output.Failed? || output.Rejected? {
          assert ts + [] == ts;
          continue;
        }
        var tuple := Tuple(idOf(sequenceNumber), output.key, output.value);
        SendNext(ts, tuple, known, start, soFar, op1, idOf);
        ts := ts + [tuple];
        sequenceNumber := sequenceNumber + 1;
      }
      UptoScanned(lines, p, |lines|);
    }

    method SendNext<L>(ghost ts: seq<Tuple>, tuple: Tuple, ghost known: map<Id, bool>, ghost start: nat,
                       ghost soFar: seq<L>, ghost op1: L -> Outcome, ghost idOf: int -> Id)
      requires Injective(idOf) && ts + [tuple] == Emitted(soFar, op1, idOf)
      requires SentSoFar(ts, known, UnackedTuples, RetryCounts, TupleAckMap)
      requires start <= |sent| && FirstSends(ts, known, sent[start..], TupleAckMap)
      modifies `TupleAckMap, `UnackedTuples, `RetryCounts, `sent
      ensures SentSoFar(ts + [tuple], known, UnackedTuples, RetryCounts, TupleAckMap)
      ensures old(sent) <= sent && FirstSends(ts + [tuple], known, sent[start..], TupleAckMap)
    {
      hide FirstSends;
      ghost var acks, unacked, retries, log := TupleAckMap, UnackedTuples, RetryCounts, sent;
      EmittedIdsDistinct(soFar, op1, idOf);
      NewId(ts, tuple);
      KnownAsBefore(ts, known, unacked, retries, acks, tuple.id);
      FirstSend(tuple);
      SendOneMore(ts, tuple, known, unacked, retries, acks, TupleAckMap[tuple.id]);
      FirstSendsGoOn(ts, tuple, known, log[start..], acks, TupleAckMap[tuple.id]);
      ghost var ack := TupleAckMap[tuple.id];
      assert TupleAckMap == acks[tuple.id := ack];
      assert sent[start..] == if tuple.id in known && known[tuple.id] then log[start..]
                              else log[start..] + [Send(tuple, ack)];
    }
  }

  function Upto<L>(lines: seq<L>, a: nat, b: int): seq<L>
    requires b <= |lines|
  {
    if a <= b then lines[a..b] else []
  }

  lemma NothingEmitted<L>(lines: seq<L>, a: nat, b: nat, op1: L -> Outcome, idOf: int -> Id)
    requires b <= a && b <= |lines|
    ensures Emitted(Upto(lines, a, b), op1, idOf) == []
  {
  }

  lemma EmittedStep<L>(lines: seq<L>, a: nat, b: nat, op1: L -> Outcome, idOf: int -> Id)
    requires a <= b < |lines|
    ensures var before := Emitted(Upto(lines, a, b), op1, idOf);
            var out := op1(lines[b]);
            Emitted(Upto(lines, a, b + 1), op1, idOf) ==
            before + if out.Pair? then [Tuple(idOf(|before| - 1), out.key, out.value)] else []
  {
    assert lines[a..b + 1][..b - a] == lines[a..b];
  }

  lemma UptoScanned<L>(lines: seq<L>, p: Partition, b: nat)
    requires b <= |lines| && (b > 0 && Clip(p.first, |lines|) < b ==> b - 1 <= p.last)
    requires b == |lines| || p.last + 1 <= b
    ensures Upto(lines, Clip(p.first, |lines|), b) == Scanned(lines, p)
  {
  }

  lemma NewId(ts: seq<Tuple>, t: Tuple)
    requires DistinctIds(ts + [t])
    ensures t.id !in Ids(ts)
  {
    forall u | u in ts ensures u.id != t.id {
      var k :| 0 <= k < |ts| && ts[k] == u;
      assert (ts + [t])[k] == u && (ts + [t])[|ts|] == t;
    }
  }

  lemma PendingAllowed(unacked: seq<Tuple>, retries: map<Id, int>)
    requires retries.Keys == Ids(unacked)
    requires forall id :: id in retries ==> retries[id] <= MAX_RETRY_COUNT
    ensures forall t :: t in unacked ==> t.id in retries && retries[t.id] <= MAX_RETRY_COUNT
  {
    forall t | t in unacked ensures t.id in retries {
      assert t.id in Ids(unacked);
    }
  }

  // Which ids are known after first sends of the new ones, and which of them wait: the new ones without an answer.
  ghost predicate Answers(ids: set<Id>, known: map<Id, bool>, waiting: set<Id>, ackMap: map<Id, bool>) {
    && ackMap.Keys == known.Keys + ids
    && (forall id :: id in known && known[id] ==> ackMap[id])
    && (forall id :: id in known && id !in ids ==> ackMap[id] == known[id])
    && (forall id :: id in waiting <==> id in ids && id !in known && !ackMap[id])
  }

  // After the first sends of ts.
  ghost predicate SentSoFar(ts: seq<Tuple>, known: map<Id, bool>, unacked: seq<Tuple>, retries: map<Id, int>,
                            ackMap: map<Id, bool>) {
    && DistinctIds(unacked) && retries == (map id | id in Ids(unacked) :: 0)
    && Answers(Ids(ts), known, Ids(unacked), ackMap)
  }

  lemma OneMoreAnswer(ids: set<Id>, known: map<Id, bool>, waiting: set<Id>, ackMap: map<Id, bool>, id: Id, ack: bool)
    requires Answers(ids, known, waiting, ackMap) && id !in ids && (id in known && known[id] ==> ack)
    ensures id !in waiting
    ensures Answers(ids + {id}, known, if id !in known && !ack then waiting + {id} else waiting, ackMap[id := ack])
  {
  }

  function Opened(unacked: seq<Tuple>): Ledger {
    Ledger(Ids(unacked), {}, {}, map id | id in Ids(unacked) :: 0)
  }

  /** What is not acknowledged is in the ledger, or was known and unacknowledged before. */
  ghost predicate Unsolved(ts: seq<Tuple>, known: map<Id, bool>, ledger: Ledger, ackMap: map<Id, bool>) {
    && Ids(ts) <= ackMap.Keys && ledger.all <= Ids(ts) && ledger.all !! known.Keys
    && forall id :: id in Ids(ts) && !ackMap[id] && id !in ledger.all ==> id in known && !known[id]
  }

  /** What is not acknowledged was given up, or was known and unacknowledged before. */
  ghost predicate Solved(ts: seq<Tuple>, known: map<Id, bool>, ledger: Ledger, ackMap: map<Id, bool>)
    requires Ids(ts) <= ackMap.Keys
  {
    forall id :: id in Ids(ts) && !ackMap[id] ==> id in ledger.dropped || (id in known && !known[id])
  }

  /** The worker knows ids, has resent none of them and all are acknowledged. */
  ghost predicate AllAnswered(ackMap: map<Id, bool>, ledger: Ledger) {
    ackMap != map[] && ledger.all == {} && forall id :: id in ackMap ==> ackMap[id]
  }

  lemma LedgerOpens(ts: seq<Tuple>, known: map<Id, bool>, unacked: seq<Tuple>, retries: map<Id, int>,
                    ackMap: map<Id, bool>)
    requires SentSoFar(ts, known, unacked, retries, ackMap)
    ensures Balanced(Opened(unacked), unacked, retries, ackMap)
    ensures Unsolved(ts, known, Opened(unacked), ackMap)
  {
  }

  lemma PendingUnanswered(ledger: Ledger, unacked: seq<Tuple>, retries: map<Id, int>, ackMap: map<Id, bool>)
    requires Balanced(ledger, unacked, retries, ackMap) && ledger.acked == {}
    ensures forall id :: id in ledger.all ==> id in ackMap && !ackMap[id]
  {
  }

  lemma AllAnsweredNow(ts: seq<Tuple>, known: map<Id, bool>, ledger: Ledger, unacked: seq<Tuple>,
                       retries: map<Id, int>, ackMap: map<Id, bool>)
    requires Balanced(ledger, unacked, retries, ackMap) && Unsolved(ts, known, ledger, ackMap)
    requires ledger.acked == {} && ackMap != map[] && forall id :: id in ackMap ==> ackMap[id]
    ensures AllAnswered(ackMap, ledger) && Solved(ts, known, ledger, ackMap)
  {
    PendingUnanswered(ledger, unacked, retries, ackMap);
  }

  lemma NotAllAnswered(ts: seq<Tuple>, known: map<Id, bool>, ledger: Ledger, acks: map<Id, bool>,
                       ackMap: map<Id, bool>)
    requires SameElsewhere(acks, ackMap, ledger.all) && Ids(ts) <= acks.Keys && ledger.all <= Ids(ts)
    requires acks == map[] || exists id :: id in acks && !acks[id]
    ensures !AllAnswered(ackMap, ledger) && Ids(ts) <= ackMap.Keys
  {
    if acks == map[] {
      assert ledger.all == {};
    } else {
      var id :| id in acks && !acks[id];
    }
  }

  /** Of the new ids exactly those whose first send was not answered are in the ledger. */
  lemma FirstAnswers(ts: seq<Tuple>, known: map<Id, bool>, log: seq<Send>, unacked: seq<Tuple>,
                     retries: map<Id, int>, ackMap: map<Id, bool>)
    requires SentSoFar(ts, known, unacked, retries, ackMap) && FirstSends(ts, known, log, ackMap)
    ensures Tuples(log) == Unsettled(ts, known)
    ensures forall k :: 0 <= k < |log| && log[k].tuple.id !in known ==>
                          (log[k].tuple.id in Opened(unacked).all <==> !log[k].acked)
  {
    hide Unsettled;
    hide Tuples;
  }

  lemma WhatIsLeft(ts: seq<Tuple>, known: map<Id, bool>, acks: map<Id, bool>, ledger: Ledger,
                   unacked: seq<Tuple>, retries: map<Id, int>, ackMap: map<Id, bool>)
    requires Balanced(ledger, unacked, retries, ackMap) && ledger.all == ledger.acked + ledger.dropped
    requires SameElsewhere(acks, ackMap, ledger.all) && Unsolved(ts, known, ledger, acks)
    ensures Ids(ts) <= ackMap.Keys && Solved(ts, known, ledger, ackMap)
  {
  }

  lemma QueuedIsGiven(queue: seq<int>, t: int, given: set<int>)
    requires AllGiven(queue, given) && t in given
    ensures AllGiven(queue + [t], given)
  {
  }

  /** Whether t itself is reported, by what was last in the queue. */
  lemma LastIsGiven(queue: seq<int>, given: set<int>)
    requires AllGiven(queue, given) && queue != []
    ensures queue[|queue| - 1] in given
  {
    var last := queue[|queue| - 1];
    assert last in queue;
  }

  lemma NothingSent(known: map<Id, bool>)
    ensures SentSoFar([], known, [], map[], known) && FirstSends([], known, [], known)
  {
  }

  lemma KnownAsBefore(ts: seq<Tuple>, known: map<Id, bool>, unacked: seq<Tuple>, retries: map<Id, int>,
                      ackMap: map<Id, bool>, id: Id)
    requires SentSoFar(ts, known, unacked, retries, ackMap) && id !in Ids(ts)
    ensures id in ackMap <==> id in known
    ensures id in known ==> ackMap[id] == known[id]
  {
  }

  lemma OneMoreWaits(unacked: seq<Tuple>, t: Tuple)
    requires DistinctIds(unacked) && t.id !in Ids(unacked)
    ensures DistinctIds(unacked + [t]) && Ids(unacked + [t]) == Ids(unacked) + {t.id}
    ensures (map id | id in Ids(unacked + [t]) :: 0) == (map id | id in Ids(unacked) :: 0)[t.id := 0]
  {
    IdsSnoc(unacked, t);
    forall u | u in unacked ensures u.id != t.id {
      assert u.id in Ids(unacked);
    }
  }

  lemma SendOneMore(ts: seq<Tuple>, t: Tuple, known: map<Id, bool>, unacked: seq<Tuple>, retries: map<Id, int>,
                    ackMap: map<Id, bool>, ack: bool)
    requires SentSoFar(ts, known, unacked, retries, ackMap) && t.id !in Ids(ts)
    requires t.id in known && known[t.id] ==> ack
    ensures var waits := t.id !in known && !ack;
            SentSoFar(ts + [t], known, if waits then unacked + [t] else unacked,
                      if waits then retries[t.id := 0] else retries, ackMap[t.id := ack])
  {
    IdsSnoc(ts, t);
    OneMoreAnswer(Ids(ts), known, Ids(unacked), ackMap, t.id, ack);
    if t.id !in known && !ack {
      OneMoreWaits(unacked, t);
    }
    hide Ids;
    hide DistinctIds;
    hide Answers;
  }

  lemma IdsTail(ts: seq<Tuple>, i: nat)
    requires DistinctIds(ts) && i < |ts|
    ensures Ids(ts[i..]) == Ids(ts[i + 1..]) + {ts[i].id}
    ensures ts[i].id !in Ids(ts[i + 1..])
  {
    assert ts[i..] == [ts[i]] + ts[i + 1..];
    assert forall t :: t in ts[i..] <==> t == ts[i] || t in ts[i + 1..];
  }
}
