/** Splitting the input lines among stage-1 tasks, and what each task scans and emits. */
module WorkSplit {
  datatype Partition = Partition(id: int, first: int, last: int)

  // Lines a task; the division is done in floating point, which is exact enough to be taken as real.
  function LinesPerTask(lineCount: int, numTasks: int): int
    requires numTasks > 0
  {
    -(-(lineCount as real / numTasks as real)).Floor
  }

  function PartitionAt(lineCount: int, numTasks: int, i: int): Partition
    requires numTasks > 0
  {
    var startLine := i * LinesPerTask(lineCount, numTasks);
    var endLine := startLine + LinesPerTask(lineCount, numTasks) - 1;
    Partition(i, startLine, if endLine >= lineCount then lineCount - 1 else endLine)
  }

  /** k lines for each task are enough, and k - 1 are not. */
  predicate IsShare(k: int, lineCount: int, numTasks: int) {
    numTasks * (k - 1) < lineCount <= numTasks * k
  }

  /** Partition i is [i * k, min((i + 1) * k, lineCount) - 1], for one k that is everybody's share. */
  ghost predicate SharesOf(k: int, partitions: seq<Partition>, lineCount: int) {
    forall i :: 0 <= i < |partitions| ==>
                  && partitions[i].id == i && partitions[i].first == i * k
                  && partitions[i].last == (if (i + 1) * k <= lineCount then (i + 1) * k else lineCount) - 1
  }

  ghost predicate EvenlySplit(partitions: seq<Partition>, lineCount: int, numTasks: int) {
    exists k :: IsShare(k, lineCount, numTasks) && SharesOf(k, partitions, lineCount)
  }

  lemma ScaledUp(k: int, q: real, n: int)
    requires n > 0
    ensures (n * k) as real == k as real * n as real
    ensures k as real >= q <==> k as real * n as real >= q * n as real
  {
  }

  lemma CeilingIsShare(lineCount: int, numTasks: int)
    requires numTasks > 0
    ensures IsShare(LinesPerTask(lineCount, numTasks), lineCount, numTasks)
  {
    var q, c := lineCount as real / numTasks as real, LinesPerTask(lineCount, numTasks);
    assert c as real >= q && !((c - 1) as real >= q);
    assert q * numTasks as real == lineCount as real;
    ScaledUp(c, q, numTasks);
    ScaledUp(c - 1, q, numTasks);
  }

  /** The rounded quotient is the one least share that suffices. */
  lemma ShareIsCeiling(lineCount: int, numTasks: int, k: int)
    requires numTasks > 0
    ensures IsShare(k, lineCount, numTasks) <==> k == LinesPerTask(lineCount, numTasks)
  {
    CeilingIsShare(lineCount, numTasks);
    var c := LinesPerTask(lineCount, numTasks);
    hide LinesPerTask;
    Larger(k, c - 1, numTasks);
    Larger(c, k - 1, numTasks);
  }

  lemma Larger(a: int, b: int, n: int)
    requires n > 0
    ensures n * a > n * b <==> a > b
  {
  }

  /** So the work is split: each task has its share, as long as there are lines. */
  lemma PartitionsAreEven(partitions: seq<Partition>, lineCount: int, numTasks: int)
    requires numTasks > 0 && |partitions| == numTasks
    requires forall i :: 0 <= i < numTasks ==> partitions[i] == PartitionAt(lineCount, numTasks, i)
    ensures EvenlySplit(partitions, lineCount, numTasks)
  {
    var k := LinesPerTask(lineCount, numTasks);
    CeilingIsShare(lineCount, numTasks);
    forall i | 0 <= i < numTasks ensures (i + 1) * k == i * k + k {
    }
    assert SharesOf(k, partitions, lineCount);
  }

  /** And no task scans more than its share. */
  lemma NoTaskGetsMore<L>(lines: seq<L>, partitions: seq<Partition>, lineCount: nat, k: int, i: int)
    requires IsShare(k, lineCount, |partitions|) && SharesOf(k, partitions, lineCount) && 0 <= i < |partitions|
    ensures |Scanned(lines, partitions[i])| <= k
  {
    assert k >= 0 by {
      Larger(0, k, |partitions|);
    }
    assert (i + 1) * k == i * k + k;
  }

  method PartitionInputData(lineCount: int, numTasks: nat)
    returns (partitions: seq<Partition>, outputPartitions: map<int, int>)
    ensures |partitions| == numTasks
    ensures forall i :: 0 <= i < numTasks ==> partitions[i] == PartitionAt(lineCount, numTasks, i)
    ensures numTasks > 0 ==> EvenlySplit(partitions, lineCount, numTasks)
    ensures forall i :: i in outputPartitions <==> 0 <= i < numTasks
    ensures forall i :: i in outputPartitions ==> outputPartitions[i] == -1
  {
    partitions, outputPartitions := [], map[];
    if numTasks == 0 {
      return;
    }
    var linesPerTask := LinesPerTask(lineCount, numTasks);
    for i := 0 to numTasks
      invariant |partitions| == i
      invariant forall k :: 0 <= k < i ==> partitions[k] == PartitionAt(lineCount, numTasks, k)
      invariant forall k :: k in outputPartitions <==> 0 <= k < i
      invariant forall k :: k in outputPartitions ==> outputPartitions[k] == -1
    {
      var startLine := i * linesPerTask;
      var endLine := startLine + linesPerTask - 1;
      if endLine >= lineCount {
        endLine := lineCount - 1;
      }
      partitions := partitions + [Partition(i, startLine, endLine)];
      outputPartitions := outputPartitions[i := -1];
    }
    PartitionsAreEven(partitions, lineCount, numTasks);
  }

  // ----- what a task scans -----

  function Clip(a: int, n: nat): (c: nat)
    ensures c <= n
  {
    if a < 0 then 0 else if a > n then n else a
  }

  /** The lines with numbers in [first, last] that the file has. */
  function Scanned<L>(lines: seq<L>, p: Partition): seq<L> {
    var a, b := Clip(p.first, |lines|), Clip(p.last + 1, |lines|);
    if a <= b then lines[a..b] else []
  }

  /** The scan loop: skip before the first line of the partition, stop after its last one. */
  method ScanPartition<L>(lines: seq<L>, p: Partition) returns (taken: seq<L>)
    ensures taken == Scanned(lines, p)
  {
    taken := [];
    var lineNumber := -1;
    ghost var a := Clip(p.first, |lines|);
    while lineNumber + 1 < |lines|
      invariant -1 <= lineNumber < |lines|
      invariant taken == if a <= lineNumber + 1 then lines[a..lineNumber + 1] else []
      invariant lineNumber >= 0 && a <= lineNumber ==> lineNumber <= p.last
    {
      lineNumber := lineNumber + 1;
      if lineNumber < p.first {
        continue;
      }
      if lineNumber > p.last {
        break;
      }
      taken := taken + [lines[lineNumber]];
    }
  }

  function ScanAll<L>(lines: seq<L>, lineCount: int, numTasks: int, upTo: nat): seq<L>
    requires numTasks > 0
  {
    if upTo == 0 then []
    else ScanAll(lines, lineCount, numTasks, upTo - 1) + Scanned(lines, PartitionAt(lineCount, numTasks, upTo - 1))
  }

  lemma CeilingBounds(lineCount: int, numTasks: int)
    requires numTasks > 0
    ensures numTasks * LinesPerTask(lineCount, numTasks) >= lineCount
    ensures lineCount <= 0 ==> LinesPerTask(lineCount, numTasks) <= 0
    ensures lineCount >= 0 ==> LinesPerTask(lineCount, numTasks) >= 0
  {
    var q := lineCount as real / numTasks as real;
    var k := LinesPerTask(lineCount, numTasks);
    assert k as real >= q;
    assert q * numTasks as real == lineCount as real;
    assert (k as real) * (numTasks as real) >= q * (numTasks as real);
    assert (numTasks * k) as real == (k as real) * (numTasks as real);
    if lineCount <= 0 {
      assert q <= 0.0;
    } else {
      assert q > 0.0;
    }
  }

  /** The first min(m * linesPerTask, lineCount) lines. */
  function FirstParts<L>(lines: seq<L>, lineCount: int, numTasks: int, m: nat): seq<L>
    requires numTasks > 0
  {
    FirstLines(lines, lineCount, m * LinesPerTask(lineCount, numTasks))
  }

  /** The first m partitions scan exactly these lines, in order. */
  lemma {:induction false} PrefixScanned<L>(lines: seq<L>, lineCount: int, numTasks: int, m: nat)
    requires numTasks > 0
    ensures ScanAll(lines, lineCount, numTasks, m) == FirstParts(lines, lineCount, numTasks, m)
  {
    hide FirstParts;
    hide PartitionAt;
    hide Scanned;
    if m == 0 {
      NoParts(lines, lineCount, numTasks);
    } else {
      PrefixScanned(lines, lineCount, numTasks, m - 1);
      OneMorePart(lines, lineCount, numTasks, m - 1);
    }
  }

  lemma NoParts<L>(lines: seq<L>, lineCount: int, numTasks: int)
    requires numTasks > 0
    ensures FirstParts(lines, lineCount, numTasks, 0) == []
  {
    hide LinesPerTask;
    assert 0 * LinesPerTask(lineCount, numTasks) == 0;
  }

  lemma OneMorePart<L>(lines: seq<L>, lineCount: int, numTasks: int, i: nat)
    requires numTasks > 0
    ensures FirstParts(lines, lineCount, numTasks, i) + Scanned(lines, PartitionAt(lineCount, numTasks, i))
         == FirstParts(lines, lineCount, numTasks, i + 1)
  {
    hide FirstLines;
    hide LinesPerTask;
    hide Scanned;
    var lpt := LinesPerTask(lineCount, numTasks);
    CeilingBounds(lineCount, numTasks);
    Multiples(i, lpt);
    OneMore(lines, lineCount, i * lpt, lpt, i);
  }

  function FirstLines<L>(lines: seq<L>, lineCount: int, k: int): seq<L> {
    lines[..Clip(if k < lineCount then k else lineCount, |lines|)]
  }

  lemma Multiples(i: nat, lpt: int)
    ensures (i + 1) * lpt == i * lpt + lpt
    ensures lpt >= 0 ==> i * lpt >= 0
    ensures lpt <= 0 ==> i * lpt <= 0
  {
  }

  lemma OneMore<L>(lines: seq<L>, lineCount: int, k: int, lpt: int, i: int)
    requires lineCount >= 0 ==> k >= 0 && lpt >= 0
    requires lineCount <= 0 ==> k <= 0 && lpt <= 0
    ensures var p := Partition(i, k, if k + lpt - 1 >= lineCount then lineCount - 1 else k + lpt - 1);
            FirstLines(lines, lineCount, k) + Scanned(lines, p) == FirstLines(lines, lineCount, k + lpt)
  {
  }

  /** Whatever the line and task counts, the partitions together scan exactly the first lineCount lines of the
      file, each once and in order. */
  lemma PartitionsCoverTheFile<L>(lines: seq<L>, lineCount: int, numTasks: int)
    requires numTasks > 0
    ensures ScanAll(lines, lineCount, numTasks, numTasks) == lines[..Clip(lineCount, |lines|)]
  {
    PrefixScanned(lines, lineCount, numTasks, numTasks);
    CeilingBounds(lineCount, numTasks);
  }

  // ----- what a task emits -----

  type Id = string
  type Key = string

  datatype Tuple = Tuple(id: Id, key: Key, value: int)

  /** Outcome of running op1 on a line: it may fail, reject the line, or produce a pair. */
  datatype Outcome = Failed | Rejected | Pair(key: Key, value: int)

  function Payloads<L>(scanned: seq<L>, op1: L -> Outcome): seq<(Key, int)> {
    if scanned == [] then []
    else
      var front, out := Payloads(scanned[..|scanned| - 1], op1), op1(scanned[|scanned| - 1]);
      if out.Pair? then front + [(out.key, out.value)] else front
  }

  /** at are the positions of the lines on which op1 gives a pair, in order, and payloads are these pairs. */
  ghost predicate PairsAt<L>(scanned: seq<L>, op1: L -> Outcome, payloads: seq<(Key, int)>, at: seq<int>) {
    && |at| == |payloads| && (forall j, k :: 0 <= j < k < |at| ==> at[j] < at[k])
    && (forall k :: 0 <= k < |at| ==>
                      0 <= at[k] < |scanned| && op1(scanned[at[k]]) == Pair(payloads[k].0, payloads[k].1))
    && (forall i :: 0 <= i < |scanned| ==> (i in at <==> op1(scanned[i]).Pair?))
  }

  lemma OneMorePair<L>(scanned: seq<L>, l: L, op1: L -> Outcome, payloads: seq<(Key, int)>, was: seq<int>)
    returns (at: seq<int>)
    requires PairsAt(scanned, op1, payloads, was)
    ensures PairsAt(scanned + [l], op1, payloads + if op1(l).Pair? then [(op1(l).key, op1(l).value)] else [], at)
  {
    var n := |scanned|;
    at := if op1(l).Pair? then was + [n] else was;
    assert n !in was;
    assert forall i :: i in at <==> i in was || (i == n && op1(l).Pair?);
  }

  /** Failed and rejected lines emit nothing, and every other line its one pair, in line order. */
  lemma {:induction false} PayloadsInOrder<L>(scanned: seq<L>, op1: L -> Outcome) returns (at: seq<int>)
    ensures PairsAt(scanned, op1, Payloads(scanned, op1), at)
  {
    at := [];
    if scanned != [] {
      var n := |scanned| - 1;
      at := PayloadsInOrder(scanned[..n], op1);
      assert scanned == scanned[..n] + [scanned[n]];
      at := OneMorePair(scanned[..n], scanned[n], op1, Payloads(scanned[..n], op1), at);
    }
  }

  /** The tuples emitted for the scanned lines; sequence numbers start at -1 and count emitted tuples only. */
  function Emitted<L>(scanned: seq<L>, op1: L -> Outcome, idOf: int -> Id): seq<Tuple> {
    if scanned == [] then []
    else
      var front, out := Emitted(scanned[..|scanned| - 1], op1, idOf), op1(scanned[|scanned| - 1]);
      if out.Pair? then front + [Tuple(idOf(|front| - 1), out.key, out.value)] else front
  }

  ghost predicate Injective(idOf: int -> Id) {
    forall a, b :: idOf(a) == idOf(b) ==> a == b
  }

  ghost predicate DistinctIds(ts: seq<Tuple>) {
    forall i, j :: 0 <= i < j < |ts| ==> ts[i].id != ts[j].id
  }

  /** The k-th emitted tuple carries the k-th id and the k-th payload. */
  lemma {:induction false} IdsAreConsecutive<L>(scanned: seq<L>, op1: L -> Outcome, idOf: int -> Id)
    ensures var ts, ps := Emitted(scanned, op1, idOf), Payloads(scanned, op1);
            && |ts| == |ps|
            && forall k :: 0 <= k < |ts| ==> ts[k] == Tuple(idOf(k - 1), ps[k].0, ps[k].1)
  {
    if scanned != [] {
      IdsAreConsecutive(scanned[..|scanned| - 1], op1, idOf);
    }
  }

  lemma EmittedIdsDistinct<L>(scanned: seq<L>, op1: L -> Outcome, idOf: int -> Id)
    requires Injective(idOf)
    ensures DistinctIds(Emitted(scanned, op1, idOf))
  {
    IdsAreConsecutive(scanned, op1, idOf);
  }

  /** Two runs of a task name the same tuples by the same ids exactly when op1 gave the same pairs; so a
      deterministic op1 makes a re-run recognisable, and a failure of op1 on one line in one of the runs
      shifts the ids of all later lines. */
  lemma ReplayAgreesIff<L>(scanned: seq<L>, first: L -> Outcome, second: L -> Outcome, idOf: int -> Id)
    requires Injective(idOf)
    ensures Emitted(scanned, first, idOf) == Emitted(scanned, second, idOf) <==>
            Payloads(scanned, first) == Payloads(scanned, second)
  {
    IdsAreConsecutive(scanned, first, idOf);
    IdsAreConsecutive(scanned, second, idOf);
    var p, q := Payloads(scanned, first), Payloads(scanned, second);
    var a, b := Emitted(scanned, first, idOf), Emitted(scanned, second, idOf);
    if a == b {
      forall k | 0 <= k < |p| ensures p[k] == q[k] {
        assert a[k] == b[k];
      }
    }
  }

  lemma PayloadsShift<L>(scanned: seq<L>, bad: L, rest: seq<L>, first: L -> Outcome, second: L -> Outcome)
    requires first(bad).Pair? && second(bad).Failed?
    requires forall l :: l in scanned || l in rest ==> first(l) == second(l)
    ensures Payloads(scanned + [bad] + rest, first) ==
            Payloads(scanned, first) + [(first(bad).key, first(bad).value)] + Payloads(rest, first)
    ensures Payloads(scanned + [bad] + rest, second) == Payloads(scanned, first) + Payloads(rest, first)
  {
    PayloadsConcat(scanned + [bad], rest, first);
    PayloadsConcat(scanned, [bad], first);
    PayloadsConcat(scanned + [bad], rest, second);
    PayloadsConcat(scanned, [bad], second);
    assert [bad][..0] == [];
    PayloadsAgree(scanned, first, second);
    PayloadsAgree(rest, first, second);
  }

  /** One line that op1 accepted in the first run and failed on in the second: up to it the runs emit the same, and from
      there on tuple k of the second run has the id of tuple k of the first, with the key and value of tuple k+1. */
  lemma TransientFailureShifts<L>(scanned: seq<L>, bad: L, rest: seq<L>, first: L -> Outcome, second: L -> Outcome,
                                  idOf: int -> Id)
    requires first(bad).Pair? && second(bad).Failed?
    requires forall l :: l in scanned || l in rest ==> first(l) == second(l)
    ensures var a, b := Emitted(scanned + [bad] + rest, first, idOf), Emitted(scanned + [bad] + rest, second, idOf);
            var n := |Emitted(scanned, first, idOf)|;
            && n <= |b| == |a| - 1 && a[..n] == b[..n]
            && a[n].key == first(bad).key && a[n].value == first(bad).value
            && forall k :: n <= k < |b| ==> b[k] == Tuple(a[k].id, a[k + 1].key, a[k + 1].value)
  {
    PayloadsShift(scanned, bad, rest, first, second);
    IdsAreConsecutive(scanned, first, idOf);
    IdsAreConsecutive(scanned + [bad] + rest, first, idOf);
    IdsAreConsecutive(scanned + [bad] + rest, second, idOf);
    hide Emitted;
    hide Payloads;
    var p, q := Payloads(scanned + [bad] + rest, first), Payloads(scanned + [bad] + rest, second);
    var n := |Payloads(scanned, first)|;
    assert p[n] == (first(bad).key, first(bad).value);
    assert forall k :: 0 <= k < n ==> q[k] == p[k];
    assert forall k :: n <= k < |q| ==> q[k] == p[k + 1];
  }

  lemma {:induction false} PayloadsConcat<L>(a: seq<L>, b: seq<L>, op1: L -> Outcome)
    ensures Payloads(a + b, op1) == Payloads(a, op1) + Payloads(b, op1)
  {
    if b == [] {
      assert a + b == a;
    } else {
      PayloadsConcat(a, b[..|b| - 1], op1);
      assert (a + b)[..|a + b| - 1] == a + b[..|b| - 1];
    }
  }

  lemma {:induction false} PayloadsAgree<L>(a: seq<L>, first: L -> Outcome, second: L -> Outcome)
    requires forall l :: l in a ==> first(l) == second(l)
    ensures Payloads(a, first) == Payloads(a, second)
  {
    if a != [] {
      PayloadsAgree(a[..|a| - 1], first, second);
    }
  }
}
