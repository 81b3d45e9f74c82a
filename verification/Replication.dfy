/** Failure repair at one peer: the files it sends on, and to whom. */
module Replication {
  import opened Entries
  import opened Ring
  import opened Files
  import opened RepairPlan
  import opened Sequences

  predicate IsCsv(f: File) {
    |f| >= 4 && f[|f| - 4..] == ".csv"
  }

  /** The files that are never sent on are those whose name ends in .csv. */
  lemma IsCsvIff(f: File)
    ensures IsCsv(f) <==> exists p: File :: f == p + ".csv"
  {
    if IsCsv(f) {
      assert f == f[..|f| - 4] + ".csv";
    }
  }

  // ----- selecting files by arc -----

  /** The test applied to the hash of every local file. */
  predicate Selected(hashID: int, startID: int, endID: int) {
    if hashID >= startID && hashID <= endID then true
    else (hashID > endID && hashID > startID) || (hashID <= startID && hashID < endID)
  }

  method GetFilesInRange(files: seq<File>, startID: int, endID: int, hash: File -> int)
    returns (filesInRange: seq<File>)
    ensures forall f :: f in filesInRange <==> f in files && Selected(hash(f), startID, endID)
  {
    filesInRange := [];
    for i := 0 to |files|
      invariant forall f :: f in filesInRange <==> f in files[..i] && Selected(hash(f), startID, endID)
    {
      var hashID := hash(files[i]);
      if hashID >= startID && hashID <= endID {
        filesInRange := filesInRange + [files[i]];
      } else if (hashID > endID && hashID > startID) || (hashID <= startID && hashID < endID) {
        filesInRange := filesInRange + [files[i]];
      }
    }
    assert files[..|files|] == files;
  }

  /** The test over-selects, and of an arc it misses exactly its first hash when the arc wraps. */
  lemma SelectionMissesExactly(h: int, fromFile: int, toFile: int)
    ensures Selected(h, fromFile, toFile) <==> fromFile <= toFile || h > fromFile || h < toFile
    ensures InArc(h, fromFile, toFile) ==> (Selected(h, fromFile, toFile) <==> !(fromFile > toFile && h == fromFile))
  {
  }

  // ----- the repair loop at one peer -----

  /** Transfer t makes this peer send f to receiver. */
  predicate Sends(t: Transfer, self: int, receiver: int, h: int) {
    t.sender == self && t.receiver == receiver && Selected(h, t.fromFile, t.toFile)
  }

  /** Some transfer of the plan does. */
  ghost predicate Asked(plan: seq<Transfer>, self: int, receiver: int, h: int) {
    exists t :: t in plan && Sends(t, self, receiver, h)
  }

  /** Some failed node's plan does. */
  ghost predicate AskedByAny(ring: seq<int>, nodes: seq<int>, peerOf: int -> int, self: int, receiver: int, h: int) {
    exists n :: n in nodes && Asked(Plan(ring, peerOf(n)), self, receiver, h)
  }

  lemma AskedSnoc(plan: seq<Transfer>, t: Transfer, self: int, receiver: int, h: int)
    ensures Asked(plan + [t], self, receiver, h) <==> Asked(plan, self, receiver, h) || Sends(t, self, receiver, h)
  {
    assert forall u :: u in plan + [t] <==> u in plan || u == t;
  }

  lemma AskedOwn(plan: seq<Transfer>, self: int, receiver: int, h: int)
    ensures Asked(OwnRanges(plan, self), self, receiver, h) <==> Asked(plan, self, receiver, h)
  {
  }

  lemma AskedByAnySnoc(ring: seq<int>, nodes: seq<int>, n: int, peerOf: int -> int, self: int, receiver: int, h: int)
    ensures AskedByAny(ring, nodes + [n], peerOf, self, receiver, h) <==>
            AskedByAny(ring, nodes, peerOf, self, receiver, h) || Asked(Plan(ring, peerOf(n)), self, receiver, h)
  {
    assert forall m :: m in nodes + [n] <==> m in nodes || m == n;
  }

  predicate InMap(m: map<int, set<File>>, r: int, f: File) {
    r in m && f in m[r]
  }

  class FailureRepair {
    const self: int
    const hash: File -> int
    const peerOf: int -> int
    var failedNodes: seq<int>
    var processedNodes: set<int>

    ghost predicate Valid()
      reads this
    {
      && processedNodes == (set n | n in failedNodes)
      && (forall i, j :: 0 <= i < j < |failedNodes| ==> failedNodes[i] != failedNodes[j])
    }

    constructor (self: int, hash: File -> int, peerOf: int -> int)
      ensures Valid() && failedNodes == []
      ensures this.self == self && this.hash == hash && this.peerOf == peerOf
    {
      this.self, this.hash, this.peerOf := self, hash, peerOf;
      failedNodes, processedNodes := [], {};
    }

    method OnFailure(failedNode: int)
      requires Valid()
      modifies this
      ensures Valid()
      ensures failedNodes == old(failedNodes) + if failedNode in old(failedNodes) then [] else [failedNode]
    {
      if failedNode !in processedNodes {
        failedNodes := failedNodes + [failedNode];
        processedNodes := processedNodes + {failedNode};
      }
    }

    /** The files owed to each receiver for the collected failures, given this peer's list and directory. */
    method OnTimer(mL: seq<Entry>, files: seq<File>) returns (fileTransferMap: map<int, set<File>>)
      requires Valid() && Ascending(PeerIds(mL))
      modifies this
      ensures Valid() && failedNodes == [] && processedNodes == {}
      ensures forall r, f :: InMap(fileTransferMap, r, f) <==>
                f in files && AskedByAny(PeerIds(mL), old(failedNodes), peerOf, self, r, hash(f))
    {
      var uniqueNodes := Unique(failedNodes);
      fileTransferMap := CollectTransfers(mL, files, uniqueNodes);
      forall r, f
        ensures AskedByAny(PeerIds(mL), uniqueNodes, peerOf, self, r, hash(f)) ==
                AskedByAny(PeerIds(mL), failedNodes, peerOf, self, r, hash(f))
      {
      }
      failedNodes := [];
      processedNodes := {};
    }

    method CollectTransfers(mL: seq<Entry>, files: seq<File>, nodes: seq<int>)
      returns (fileTransferMap: map<int, set<File>>)
      requires Ascending(PeerIds(mL))
      ensures forall r, f :: InMap(fileTransferMap, r, f) <==>
                f in files && AskedByAny(PeerIds(mL), nodes, peerOf, self, r, hash(f))
    {
      fileTransferMap := map[];
      for i := 0 to |nodes|
        invariant forall r, f :: InMap(fileTransferMap, r, f) <==>
                    f in files && AskedByAny(PeerIds(mL), nodes[..i], peerOf, self, r, hash(f))
      {
        fileTransferMap := AddTransfers(mL, files, nodes[i], fileTransferMap);
        assert nodes[..i + 1] == nodes[..i] + [nodes[i]];
        forall r, f
          ensures AskedByAny(PeerIds(mL), nodes[..i + 1], peerOf, self, r, hash(f)) <==>
                  AskedByAny(PeerIds(mL), nodes[..i], peerOf, self, r, hash(f))
                  || Asked(Plan(PeerIds(mL), peerOf(nodes[i])), self, r, hash(f))
        {
          AskedByAnySnoc(PeerIds(mL), nodes[..i], nodes[i], peerOf, self, r, hash(f));
        }
      }
      assert nodes[..|nodes|] == nodes;
    }

    method Unique(nodes: seq<int>) returns (unique: seq<int>)
      ensures forall n :: n in unique <==> n in nodes
      ensures forall i, j :: 0 <= i < j < |unique| ==> unique[i] != unique[j]
    {
      unique := [];
      var seen: set<int> := {};
      for i := 0 to |nodes|
        invariant seen == (set n | n in unique)
        invariant forall n :: n in unique <==> n in nodes[..i]
        invariant forall i, j :: 0 <= i < j < |unique| ==> unique[i] != unique[j]
      {
        if nodes[i] !in seen {
          seen := seen + {nodes[i]};
          unique := unique + [nodes[i]];
        }
      }
      assert nodes[..|nodes|] == nodes;
    }

    method AddTransfers(mL: seq<Entry>, files: seq<File>, failedNode: int, before: map<int, set<File>>)
      returns (after: map<int, set<File>>)
      requires Ascending(PeerIds(mL))
      ensures forall r, f :: InMap(after, r, f) <==>
                InMap(before, r, f) || (f in files && Asked(Plan(PeerIds(mL), peerOf(failedNode)), self, r, hash(f)))
    {
      after := before;
      var precedingPeers, succeedingPeers := HypotheticalNeighborsForPeerId(mL, peerOf(failedNode));
      if |precedingPeers| == 0 || |succeedingPeers| == 0 {
        return;
      }
      var prevPeers := new int[3](i requires 0 <= i < 3 => precedingPeers[i]);
      assert prevPeers[..] == precedingPeers;
      var transferRanges := HandleFileTransferRequestsInFailureRepair(peerOf(failedNode), prevPeers, succeedingPeers);
      ghost var plan := transferRanges;
      assert plan == Plan(PeerIds(mL), peerOf(failedNode));
      transferRanges := GetOwnFileRanges(transferRanges, self);
      after := AddOwnRanges(files, transferRanges, before);
      forall r, f ensures Asked(transferRanges, self, r, hash(f)) <==> Asked(plan, self, r, hash(f)) {
        AskedOwn(plan, self, r, hash(f));
      }
    }

    method AddOwnRanges(files: seq<File>, transferRanges: seq<Transfer>, before: map<int, set<File>>)
      returns (after: map<int, set<File>>)
      requires forall t :: t in transferRanges ==> t.sender == self
      ensures forall r, f :: InMap(after, r, f) <==>
                InMap(before, r, f) || (f in files && Asked(transferRanges, self, r, hash(f)))
    {
      after := before;
      for i := 0 to |transferRanges|
        invariant forall r, f :: InMap(after, r, f) <==>
                    InMap(before, r, f) || (f in files && Asked(transferRanges[..i], self, r, hash(f)))
      {
        var transfer := transferRanges[i];
        var filesInRange := GetFilesInRange(files, transfer.fromFile, transfer.toFile, hash);
        ghost var soFar := after;
        if transfer.receiver !in after {
          after := after[transfer.receiver := {}];
        }
        after := after[transfer.receiver := after[transfer.receiver] + (set f | f in filesInRange)];
        assert forall r, f :: InMap(after, r, f) <==>
                 InMap(soFar, r, f) || (r == transfer.receiver && f in filesInRange);
        assert transferRanges[..i + 1] == transferRanges[..i] + [transfer];
        forall r, f
          ensures Asked(transferRanges[..i + 1], self, r, hash(f)) <==>
                  Asked(transferRanges[..i], self, r, hash(f)) || Sends(transfer, self, r, hash(f))
        {
          AskedSnoc(transferRanges[..i], transfer, self, r, hash(f));
        }
      }
      assert transferRanges[..|transferRanges|] == transferRanges;
    }
  }

  /** The files sent on to one receiver: none when it is unknown, and never the CSV inputs. */
  method TransferFilesOnFailure(mL: seq<Entry>, filesInRange: seq<File>, toPeerId: int) returns (sent: seq<File>)
    ensures forall f :: f in sent <==> f in filesInRange && !IsCsv(f) && toPeerId in PeerIds(mL)
    ensures NoRepeats(filesInRange) ==> NoRepeats(sent)
  {
    sent := [];
    var toPeerIndex := GetIndexOfPeer(mL, toPeerId);
    if toPeerIndex < 0 || toPeerIndex >= |mL| {
      return;
    }
    assert PeerIds(mL)[toPeerIndex] == toPeerId;
    for i := 0 to |filesInRange|
      invariant forall f :: f in sent <==> f in filesInRange[..i] && !IsCsv(f)
      invariant NoRepeats(filesInRange) ==> NoRepeats(sent)
    {
      if IsCsv(filesInRange[i]) {
        continue;
      }
      sent := sent + [filesInRange[i]];
    }
    assert filesInRange[..|filesInRange|] == filesInRange;
  }
}
