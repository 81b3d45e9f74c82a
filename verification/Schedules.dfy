/** Which failures the store survives under every schedule of their repair, and what that keeps over whole runs. */
module Schedules {
  import opened Files
  import opened Ring
  import opened RepairPlan
  import opened Replication
  import opened StoreRuns

  // ----- the condition at the failure -----

  /** Transfer u would bring a file with hash h to q. */
  predicate Aims(u: Transfer, q: int, h: int) {
    u.receiver == q && Selected(h, u.fromFile, u.toFile)
  }

  ghost predicate IsCovering(s: System, t: Transfer, r: int, h: int) {
    s.failed.Some? && t in Plan(s.ring, s.failed.value) && t.receiver == r && Covers(t, h)
  }

  /** No transfer that takes f along to q comes from a peer that has f. */
  ghost predicate NoneAimed(s: System, q: int, f: File, hash: File -> int)
    requires s.failed.Some?
  {
    forall u :: u in Plan(s.ring, s.failed.value) && Aims(u, q, hash(f)) ==> !Holds(s, u.sender, f)
  }

  /** r has f, or the sender of the transfer that covers f has it flushed and nobody is to send it a copy. */
  ghost predicate Ready(s: System, r: int, f: File, hash: File -> int) {
    || Holds(s, r, f)
    || exists t :: IsCovering(s, t, r, hash(f)) && OnDisk(s, t.sender, f) && NoneAimed(s, t.sender, f, hash)
  }

  /** Every repair that is due is ready. */
  ghost predicate Prepared(s: System, hash: File -> int, ids: set<int>) {
    forall r, f :: Due(s, r, f, hash, ids) ==> Ready(s, r, f, hash)
  }

  // ----- what the whole repair keeps -----

  /** Every debt is one of the plan. */
  ghost predicate OwedPlanned(s: System, hash: File -> int) {
    forall p, q, f :: (p, q, f) in s.owed ==> s.failed.Some? && Asked(Plan(s.ring, s.failed.value), p, q, hash(f))
  }

  ghost predicate Mid(s: System, hash: File -> int, ids: set<int>) {
    Shape(s, ids) && s.failed.Some? && KeptByOld(s, hash, ids) && OwedPlanned(s, hash)
  }

  lemma MidKept(s: System, step: Step, hash: File -> int, ids: set<int>)
    requires Mid(s, hash, ids) && Enabled(s, step) && step != Finish
    ensures Mid(Next(s, step, hash), hash, ids) && !step.Fail?
    ensures Next(s, step, hash).ring == s.ring && Next(s, step, hash).failed == s.failed
  {
    ShapeKept(s, step, hash, ids);
    KeptByOldKept(s, step, hash, ids);
    if step.Scan? {
      forall q, f {
        OwedIff(s, step.peer, q, f, hash);
      }
    }
  }

  /** f is at r, or still flushed at the sender, which owes it once it has looked, and no copy is on its way there. */
  ghost predicate Settled(s: System, t: Transfer, r: int, f: File, hash: File -> int)
    requires s.failed.Some?
  {
    || Holds(s, r, f)
    || (&& OnDisk(s, t.sender, f)
        && (t.sender in s.scanned ==> (t.sender, r, f) in s.owed)
        && (forall p :: (p, t.sender, f) !in s.owed)
        && NoneAimed(s, t.sender, f, hash))
  }

  /** A peer with a transfer aimed at the sender is itself the target of none, or is r, or was and stays on f's
      route. */
  lemma AimedFromSafety(ring: seq<int>, x: int, t: Transfer, u: Transfer, v: Transfer, h: int)
    requires StrictlyAscending(ring) && x !in ring && |ring| >= 3
    requires t in Plan(ring, x) && u in Plan(ring, x) && v in Plan(ring, x)
    requires Covers(t, h) && u.receiver == t.sender && v.receiver == u.sender
    ensures u.sender == t.receiver || InBoth(ring, x, h, u.sender)
  {
    PlanEnds(ring, x);
    EndsOnRoute(ring, x, h);
    hide Route;
    hide Insert;
    hide Covers;
    var plan := Plan(ring, x);
    hide Plan;
    assert t == plan[0] || t == plan[1] || t == plan[2];
    assert u == plan[0] || u == plan[1] || u == plan[2];
    assert v == plan[0] || v == plan[1] || v == plan[2];
  }

  /** The sender of the covering transfer is asked for the file when it looks. */
  lemma CoveringAsks(s: System, t: Transfer, r: int, f: File, hash: File -> int, ids: set<int>)
    requires Shape(s, ids) && IsCovering(s, t, r, hash(f)) && Protected(f, hash, ids)
    ensures Asked(Plan(s.ring, s.failed.value), t.sender, r, hash(f)) && t.sender in s.ring && t.receiver in s.ring
    ensures t.sender != r
  {
    ArcStartsAtPeer(s.ring, s.failed.value, t);
    SelectionMissesExactly(hash(f), t.fromFile, t.toFile);
    assert Sends(t, t.sender, r, hash(f));
    PlanEnds(s.ring, s.failed.value);
  }

  lemma SettledScan(s: System, q: int, t: Transfer, r: int, f: File, hash: File -> int, ids: set<int>)
    requires Mid(s, hash, ids) && Enabled(s, Scan(q))
    requires IsCovering(s, t, r, hash(f)) && Protected(f, hash, ids) && Settled(s, t, r, f, hash)
    ensures Settled(Next(s, Scan(q), hash), t, r, f, hash)
  {
    CoveringAsks(s, t, r, f, hash, ids);
    OwedIff(s, q, r, f, hash);
    OwedIff(s, q, t.sender, f, hash);
    hide Plan;
    if !Holds(s, r, f) {
      assert (q, t.sender, f) !in Owed(s, q, hash) by {
        if u :| u in Plan(s.ring, s.failed.value) && Sends(u, q, t.sender, hash(f)) {
          assert Aims(u, t.sender, hash(f));
        }
      }
      hide Owed;
    }
  }

  // A delivery that does not bring f to r brings it to no peer with a transfer aimed at the sender.
  lemma AimedFromStays(s: System, from: int, to: int, t: Transfer, u: Transfer, r: int, f: File, hash: File -> int,
                       ids: set<int>)
    requires Mid(s, hash, ids) && Enabled(s, Deliver(from, to, f)) && f in s.files && to != r
    requires IsCovering(s, t, r, hash(f)) && Protected(f, hash, ids)
    requires u in Plan(s.ring, s.failed.value) && u.receiver == t.sender && !Holds(s, u.sender, f)
    ensures to != u.sender
  {
    var v :| v in Plan(s.ring, s.failed.value) && Sends(v, from, to, hash(f));
    if to == u.sender {
      AimedFromSafety(s.ring, s.failed.value, t, u, v, hash(f));
    }
  }

  lemma HoldsAfterReceive(s: System, from: int, to: int, g: File, p: int, f: File)
    requires to in s.peers
    ensures Holds(Receive(s, from, to, g), p, f) <==> Holds(s, p, f) || (g == f && to == p)
    ensures OnDisk(Receive(s, from, to, g), p, f) <==> OnDisk(s, p, f) && !(g == f && to == p)
  {
  }

  lemma SettledDeliver(s: System, from: int, to: int, g: File, t: Transfer, r: int, f: File, hash: File -> int,
                       ids: set<int>)
    requires Mid(s, hash, ids) && HasPeers(s) && Enabled(s, Deliver(from, to, g)) && f in s.files
    requires IsCovering(s, t, r, hash(f)) && Protected(f, hash, ids) && Settled(s, t, r, f, hash)
    ensures Settled(Next(s, Deliver(from, to, g), hash), t, r, f, hash)
  {
    HoldsAfterReceive(s, from, to, g, r, f);
    HoldsAfterReceive(s, from, to, g, t.sender, f);
    var plan := Plan(s.ring, s.failed.value);
    hide Mid;
    hide IsCovering;
    hide Holds;
    hide OnDisk;
    hide Plan;
    if !Holds(s, r, f) && !(g == f && to == r) {
      forall u | u in plan && Aims(u, t.sender, hash(f)) ensures !Holds(Receive(s, from, to, g), u.sender, f) {
        HoldsAfterReceive(s, from, to, g, u.sender, f);
        if g == f {
          AimedFromStays(s, from, to, t, u, r, f, hash, ids);
        }
      }
    }
  }

  lemma SettledWrite(s: System, g: File, t: Transfer, r: int, f: File, hash: File -> int, ids: set<int>)
    requires Mid(s, hash, ids) && HasPeers(s)
    requires IsCovering(s, t, r, hash(f)) && Settled(s, t, r, f, hash)
    ensures Settled(Next(s, Write(g), hash), t, r, f, hash)
  {
    var s' := Next(s, Write(g), hash);
    if g == f {
      CoveringIsNew(s, t, r, f, hash, ids);
      WriteReaches(s, f, hash, r);
    } else {
      assert forall p :: (Holds(s', p, f) <==> Holds(s, p, f)) && (OnDisk(s', p, f) <==> OnDisk(s, p, f));
    }
  }

  lemma SettledMiss(s: System, from: int, to: int, g: File, t: Transfer, r: int, f: File, hash: File -> int,
                    ids: set<int>)
    requires Mid(s, hash, ids) && HasPeers(s) && Enabled(s, Miss(from, to, g))
    requires IsCovering(s, t, r, hash(f)) && Settled(s, t, r, f, hash)
    ensures Settled(Next(s, Miss(from, to, g), hash), t, r, f, hash)
  {
    CoveringIsNew(s, t, r, f, hash, ids);
    RouteOnRing(s.ring, hash(f));
  }

  lemma SettledKept(s: System, step: Step, t: Transfer, r: int, f: File, hash: File -> int, ids: set<int>)
    requires Mid(s, hash, ids) && Enabled(s, step) && step != Finish && f in s.files
    requires IsCovering(s, t, r, hash(f)) && Protected(f, hash, ids) && Settled(s, t, r, f, hash)
    ensures Next(s, step, hash).failed.Some? && Settled(Next(s, step, hash), t, r, f, hash)
  {
    hide Plan;
    hide Route;
    match step
    case Write(g) => SettledWrite(s, g, t, r, f, hash, ids);
    case Flush(q) =>
    case Scan(q) => SettledScan(s, q, t, r, f, hash, ids);
    case Deliver(from, to, g) => SettledDeliver(s, from, to, g, t, r, f, hash, ids);
    case Miss(from, to, g) => SettledMiss(s, from, to, g, t, r, f, hash, ids);
  }

  lemma CoveringIsNew(s: System, t: Transfer, r: int, f: File, hash: File -> int, ids: set<int>)
    requires Shape(s, ids) && IsCovering(s, t, r, hash(f))
    ensures IsNew(s, r, f, hash)
  {
    PlanIsExact(s.ring, s.failed.value, hash(f));
  }

  /** The one transfer that can give f to r. */
  lemma TheCovering(s: System, r: int, f: File, hash: File -> int, ids: set<int>) returns (t: Transfer)
    requires Shape(s, ids) && IsNew(s, r, f, hash)
    ensures IsCovering(s, t, r, hash(f))
    ensures forall u :: u in Plan(s.ring, s.failed.value) && u.receiver == r ==> u == t
  {
    NewPeersAreReceivers(s.ring, s.failed.value, hash(f), r);
    t :| t in Plan(s.ring, s.failed.value) && Covers(t, hash(f)) && t.receiver == r;
    PlanEnds(s.ring, s.failed.value);
    var plan := Plan(s.ring, s.failed.value);
    hide Plan;
    assert forall u :: u in plan ==> u == plan[0] || u == plan[1] || u == plan[2];
  }

  /** Right after a failure, which nobody has looked at, ready is settled. */
  lemma ReadySettles(s: System, r: int, f: File, hash: File -> int, ids: set<int>) returns (t: Transfer)
    requires Shape(s, ids) && IsNew(s, r, f, hash) && s.scanned == {} && s.owed == {} && Ready(s, r, f, hash)
    ensures IsCovering(s, t, r, hash(f)) && Settled(s, t, r, f, hash)
  {
    t := TheCovering(s, r, f, hash, ids);
  }

  lemma {:induction false} SettledAlong(states: seq<System>, steps: seq<Step>, t: Transfer, r: int, f: File,
                                        hash: File -> int, ids: set<int>, n: nat)
    requires IsPath(states, steps, hash) && n < |states| && Mid(states[0], hash, ids)
    requires forall k :: 0 <= k < n ==> steps[k] != Finish
    requires f in states[0].files && Protected(f, hash, ids)
    requires IsCovering(states[0], t, r, hash(f)) && Settled(states[0], t, r, f, hash)
    ensures Mid(states[n], hash, ids) && states[n].ring == states[0].ring && states[n].failed == states[0].failed
    ensures f in states[n].files && Settled(states[n], t, r, f, hash)
  {
    if n > 0 {
      SettledAlong(states, steps, t, r, f, hash, ids, n - 1);
      MidKept(states[n - 1], steps[n - 1], hash, ids);
      SettledKept(states[n - 1], steps[n - 1], t, r, f, hash, ids);
    }
  }

  /** From s to the end of its repair. */
  ghost predicate Repairs(states: seq<System>, steps: seq<Step>, s: System, hash: File -> int) {
    && IsPath(states, steps, hash) && states[0] == s && |steps| > 0 && steps[|steps| - 1] == Finish
    && forall k :: 0 <= k < |steps| - 1 ==> steps[k] != Finish
  }

  lemma SettledAtFinish(s: System, t: Transfer, r: int, f: File, hash: File -> int, ids: set<int>)
    requires Mid(s, hash, ids) && Enabled(s, Finish)
    requires IsCovering(s, t, r, hash(f)) && Protected(f, hash, ids) && Settled(s, t, r, f, hash)
    ensures Holds(Next(s, Finish, hash), r, f)
  {
    CoveringAsks(s, t, r, f, hash, ids);
  }

  lemma ReadyIsServed(states: seq<System>, steps: seq<Step>, s: System, r: int, f: File, hash: File -> int,
                      ids: set<int>)
    requires Mid(s, hash, ids) && s.scanned == {} && s.owed == {} && Due(s, r, f, hash, ids) && Ready(s, r, f, hash)
    requires Repairs(states, steps, s, hash)
    ensures Holds(states[|steps|], r, f)
  {
    var t := ReadySettles(s, r, f, hash, ids);
    SettledAlong(states, steps, t, r, f, hash, ids, |steps| - 1);
    SettledAtFinish(states[|steps| - 1], t, r, f, hash, ids);
  }

  // ----- otherwise some schedule fails -----

  /** A repair that ends without f at r. */
  ghost predicate Fails(states: seq<System>, steps: seq<Step>, s: System, r: int, f: File, hash: File -> int) {
    Repairs(states, steps, s, hash) && !Holds(states[|steps|], r, f) && states[|steps|].ring == s.ring
    && s.files <= states[|steps|].files && states[|steps|].failed.None?
  }

  lemma PathBefore(s: System, step: Step, more: seq<System>, rest: seq<Step>, hash: File -> int)
    requires HasPeers(s) && Enabled(s, step) && IsPath(more, rest, hash) && more[0] == Next(s, step, hash)
    ensures IsPath([s] + more, [step] + rest, hash)
  {
    hide HasPeers;
    hide Enabled;
    hide Next;
    var states, steps := [s] + more, [step] + rest;
    forall i | 0 <= i < |states| ensures HasPeers(states[i]) {
      assert i > 0 ==> states[i] == more[i - 1];
    }
    forall i | 0 <= i < |steps|
      ensures Enabled(states[i], steps[i]) && states[i + 1] == Next(states[i], steps[i], hash)
    {
      if i > 0 {
        assert states[i] == more[i - 1] && states[i + 1] == more[i] && steps[i] == rest[i - 1];
      }
    }
  }

  lemma FailsBefore(s: System, step: Step, more: seq<System>, rest: seq<Step>, r: int, f: File, hash: File -> int)
    returns (states: seq<System>, steps: seq<Step>)
    requires HasPeers(s) && Enabled(s, step) && step != Finish && !step.Fail?
    requires Fails(more, rest, Next(s, step, hash), r, f, hash)
    ensures Fails(states, steps, s, r, f, hash)
  {
    states, steps := [s] + more, [step] + rest;
    assert Next(s, step, hash).ring == s.ring && s.files <= Next(s, step, hash).files;
    PathBefore(s, step, more, rest, hash);
    hide IsPath;
    hide Next;
    hide Enabled;
    hide HasPeers;
    hide Holds;
    assert forall i :: 0 < i < |steps| ==> steps[i] == rest[i - 1];
    assert |rest| > 0 && states[|steps|] == more[|rest|];
  }

  lemma LostFails(s: System, r: int, f: File, hash: File -> int) returns (states: seq<System>, steps: seq<Step>)
    requires HasPeers(s) && OwedByScanned(s) && s.failed.Some? && !Coming(s, r, f, hash)
    ensures Fails(states, steps, s, r, f, hash)
  {
    states, steps := LosingPath(s, r, f, hash);
  }

  /** The sender looks while f is not on its disk. */
  lemma LookTooEarly(s: System, t: Transfer, r: int, f: File, hash: File -> int, ids: set<int>)
    returns (states: seq<System>, steps: seq<Step>)
    requires Shape(s, ids) && HasPeers(s) && IsNew(s, r, f, hash) && Protected(f, hash, ids)
    requires IsCovering(s, t, r, hash(f))
    requires t.sender !in s.scanned && !Holds(s, r, f) && !OnDisk(s, t.sender, f)
    requires forall p :: p in s.scanned ==> (p, r, f) !in s.owed
    ensures Fails(states, steps, s, r, f, hash)
  {
    CoveringAsks(s, t, r, f, hash, ids);
    var covering := TheCovering(s, r, f, hash, ids);
    var s' := Next(s, Scan(t.sender), hash);
    ShapeKept(s, Scan(t.sender), hash, ids);
    NothingComes(s, t, r, f, hash);
    var more, rest := LostFails(s', r, f, hash);
    states, steps := FailsBefore(s, Scan(t.sender), more, rest, r, f, hash);
  }

  lemma NothingComes(s: System, t: Transfer, r: int, f: File, hash: File -> int)
    requires HasPeers(s) && Enabled(s, Scan(t.sender)) && !Holds(s, r, f) && !OnDisk(s, t.sender, f)
    requires forall p :: p in s.scanned ==> (p, r, f) !in s.owed
    requires forall u :: u in Plan(s.ring, s.failed.value) && u.receiver == r ==> u == t
    ensures !Coming(Next(s, Scan(t.sender), hash), r, f, hash)
  {
    var s' := Next(s, Scan(t.sender), hash);
    OwedIff(s, t.sender, r, f, hash);
    forall p ensures !Provides(s', p, r, f, hash) {
    }
  }

  /** Transfers have two ends. */
  lemma EndsDiffer(s: System, u: Transfer, ids: set<int>)
    requires Shape(s, ids) && s.failed.Some? && u in Plan(s.ring, s.failed.value)
    ensures u.sender != u.receiver && u.sender in s.ring && u.receiver in s.ring
  {
    ArcStartsAtPeer(s.ring, s.failed.value, u);
    PlanEnds(s.ring, s.failed.value);
    var plan := Plan(s.ring, s.failed.value);
    hide Plan;
    assert u == plan[0] || u == plan[1] || u == plan[2];
  }

  /** A holder has looked, owes a copy to the sender, and delivers it before the sender looks. */
  lemma CopyThenLook(s: System, t: Transfer, u: Transfer, r: int, f: File, hash: File -> int, ids: set<int>)
    returns (states: seq<System>, steps: seq<Step>)
    requires Shape(s, ids) && HasPeers(s) && IsNew(s, r, f, hash) && Protected(f, hash, ids)
    requires IsCovering(s, t, r, hash(f)) && u in Plan(s.ring, s.failed.value) && Aims(u, t.sender, hash(f))
    requires s.scanned == {u.sender} && (u.sender, t.sender, f) in s.owed && (u.sender, r, f) !in s.owed
    requires OnDisk(s, u.sender, f) && !Holds(s, r, f)
    ensures Fails(states, steps, s, r, f, hash)
  {
    EndsDiffer(s, u, ids);
    CoveringAsks(s, t, r, f, hash, ids);
    var step := Deliver(u.sender, t.sender, f);
    var s' := Next(s, step, hash);
    ShapeKept(s, step, hash, ids);
    assert !OnDisk(s', t.sender, f) && !Holds(s', r, f);
    assert s'.owed == s.owed - {(u.sender, t.sender, f)};
    var more, rest := LookTooEarly(s', t, r, f, hash, ids);
    states, steps := FailsBefore(s, step, more, rest, r, f, hash);
  }

  lemma HolderLooks(s: System, t: Transfer, u: Transfer, r: int, f: File, hash: File -> int, ids: set<int>)
    returns (states: seq<System>, steps: seq<Step>)
    requires Shape(s, ids) && HasPeers(s) && IsNew(s, r, f, hash) && Protected(f, hash, ids)
    requires IsCovering(s, t, r, hash(f)) && u in Plan(s.ring, s.failed.value) && Aims(u, t.sender, hash(f))
    requires s.scanned == {} && s.owed == {} && OnDisk(s, u.sender, f) && !Holds(s, r, f)
    ensures Fails(states, steps, s, r, f, hash)
  {
    EndsDiffer(s, u, ids);
    var covering := TheCovering(s, r, f, hash, ids);
    var p := u.sender;
    var s' := Next(s, Scan(p), hash);
    ShapeKept(s, Scan(p), hash, ids);
    OwedIff(s, p, t.sender, f, hash);
    OwedIff(s, p, r, f, hash);
    assert Sends(u, p, t.sender, hash(f));
    assert s'.scanned == {p} && s'.owed == Owed(s, p, hash);
    hide Owed;
    var more, rest := CopyThenLook(s', t, u, r, f, hash, ids);
    states, steps := FailsBefore(s, Scan(p), more, rest, r, f, hash);
  }

  lemma HolderFlushes(s: System, t: Transfer, u: Transfer, r: int, f: File, hash: File -> int, ids: set<int>)
    returns (states: seq<System>, steps: seq<Step>)
    requires Shape(s, ids) && HasPeers(s) && IsNew(s, r, f, hash) && Protected(f, hash, ids)
    requires IsCovering(s, t, r, hash(f)) && u in Plan(s.ring, s.failed.value) && Aims(u, t.sender, hash(f))
    requires s.scanned == {} && s.owed == {} && Holds(s, u.sender, f) && !Holds(s, r, f)
    ensures Fails(states, steps, s, r, f, hash)
  {
    EndsDiffer(s, u, ids);
    var s' := Next(s, Flush(u.sender), hash);
    ShapeKept(s, Flush(u.sender), hash, ids);
    var more, rest := HolderLooks(s', t, u, r, f, hash, ids);
    states, steps := FailsBefore(s, Flush(u.sender), more, rest, r, f, hash);
  }

  lemma UnreadyCanFail(s: System, r: int, f: File, hash: File -> int, ids: set<int>)
    returns (states: seq<System>, steps: seq<Step>)
    requires Shape(s, ids) && HasPeers(s) && s.scanned == {} && s.owed == {}
    requires Due(s, r, f, hash, ids) && !Ready(s, r, f, hash)
    ensures Fails(states, steps, s, r, f, hash)
  {
    var t := TheCovering(s, r, f, hash, ids);
    if !OnDisk(s, t.sender, f) {
      CoveringAsks(s, t, r, f, hash, ids);
      states, steps := LookTooEarly(s, t, r, f, hash, ids);
    } else {
      var u :| u in Plan(s.ring, s.failed.value) && Aims(u, t.sender, hash(f)) && Holds(s, u.sender, f);
      states, steps := HolderFlushes(s, t, u, r, f, hash, ids);
    }
  }

  /** One file and one peer: every schedule of the repair ends with f at r exactly when f was ready for r. */
  lemma ReadyIff(s: System, r: int, f: File, hash: File -> int, ids: set<int>)
    requires Mid(s, hash, ids) && HasPeers(s) && s.scanned == {} && s.owed == {} && Due(s, r, f, hash, ids)
    ensures (forall states, steps :: Repairs(states, steps, s, hash) ==> Holds(states[|steps|], r, f))
       <==> Ready(s, r, f, hash)
  {
    if Ready(s, r, f, hash) {
      forall states, steps | Repairs(states, steps, s, hash) ensures Holds(states[|steps|], r, f) {
        ReadyIsServed(states, steps, s, r, f, hash, ids);
      }
    } else {
      var states, steps := UnreadyCanFail(s, r, f, hash, ids);
      assert Repairs(states, steps, s, hash);
    }
  }

  // ----- all files at once -----

  /** Every due repair is settled. */
  ghost predicate AllSettled(s: System, hash: File -> int, ids: set<int>)
    requires s.failed.Some?
  {
    forall r, f, t :: Due(s, r, f, hash, ids) && IsCovering(s, t, r, hash(f)) ==> Settled(s, t, r, f, hash)
  }

  lemma AllSettledKept(s: System, step: Step, hash: File -> int, ids: set<int>)
    requires Mid(s, hash, ids) && AllSettled(s, hash, ids) && Enabled(s, step) && step != Finish
    ensures Mid(Next(s, step, hash), hash, ids) && AllSettled(Next(s, step, hash), hash, ids)
  {
    MidKept(s, step, hash, ids);
    var s' := Next(s, step, hash);
    forall r, f, t | Due(s', r, f, hash, ids) && IsCovering(s', t, r, hash(f)) ensures Settled(s', t, r, f, hash) {
      if f in s.files {
        SettledKept(s, step, t, r, f, hash, ids);
      } else {
        WriteReaches(s, f, hash, r);
      }
    }
  }

  lemma PreparedSettles(s: System, hash: File -> int, ids: set<int>)
    requires Mid(s, hash, ids) && s.scanned == {} && s.owed == {} && Prepared(s, hash, ids)
    ensures AllSettled(s, hash, ids)
  {
    forall r, f, t | Due(s, r, f, hash, ids) && IsCovering(s, t, r, hash(f)) ensures Settled(s, t, r, f, hash) {
      var only := TheCovering(s, r, f, hash, ids);
    }
  }

  lemma SettledFinish(s: System, hash: File -> int, ids: set<int>)
    requires Mid(s, hash, ids) && AllSettled(s, hash, ids) && Enabled(s, Finish)
    ensures Replicated(Next(s, Finish, hash), hash, ids)
  {
    var s' := Next(s, Finish, hash);
    forall g, p | g in s.files && Protected(g, hash, ids) && p in Route(s.ring, hash(g)) ensures Holds(s', p, g) {
      if !InBoth(s.ring, s.failed.value, hash(g), p) {
        var t := TheCovering(s, p, g, hash, ids);
        SettledAtFinish(s, t, p, g, hash, ids);
      }
    }
  }

  lemma {:induction false} AllSettledAlong(states: seq<System>, steps: seq<Step>, hash: File -> int, ids: set<int>,
                                           from: nat, n: nat)
    requires IsPath(states, steps, hash) && from <= n < |states|
    requires Mid(states[from], hash, ids) && AllSettled(states[from], hash, ids)
    requires forall k :: from <= k < n ==> steps[k] != Finish
    ensures Mid(states[n], hash, ids) && AllSettled(states[n], hash, ids) && states[n].ring == states[from].ring
  {
    hide Next;
    hide Enabled;
    hide Mid;
    hide AllSettled;
    if n > from {
      AllSettledAlong(states, steps, hash, ids, from, n - 1);
      MidKept(states[n - 1], steps[n - 1], hash, ids);
      AllSettledKept(states[n - 1], steps[n - 1], hash, ids);
    }
  }

  /** The whole failure: every schedule of its repair ends with every protected file on all three peers of its route
      exactly when the failure found the store prepared. */
  lemma SurvivedIff(s: System, hash: File -> int, ids: set<int>)
    requires Mid(s, hash, ids) && HasPeers(s) && s.scanned == {} && s.owed == {}
    ensures (forall states, steps :: Repairs(states, steps, s, hash) ==> Replicated(states[|steps|], hash, ids))
       <==> Prepared(s, hash, ids)
  {
    if Prepared(s, hash, ids) {
      PreparedSettles(s, hash, ids);
      forall states, steps | Repairs(states, steps, s, hash) ensures Replicated(states[|steps|], hash, ids) {
        AllSettledAlong(states, steps, hash, ids, 0, |steps| - 1);
        SettledFinish(states[|steps| - 1], hash, ids);
      }
    } else {
      var r, f :| Due(s, r, f, hash, ids) && !Ready(s, r, f, hash);
      var states, steps := UnreadyCanFail(s, r, f, hash, ids);
      assert Repairs(states, steps, s, hash);
      assert !Replicated(states[|steps|], hash, ids);
    }
  }

  // ----- whole runs -----

  /** Every failure whose repair is over by step n found the store prepared. Failures and finishes alternate, so that a
      failure before a finish has been repaired. */
  ghost predicate FailuresPrepared(states: seq<System>, steps: seq<Step>, hash: File -> int, ids: set<int>, n: nat)
    requires n < |states| == |steps| + 1
  {
    forall k, m :: 0 <= k < m < n && steps[k].Fail? && steps[m] == Finish ==> Prepared(states[k + 1], hash, ids)
  }

  /** What holds throughout: full replication when no repair is going on, and the old holders' copies when one is. */
  ghost predicate Half(s: System, hash: File -> int, ids: set<int>) {
    && Shape(s, ids)
    && if s.failed.Some? then KeptByOld(s, hash, ids) && OwedPlanned(s, hash)
       else Replicated(s, hash, ids) && s.owed == {}
  }

  lemma {:induction false} LastFailure(states: seq<System>, steps: seq<Step>, hash: File -> int, n: nat)
    returns (k: nat)
    requires IsPath(states, steps, hash) && n < |states| && states[0].failed.None? && states[n].failed.Some?
    ensures k < n && steps[k].Fail? && forall j :: k < j < n ==> steps[j] != Finish
    ensures states[k + 1].failed.Some? && states[k + 1].scanned == {} && states[k + 1].owed == {}
  {
    if steps[n - 1].Fail? {
      k := n - 1;
    } else {
      k := LastFailure(states, steps, hash, n - 1);
    }
  }

  lemma HalfStep(s: System, step: Step, hash: File -> int, ids: set<int>)
    requires Half(s, hash, ids) && Enabled(s, step) && step != Finish
    ensures Half(Next(s, step, hash), hash, ids)
  {
    if s.failed.Some? {
      MidKept(s, step, hash, ids);
    } else if step.Fail? {
      FailKeeps(s, step.peer, hash, ids);
    } else {
      QuietWriteKeeps(s, step, hash, ids);
    }
  }

  lemma {:induction false} HalfRun(states: seq<System>, steps: seq<Step>, hash: File -> int, ids: set<int>, n: nat)
    requires IsRun(states, steps, hash) && n < |states| && ids == PeersOf(states[0])
    requires FailuresPrepared(states, steps, hash, ids, n)
    ensures Half(states[n], hash, ids)
  {
    if n > 0 {
      HalfRun(states, steps, hash, ids, n - 1);
      if steps[n - 1] == Finish {
        var k := LastFailure(states, steps, hash, n - 1);
        HalfRun(states, steps, hash, ids, k + 1);
        PreparedSettles(states[k + 1], hash, ids);
        AllSettledAlong(states, steps, hash, ids, k + 1, n - 1);
        SettledFinish(states[n - 1], hash, ids);
        ShapeKept(states[n - 1], Finish, hash, ids);
      } else {
        HalfStep(states[n - 1], steps[n - 1], hash, ids);
      }
    }
  }

  /** In every run whose failures each found the store prepared, and under every schedule of their repairs: whenever no
      failure is being repaired, all three peers of the current route of every protected file hold it. */
  lemma ReplicationIsKept(states: seq<System>, steps: seq<Step>, hash: File -> int, n: nat, f: File, p: int)
    requires IsRun(states, steps, hash) && n < |states|
    requires FailuresPrepared(states, steps, hash, PeersOf(states[0]), n)
    requires states[n].failed.None? && f in states[n].files && Protected(f, hash, PeersOf(states[0]))
    requires p in Route(states[n].ring, hash(f))
    ensures Holds(states[n], p, f)
  {
    HalfRun(states, steps, hash, PeersOf(states[0]), n);
  }

  /** And at every point of such a run, even between a failure and its repair, two of them do. What the failure being
      repaired found makes no difference to that, so up to the end of the first repair nothing is asked. */
  lemma TwoCopiesAlways(states: seq<System>, steps: seq<Step>, hash: File -> int, n: nat, f: File)
    requires IsRun(states, steps, hash) && n < |states|
    requires FailuresPrepared(states, steps, hash, PeersOf(states[0]), n)
    requires f in states[n].files && Protected(f, hash, PeersOf(states[0]))
    ensures exists a, b :: a != b && a in Route(states[n].ring, hash(f)) && b in Route(states[n].ring, hash(f))
                       && Holds(states[n], a, f) && Holds(states[n], b, f)
  {
    var s, h, ids := states[n], hash(f), PeersOf(states[0]);
    HalfRun(states, steps, hash, ids, n);
    RouteIsPrefix(s.ring, h);
    SuccessorsDistinct(s.ring, h);
    var r := Route(s.ring, h);
    assert r[0] in r && r[1] in r && r[2] in r;
    if s.failed.None? {
      assert Holds(s, r[0], f) && Holds(s, r[1], f);
    } else {
      var x := s.failed.value;
      PlanIsExact(s.ring, x, h);
      var before := Route(Insert(s.ring, x), h);
      // At most one peer of the route is new.
      if r[0] in before {
        var b := if r[1] in before then r[1] else r[2];
        assert InBoth(s.ring, x, h, r[0]) && InBoth(s.ring, x, h, b);
      } else {
        assert InBoth(s.ring, x, h, r[1]) && InBoth(s.ring, x, h, r[2]);
      }
    }
  }

  // ----- a tidy store -----

  /** Everything is flushed, and no peer has a file that is not routed to it. */
  ghost predicate Tidy(s: System, hash: File -> int) {
    forall p :: p in s.ring ==> p in s.peers && s.peers[p].log == {} && NoSpares(s, p, hash)
  }

  ghost predicate NoSpares(s: System, p: int, hash: File -> int) {
    forall f :: Holds(s, p, f) ==> p in Route(s.ring, hash(f))
  }

  /** A peer fails in a store that is fully replicated and tidy. */
  ghost predicate TidyFailure(s: System, x: int, hash: File -> int, ids: set<int>) {
    && Shape(s, ids) && s.failed.None? && s.owed == {} && Replicated(s, hash, ids) && Tidy(s, hash)
    && Enabled(s, Fail(x))
  }

  lemma TidySenders(s: System, x: int, t: Transfer, r: int, f: File, hash: File -> int, ids: set<int>)
    requires TidyFailure(s, x, hash, ids)
    requires var s' := Next(s, Fail(x), hash); Due(s', r, f, hash, ids) && IsCovering(s', t, r, hash(f))
    ensures var s' := Next(s, Fail(x), hash);
            && Shape(s', ids) && Insert(s'.ring, x) == s.ring && |s'.ring| == |s.ring| - 1
            && OnDisk(s', t.sender, f) && !Holds(s', r, f)
            && forall p :: p in s'.ring ==> (Holds(s', p, f) <==> p in Route(s.ring, hash(f)))
  {
    var s' := Next(s, Fail(x), hash);
    ShapeKept(s, Fail(x), hash, ids);
    RemoveThenInsert(s.ring, x);
    WithoutKeeps(s.ring, x);
    hide Without;
    hide Plan;
    hide Insert;
    PlanIsExact(s'.ring, x, hash(f));
    RouteOnRing(s'.ring, hash(f));
    assert t.sender in Route(s.ring, hash(f)) && t.sender in s'.ring;
    assert forall p :: p in s'.ring ==> p in s.ring && p != x && s'.peers[p] == s.peers[p];
  }

  /** With four survivors or more every tidy failure finds the store prepared. */
  lemma FourSurvivorsArePrepared(s: System, x: int, hash: File -> int, ids: set<int>)
    requires TidyFailure(s, x, hash, ids) && |s.ring| >= 5
    ensures Prepared(Next(s, Fail(x), hash), hash, ids)
  {
    var s' := Next(s, Fail(x), hash);
    ShapeKept(s, Fail(x), hash, ids);
    forall r, f | Due(s', r, f, hash, ids) ensures Ready(s', r, f, hash) {
      var t := TheCovering(s', r, f, hash, ids);
      TidySenders(s, x, t, r, f, hash, ids);
      forall u | u in Plan(s'.ring, x) && Aims(u, t.sender, hash(f)) ensures !Holds(s', u.sender, f) {
        OnlyTheLastArc(s', t, u, r, f, hash, ids);
      }
    }
  }

  lemma PlanMember(ring: seq<int>, x: int, t: Transfer)
    requires |Plan(ring, x)| == 3 && t in Plan(ring, x)
    ensures var plan := Plan(ring, x); t == plan[0] || t == plan[1] || t == plan[2]
  {
  }

  /** With four survivors the only peer with a transfer aimed at the covering sender is the nearest predecessor, when
      the file is in the last arc, and then it was not on the route. */
  lemma OnlyTheLastArc(s: System, t: Transfer, u: Transfer, r: int, f: File, hash: File -> int, ids: set<int>)
    requires Shape(s, ids) && |s.ring| >= 4 && IsCovering(s, t, r, hash(f))
    requires u in Plan(s.ring, s.failed.value) && u.receiver == t.sender
    ensures u.sender in s.ring && u.sender !in Route(Insert(s.ring, s.failed.value), hash(f))
  {
    EndsDiffer(s, u, ids);
    PlanEnds(s.ring, s.failed.value);
    EndsOnRoute(s.ring, s.failed.value, hash(f));
    PlanMember(s.ring, s.failed.value, t);
    PlanMember(s.ring, s.failed.value, u);
    hide Plan;
    hide Route;
    hide Insert;
    hide Covers;
  }

  /** Who may send a copy to whom with three survivors. */
  lemma AimedWithThree(s: System, t: Transfer, u: Transfer, r: int, h: int, ids: set<int>)
    requires Shape(s, ids) && |s.ring| == 3 && IsCovering(s, t, r, h) && u in Plan(s.ring, s.failed.value)
    ensures |Plan(s.ring, s.failed.value)| == 3
    ensures var plan, before := Plan(s.ring, s.failed.value), Route(Insert(s.ring, s.failed.value), h);
            && (u.receiver == t.sender && u.sender in before && u.sender != r ==> Covers(plan[1], h) && u == plan[2])
            && (Covers(plan[1], h) ==> plan[2].receiver == t.sender && plan[2].sender in before && plan[2].sender != r)
  {
    PlanEnds(s.ring, s.failed.value);
    EndsOnRoute(s.ring, s.failed.value, h);
    PlanIsExact(s.ring, s.failed.value, h);
    PlanMember(s.ring, s.failed.value, t);
    PlanMember(s.ring, s.failed.value, u);
    hide Plan;
    hide Route;
    hide Insert;
    hide Covers;
  }

  /** With three survivors a file of a tidy failure is at risk exactly when it is in the middle arc and the selection
      for the last arc takes it too. */
  lemma ThreeSurvivorsIff(s: System, x: int, r: int, f: File, hash: File -> int, ids: set<int>)
    requires TidyFailure(s, x, hash, ids) && |s.ring| == 4
    requires Due(Next(s, Fail(x), hash), r, f, hash, ids)
    ensures var s', plan := Next(s, Fail(x), hash), Plan(Without(s.ring, x), x);
            |plan| == 3
            && (Ready(s', r, f, hash)
                <==> !(Covers(plan[1], hash(f)) && Selected(hash(f), plan[2].fromFile, plan[2].toFile)))
  {
    var s', h := Next(s, Fail(x), hash), hash(f);
    ShapeKept(s, Fail(x), hash, ids);
    var t := TheCovering(s', r, f, hash, ids);
    TidySenders(s, x, t, r, f, hash, ids);
    NoneAimedWithThree(s', t, r, f, hash, ids);
    hide Plan;
    hide Route;
    hide Insert;
    hide Without;
    hide NoneAimed;
  }

  lemma NoneAimedWithThree(s: System, t: Transfer, r: int, f: File, hash: File -> int, ids: set<int>)
    requires Shape(s, ids) && |s.ring| == 3 && IsCovering(s, t, r, hash(f)) && !Holds(s, r, f)
    requires forall p :: p in s.ring ==> (Holds(s, p, f) <==> p in Route(Insert(s.ring, s.failed.value), hash(f)))
    ensures var plan := Plan(s.ring, s.failed.value);
            && |plan| == 3
            && (NoneAimed(s, t.sender, f, hash)
                <==> !(Covers(plan[1], hash(f)) && Selected(hash(f), plan[2].fromFile, plan[2].toFile)))
  {
    var plan := Plan(s.ring, s.failed.value);
    PlanEnds(s.ring, s.failed.value);
    forall u | u in plan ensures u.sender in s.ring && u.receiver in s.ring {
      EndsDiffer(s, u, ids);
    }
    forall u | u in plan && Aims(u, t.sender, hash(f)) && Holds(s, u.sender, f)
      ensures Covers(plan[1], hash(f)) && u == plan[2]
    {
      AimedWithThree(s, t, u, r, hash(f), ids);
    }
    AimedWithThree(s, t, plan[2], r, hash(f), ids);
    assert plan[2] in plan;
  }

  // ----- the first failure of a run -----

  lemma {:induction false} TidyBeforeFailure(states: seq<System>, steps: seq<Step>, hash: File -> int, ids: set<int>,
                                             n: nat)
    requires IsRun(states, steps, hash) && n < |states| && ids == PeersOf(states[0])
    requires forall p :: p in states[0].ring ==> NoSpares(states[0], p, hash)
    requires forall j :: 0 <= j < n ==> !steps[j].Fail?
    ensures Shape(states[n], ids) && states[n].failed.None? && states[n].owed == {} && Replicated(states[n], hash, ids)
    ensures states[n].ring == states[0].ring && forall p :: p in states[n].ring ==> NoSpares(states[n], p, hash)
  {
    if n > 0 {
      TidyBeforeFailure(states, steps, hash, ids, n - 1);
      HalfStep(states[n - 1], steps[n - 1], hash, ids);
      NoSparesKept(states[n - 1], steps[n - 1], hash);
    }
  }

  lemma NoSparesKept(s: System, step: Step, hash: File -> int)
    requires HasPeers(s) && s.failed.None? && Enabled(s, step) && !step.Fail?
    requires forall p :: p in s.ring ==> NoSpares(s, p, hash)
    ensures forall p :: p in s.ring ==> NoSpares(Next(s, step, hash), p, hash)
  {
    var s' := Next(s, step, hash);
    forall p, f | p in s.ring && Holds(s', p, f) ensures p in Route(s'.ring, hash(f)) {
      assert Holds(s, p, f) || (step.Write? && step.file == f);
    }
  }

  /** The first failure of a run that starts without spare copies, with four survivors or more and everything flushed
      when it happens: up to the second failure all three peers of every protected file's route hold it whenever no
      repair is going on, whatever the schedule. */
  lemma FirstFailureIsSurvived(states: seq<System>, steps: seq<Step>, hash: File -> int, k: nat, n: nat, f: File,
                               p: int)
    requires IsRun(states, steps, hash) && k < n < |states|
    requires forall q :: q in states[0].ring ==> NoSpares(states[0], q, hash)
    requires forall j :: 0 <= j < n ==> (steps[j].Fail? <==> j == k)
    requires |states[0].ring| >= 5 && forall q :: q in states[k].ring ==> states[k].peers[q].log == {}
    requires states[n].failed.None? && f in states[n].files && Protected(f, hash, PeersOf(states[0]))
    requires p in Route(states[n].ring, hash(f))
    ensures Holds(states[n], p, f)
  {
    var ids := PeersOf(states[0]);
    TidyBeforeFailure(states, steps, hash, ids, k);
    FourSurvivorsArePrepared(states[k], steps[k].peer, hash, ids);
    ReplicationIsKept(states, steps, hash, n, f, p);
  }
}
