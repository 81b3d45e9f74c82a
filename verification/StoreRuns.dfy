/** The file store over whole runs: writes, flushes, failures one at a time, and their repair. */
module StoreRuns {
  import opened Entries
  import opened Files
  import opened Ring
  import opened RepairPlan
  import opened Replication

  datatype Option<T> = None | Some(value: T)

  // Files flushed to the directory, and files with entries still in the append-only logs.
  datatype Peer = Peer(disk: set<File>, log: set<File>)

  /** ring: live peers; failed: the failure being repaired; scanned: peers that have read their directory for it;
      owed: transfers decided on and not yet attempted. */
  datatype System = System(ring: seq<int>, peers: map<int, Peer>, files: set<File>, failed: Option<int>,
                           scanned: set<int>, owed: set<(int, int, File)>)

  datatype Step =
    | Write(file: File)
    | Flush(peer: int)
    | Fail(peer: int)
    | Scan(peer: int)
    | Deliver(sender: int, receiver: int, file: File)
    | Miss(sender: int, receiver: int, file: File)
    | Finish

  predicate OnDisk(s: System, p: int, f: File) {
    p in s.peers && f in s.peers[p].disk
  }

  predicate Holds(s: System, p: int, f: File) {
    p in s.peers && (f in s.peers[p].disk || f in s.peers[p].log)
  }

  function Owed(s: System, p: int, hash: File -> int): set<(int, int, File)>
    requires s.failed.Some? && p in s.peers
  {
    var plan := Plan(s.ring, s.failed.value);
    set t, f | t in plan && t.sender == p && f in s.peers[p].disk
               && Selected(hash(f), t.fromFile, t.toFile) && !IsCsv(f) :: (p, t.receiver, f)
  }

  predicate Enabled(s: System, step: Step) {
    match step
    case Write(f) => true
    case Flush(p) => p in s.ring
    // The next failure comes when the last one has been repaired, and three peers remain.
    case Fail(x) => x in s.ring && |s.ring| >= 4 && s.failed.None?
    case Scan(p) => s.failed.Some? && p in s.ring && p !in s.scanned
    // The sender opens its flushed copy when it sends; an attempt that finds none is given up.
    case Deliver(from, to, f) => s.failed.Some? && (from, to, f) in s.owed && to in s.ring && OnDisk(s, from, f)
    case Miss(from, to, f) => s.failed.Some? && (from, to, f) in s.owed && !(to in s.ring && OnDisk(s, from, f))
    case Finish => s.failed.Some? && (forall p :: p in s.ring ==> p in s.scanned) && s.owed == {}
  }

  // An entry for f reaches the logs of the three peers that f is routed to.
  function LogAt(peers: map<int, Peer>, route: seq<int>, f: File): map<int, Peer> {
    map p | p in peers :: if p in route then peers[p].(log := peers[p].log + {f}) else peers[p]
  }

  /** The receiver drops its flushed copy and logs the sent one. */
  function Receive(s: System, from: int, to: int, f: File): System
    requires to in s.peers
  {
    var was := s.peers[to];
    s.(peers := s.peers[to := Peer(was.disk - {f}, was.log + {f})], owed := s.owed - {(from, to, f)})
  }

  ghost predicate HasPeers(s: System) {
    forall p :: p in s.ring ==> p in s.peers
  }

  function Next(s: System, step: Step, hash: File -> int): System
    requires Enabled(s, step) && HasPeers(s)
  {
    match step
    case Write(f) =>
      s.(peers := LogAt(s.peers, Route(s.ring, hash(f)), f), files := s.files + {f})
    case Flush(p) =>
      s.(peers := s.peers[p := Peer(s.peers[p].disk + s.peers[p].log, {})])
    case Fail(x) =>
      s.(ring := Without(s.ring, x), peers := s.peers - {x}, failed := Some(x), scanned := {}, owed := {})
    case Scan(p) =>
      s.(scanned := s.scanned + {p}, owed := s.owed + Owed(s, p, hash))
    case Deliver(from, to, f) =>
      Receive(s, from, to, f)
    case Miss(from, to, f) =>
      s.(owed := s.owed - {(from, to, f)})
    case Finish =>
      s.(failed := None)
  }

  // ----- what a repair still has to give -----

  /** r is on f's route now and was not before the failure. */
  ghost predicate IsNew(s: System, r: int, f: File, hash: File -> int) {
    && s.failed.Some? && r in Route(s.ring, hash(f))
    && r !in Route(Insert(s.ring, s.failed.value), hash(f))
  }

  /** p can still send f to r: it owes f and has it flushed, or it has not looked yet and will be asked. */
  ghost predicate Provides(s: System, p: int, r: int, f: File, hash: File -> int) {
    && s.failed.Some? && p in s.ring
    && if p in s.scanned then (p, r, f) in s.owed && OnDisk(s, p, f)
       else Holds(s, p, f) && Asked(Plan(s.ring, s.failed.value), p, r, hash(f)) && !IsCsv(f)
  }

  ghost predicate ProvidesAlone(s: System, p: int, r: int, f: File, hash: File -> int) {
    Provides(s, p, r, f, hash) && forall q :: Provides(s, q, r, f, hash) ==> q == p
  }

  ghost predicate Coming(s: System, r: int, f: File, hash: File -> int) {
    Holds(s, r, f) || exists p :: Provides(s, p, r, f, hash)
  }

  /** The two ways to lose f for r. A copy of f is sent to the only peer that still owes f to r, which deletes the
      flushed file that peer was to send. Or the only peer that has not looked yet looks while f is in its logs
      only. */
  ghost predicate Spoils(s: System, step: Step, r: int, f: File, hash: File -> int) {
    && !Holds(s, r, f)
    && match step
       case Deliver(from, to, g) => g == f && to != r && to in s.scanned && ProvidesAlone(s, to, r, f, hash)
       case Scan(p) => !OnDisk(s, p, f) && ProvidesAlone(s, p, r, f, hash)
       case Write(_) => false
       case Flush(_) => false
       case Fail(_) => false
       case Miss(_, _, _) => false
       case Finish => false
  }

  lemma OwedIff(s: System, p: int, r: int, f: File, hash: File -> int)
    requires s.failed.Some? && p in s.peers
    ensures (p, r, f) in Owed(s, p, hash)
       <==> OnDisk(s, p, f) && Asked(Plan(s.ring, s.failed.value), p, r, hash(f)) && !IsCsv(f)
  {
    var plan := Plan(s.ring, s.failed.value);
    if t :| t in plan && Sends(t, p, r, hash(f)) {
    }
  }

  lemma ScanComing(s: System, q: int, r: int, f: File, hash: File -> int)
    requires HasPeers(s) && Enabled(s, Scan(q)) && Coming(s, r, f, hash)
    ensures Coming(Next(s, Scan(q), hash), r, f, hash) <==> !Spoils(s, Scan(q), r, f, hash)
  {
    var s' := Next(s, Scan(q), hash);
    OwedIff(s, q, r, f, hash);
    forall p | p != q ensures Provides(s', p, r, f, hash) <==> Provides(s, p, r, f, hash) {
      assert (p, r, f) in s'.owed <==> (p, r, f) in s.owed;
    }
    assert Provides(s, q, r, f, hash) && OnDisk(s, q, f) ==> Provides(s', q, r, f, hash);
    assert Holds(s', r, f) <==> Holds(s, r, f);
  }

  lemma DeliverComing(s: System, from: int, to: int, g: File, r: int, f: File, hash: File -> int)
    requires HasPeers(s) && Enabled(s, Deliver(from, to, g)) && Coming(s, r, f, hash)
    ensures Coming(Next(s, Deliver(from, to, g), hash), r, f, hash) <==> !Spoils(s, Deliver(from, to, g), r, f, hash)
  {
    var s' := Next(s, Deliver(from, to, g), hash);
    if g == f && to == r {
      assert Holds(s', r, f);
    } else {
      assert Holds(s', r, f) <==> Holds(s, r, f);
      forall p | p != to || g != f ensures Provides(s', p, r, f, hash) <==> Provides(s, p, r, f, hash) {
        assert (p, r, f) in s'.owed <==> (p, r, f) in s.owed;
      }
      assert to !in s.scanned && Provides(s, to, r, f, hash) ==> Provides(s', to, r, f, hash);
    }
  }

  lemma MissComing(s: System, from: int, to: int, g: File, r: int, f: File, hash: File -> int)
    requires HasPeers(s) && Enabled(s, Miss(from, to, g)) && Coming(s, r, f, hash) && r in s.ring
    ensures Coming(Next(s, Miss(from, to, g), hash), r, f, hash)
  {
    var s' := Next(s, Miss(from, to, g), hash);
    forall p ensures Provides(s, p, r, f, hash) ==> Provides(s', p, r, f, hash) {
    }
  }

  lemma WriteComing(s: System, g: File, r: int, f: File, hash: File -> int)
    requires HasPeers(s) && s.failed.Some? && Coming(s, r, f, hash)
    ensures Coming(Next(s, Write(g), hash), r, f, hash)
  {
    var s' := Next(s, Write(g), hash);
    forall p ensures Provides(s, p, r, f, hash) ==> Provides(s', p, r, f, hash) {
    }
  }

  lemma FlushComing(s: System, q: int, r: int, f: File, hash: File -> int)
    requires HasPeers(s) && q in s.ring && s.failed.Some? && Coming(s, r, f, hash)
    ensures Coming(Next(s, Flush(q), hash), r, f, hash)
  {
    var s' := Next(s, Flush(q), hash);
    forall p ensures Provides(s, p, r, f, hash) ==> Provides(s', p, r, f, hash) {
    }
  }

  lemma FinishComing(s: System, r: int, f: File, hash: File -> int)
    requires HasPeers(s) && Enabled(s, Finish) && Coming(s, r, f, hash)
    ensures Holds(Next(s, Finish, hash), r, f)
  {
    assert forall p :: p in s.ring ==> p in s.scanned && (p, r, f) !in s.owed;
    assert forall p :: !Provides(s, p, r, f, hash);
  }

  /** While a failure is being repaired, a step loses what was coming to r exactly when it spoils it. */
  lemma ComingKeptIff(s: System, step: Step, r: int, f: File, hash: File -> int)
    requires HasPeers(s) && Enabled(s, step) && s.failed.Some? && step != Finish
    requires r in s.ring && Coming(s, r, f, hash)
    ensures Coming(Next(s, step, hash), r, f, hash) <==> !Spoils(s, step, r, f, hash)
  {
    match step
    case Write(g) => WriteComing(s, g, r, f, hash);
    case Flush(q) => FlushComing(s, q, r, f, hash);
    case Scan(q) => ScanComing(s, q, r, f, hash);
    case Deliver(from, to, g) => DeliverComing(s, from, to, g, r, f, hash);
    case Miss(from, to, g) => MissComing(s, from, to, g, r, f, hash);
  }

  // ----- the invariant -----

  /** Files the store promises to keep: not CSV inputs, and not hashed onto a peer id. */
  predicate Protected(f: File, hash: File -> int, ids: set<int>) {
    !IsCsv(f) && hash(f) !in ids
  }

  ghost predicate InBoth(ring: seq<int>, x: int, h: int, p: int) {
    p in Route(ring, h) && p in Route(Insert(ring, x), h)
  }

  /** A protected file and a peer that its repair is to give it to. */
  ghost predicate Due(s: System, r: int, f: File, hash: File -> int, ids: set<int>) {
    f in s.files && Protected(f, hash, ids) && IsNew(s, r, f, hash)
  }

  ghost predicate Replicated(s: System, hash: File -> int, ids: set<int>) {
    forall f, p :: f in s.files && Protected(f, hash, ids) && p in Route(s.ring, hash(f)) ==> Holds(s, p, f)
  }

  /** The peers that stay on a route keep their copies. */
  ghost predicate KeptByOld(s: System, hash: File -> int, ids: set<int>)
    requires s.failed.Some?
  {
    forall f, p :: f in s.files && Protected(f, hash, ids) && InBoth(s.ring, s.failed.value, hash(f), p) ==>
                     Holds(s, p, f)
  }

  ghost predicate AllComing(s: System, hash: File -> int, ids: set<int>) {
    forall r, f :: Due(s, r, f, hash, ids) ==> Coming(s, r, f, hash)
  }

  ghost predicate OwedByScanned(s: System) {
    forall p, r, f :: (p, r, f) in s.owed ==> p in s.ring && p in s.scanned
  }

  ghost predicate Shape(s: System, ids: set<int>) {
    && StrictlyAscending(s.ring) && |s.ring| >= 3
    && (forall p :: p in s.ring ==> p in s.peers && p in ids)
    && (s.failed.Some? ==> s.failed.value !in s.ring && s.failed.value in ids)
    && OwedByScanned(s)
  }

  ghost predicate Inv(s: System, hash: File -> int, ids: set<int>) {
    && Shape(s, ids)
    && if s.failed.None? then Replicated(s, hash, ids) else KeptByOld(s, hash, ids) && AllComing(s, hash, ids)
  }

  /** The step spoils no repair that is due. */
  ghost predicate Careful(s: System, step: Step, hash: File -> int, ids: set<int>) {
    forall r, f :: Due(s, r, f, hash, ids) ==> !Spoils(s, step, r, f, hash)
  }

  lemma RouteOnRing(ring: seq<int>, h: int)
    ensures forall p :: p in Route(ring, h) ==> p in ring
  {
    SuccessorsArePeers(ring, h);
    if ring != [] {
      var s := Successors(ring, h);
      assert s[0] in s && s[1 % |s|] in s && s[2 % |s|] in s;
    }
  }

  /** Every peer of the new route was on the old one, or is the receiver of a covering transfer. */
  lemma NewPeersAreReceivers(survivors: seq<int>, x: int, h: int, p: int)
    requires StrictlyAscending(survivors) && x !in survivors && |survivors| >= 3
    requires p in Route(survivors, h) && p !in Route(Insert(survivors, x), h)
    ensures exists t :: t in Plan(survivors, x) && Covers(t, h) && t.receiver == p
  {
    PlanIsExact(survivors, x, h);
    var plan := Plan(survivors, x);
    var i :| 0 <= i < 3 && Covers(plan[i], h);
    assert plan[i] in plan;
  }

  /** Arcs start at peer ids, so a protected file in the arc is always selected. */
  lemma ArcStartsAtPeer(survivors: seq<int>, x: int, t: Transfer)
    requires StrictlyAscending(survivors) && x !in survivors && |survivors| >= 3
    requires t in Plan(survivors, x)
    ensures t.fromFile == x || t.fromFile in survivors
    ensures t.sender in survivors && t.receiver in survivors
  {
    InsertIsRemoveInverse(survivors, x);
    PlanIsPlanAt(survivors, x);
    ReceiversSurviveIff(survivors, x);
    var full, k := Insert(survivors, x), |UpTo(survivors, x)|;
    WithoutKeeps(full, x);
    StartsAt(full, k, t);
  }

  lemma StartsAt(full: seq<int>, k: int, t: Transfer)
    requires StrictlyAscending(full) && |full| >= 4 && 0 <= k < |full| && t in PlanAt(full, k)
    ensures t.fromFile in full && t.sender in full && t.sender != full[k]
  {
    NotFailed(full, k);
  }

  lemma RemoveThenInsert(ring: seq<int>, x: int)
    requires StrictlyAscending(ring) && x in ring
    ensures Insert(Without(ring, x), x) == ring
    ensures |Without(ring, x)| == |ring| - 1
  {
    var k :| 0 <= k < |ring| && ring[k] == x;
    var rest := Without(ring, x);
    WithoutAt(ring, k);
    WithoutAscending(ring, x);
    Halves(ring, k, rest);
    InsertAtCut(rest, x, k);
    Rejoin(ring, k);
  }

  lemma Rejoin(ring: seq<int>, k: nat)
    requires k < |ring|
    ensures ring == ring[..k] + [ring[k]] + ring[k + 1..]
  {
  }

  lemma InsertAtCut(rest: seq<int>, x: int, k: nat)
    requires StrictlyAscending(rest) && k <= |rest|
    requires forall i :: 0 <= i < k ==> rest[i] <= x
    requires forall i :: k <= i < |rest| ==> rest[i] > x
    ensures Insert(rest, x) == rest[..k] + [x] + rest[k..]
  {
    CutIs(rest, x, k);
    InsertKeeps(rest, x);
  }

  lemma Halves(ring: seq<int>, k: nat, rest: seq<int>)
    requires StrictlyAscending(ring) && k < |ring| && rest == ring[..k] + ring[k + 1..]
    ensures forall i :: 0 <= i < k ==> rest[i] <= ring[k]
    ensures forall i :: k <= i < |rest| ==> rest[i] > ring[k]
    ensures rest[..k] == ring[..k] && rest[k..] == ring[k + 1..]
  {
    forall i | k <= i < |rest| ensures rest[i] > ring[k] {
      assert rest[i] == ring[i + 1];
    }
  }

  lemma ShapeKept(s: System, step: Step, hash: File -> int, ids: set<int>)
    requires Shape(s, ids) && Enabled(s, step)
    ensures Shape(Next(s, step, hash), ids)
  {
    if step.Fail? {
      RemoveThenInsert(s.ring, step.peer);
      WithoutKeeps(s.ring, step.peer);
      WithoutAscending(s.ring, step.peer);
    }
  }

  /** No step but a failure takes a file off a peer. */
  lemma HoldsKept(s: System, step: Step, hash: File -> int, p: int, f: File)
    requires HasPeers(s) && Enabled(s, step) && Holds(s, p, f) && !(step.Fail? && step.peer == p)
    ensures Holds(Next(s, step, hash), p, f)
  {
  }

  lemma WriteReaches(s: System, f: File, hash: File -> int, p: int)
    requires HasPeers(s) && p in Route(s.ring, hash(f))
    ensures Holds(Next(s, Write(f), hash), p, f)
  {
    RouteOnRing(s.ring, hash(f));
  }

  lemma FailKeeps(s: System, x: int, hash: File -> int, ids: set<int>)
    requires Inv(s, hash, ids) && Enabled(s, Fail(x))
    ensures Inv(Next(s, Fail(x), hash), hash, ids)
  {
    var s' := Next(s, Fail(x), hash);
    ShapeKept(s, Fail(x), hash, ids);
    RemoveThenInsert(s.ring, x);
    forall g, p | g in s'.files && Protected(g, hash, ids) && InBoth(s'.ring, x, hash(g), p) ensures Holds(s', p, g) {
      RouteOnRing(s'.ring, hash(g));
      HoldsKept(s, Fail(x), hash, p, g);
    }
    forall r, g | Due(s', r, g, hash, ids) ensures Coming(s', r, g, hash) {
      FailComing(s, x, r, g, hash, ids);
    }
  }

  /** Right after a failure the sender of the covering transfer can provide. */
  lemma FailComing(s: System, x: int, r: int, g: File, hash: File -> int, ids: set<int>)
    requires Inv(s, hash, ids) && Enabled(s, Fail(x)) && Insert(Without(s.ring, x), x) == s.ring
    requires var s' := Next(s, Fail(x), hash); Shape(s', ids) && Due(s', r, g, hash, ids)
    ensures Coming(Next(s, Fail(x), hash), r, g, hash)
  {
    var s', h := Next(s, Fail(x), hash), hash(g);
    hide Route;
    hide Insert;
    hide Plan;
    NewPeersAreReceivers(s'.ring, x, h, r);
    var t :| t in Plan(s'.ring, x) && Covers(t, h) && t.receiver == r;
    PlanIsExact(s'.ring, x, h);
    ArcStartsAtPeer(s'.ring, x, t);
    SelectionMissesExactly(h, t.fromFile, t.toFile);
    assert Sends(t, t.sender, r, h);
    HoldsKept(s, Fail(x), hash, t.sender, g);
    assert Provides(s', t.sender, r, g, hash);
  }

  lemma KeptByOldKept(s: System, step: Step, hash: File -> int, ids: set<int>)
    requires Shape(s, ids) && s.failed.Some? && KeptByOld(s, hash, ids) && Enabled(s, step) && step != Finish
    ensures KeptByOld(Next(s, step, hash), hash, ids)
  {
    var s' := Next(s, step, hash);
    forall g, p | g in s'.files && Protected(g, hash, ids) && InBoth(s.ring, s.failed.value, hash(g), p)
      ensures Holds(s', p, g)
    {
      if g in s.files {
        HoldsKept(s, step, hash, p, g);
      } else {
        WriteReaches(s, g, hash, p);
      }
    }
  }

  lemma FinishKeeps(s: System, hash: File -> int, ids: set<int>)
    requires Inv(s, hash, ids) && Enabled(s, Finish)
    ensures Inv(Next(s, Finish, hash), hash, ids)
  {
    var s' := Next(s, Finish, hash);
    forall g, p | g in s.files && Protected(g, hash, ids) && p in Route(s.ring, hash(g)) ensures Holds(s', p, g) {
      if InBoth(s.ring, s.failed.value, hash(g), p) {
        HoldsKept(s, Finish, hash, p, g);
      } else {
        assert Due(s, p, g, hash, ids);
        FinishComing(s, p, g, hash);
      }
    }
  }

  lemma QuietWriteKeeps(s: System, step: Step, hash: File -> int, ids: set<int>)
    requires Inv(s, hash, ids) && Enabled(s, step) && s.failed.None? && !step.Fail?
    ensures Inv(Next(s, step, hash), hash, ids)
  {
    var s' := Next(s, step, hash);
    forall g, p | g in s'.files && Protected(g, hash, ids) && p in Route(s.ring, hash(g)) ensures Holds(s', p, g) {
      if g in s.files {
        HoldsKept(s, step, hash, p, g);
      } else {
        WriteReaches(s, g, hash, p);
      }
    }
  }

  lemma RepairStepKeepsIff(s: System, step: Step, hash: File -> int, ids: set<int>)
    requires Inv(s, hash, ids) && Enabled(s, step) && s.failed.Some? && step != Finish
    ensures AllComing(Next(s, step, hash), hash, ids) <==> Careful(s, step, hash, ids)
  {
    var s' := Next(s, step, hash);
    forall r, f | Due(s, r, f, hash, ids)
      ensures Due(s', r, f, hash, ids) && (Coming(s', r, f, hash) <==> !Spoils(s, step, r, f, hash))
    {
      RouteOnRing(s.ring, hash(f));
      ComingKeptIff(s, step, r, f, hash);
    }
    forall r, f | Due(s', r, f, hash, ids) && f !in s.files ensures Coming(s', r, f, hash) {
      WriteReaches(s, f, hash, r);
    }
  }

  /** Every step keeps the invariant, save exactly the deliveries and scans that spoil a repair. */
  lemma StepKeepsIff(s: System, step: Step, hash: File -> int, ids: set<int>)
    requires Inv(s, hash, ids) && Enabled(s, step)
    ensures Inv(Next(s, step, hash), hash, ids) <==> Careful(s, step, hash, ids)
  {
    if s.failed.Some? && step != Finish {
      ShapeKept(s, step, hash, ids);
      KeptByOldKept(s, step, hash, ids);
      RepairStepKeepsIff(s, step, hash, ids);
    } else if step.Fail? {
      FailKeeps(s, step.peer, hash, ids);
    } else if step.Finish? {
      FinishKeeps(s, hash, ids);
    } else {
      QuietWriteKeeps(s, step, hash, ids);
    }
  }

  // ----- whole runs -----

  ghost predicate Start(s: System) {
    && StrictlyAscending(s.ring) && |s.ring| >= 3
    && s.failed.None? && s.files == {} && s.owed == {}
    && HasPeers(s)
  }

  ghost predicate IsPath(states: seq<System>, steps: seq<Step>, hash: File -> int) {
    && |states| == |steps| + 1
    && (forall i :: 0 <= i < |states| ==> HasPeers(states[i]))
    && (forall i :: 0 <= i < |steps| ==>
                      Enabled(states[i], steps[i]) && states[i + 1] == Next(states[i], steps[i], hash))
  }

  ghost predicate IsRun(states: seq<System>, steps: seq<Step>, hash: File -> int) {
    IsPath(states, steps, hash) && Start(states[0])
  }

  function PeersOf(s: System): set<int> {
    set p | p in s.ring
  }

  // ----- which copies hurt -----

  /** A copy that travels along a transfer whose arc covers its file never hurts: what spoils a repair is a copy that
      the file selection sent along without its being in the arc. */
  lemma CoveredCopiesAreSafe(s: System, ids: set<int>, t: Transfer, f: File, r: int, hash: File -> int)
    requires Shape(s, ids) && IsNew(s, r, f, hash)
    requires t in Plan(s.ring, s.failed.value) && Covers(t, hash(f))
    ensures !Spoils(s, Deliver(t.sender, t.receiver, f), r, f, hash)
  {
    PlanIsExact(s.ring, s.failed.value, hash(f));
  }

  // ----- a spoiled repair may end without the file -----

  lemma StaysLost(s: System, step: Step, r: int, f: File, hash: File -> int)
    requires HasPeers(s) && OwedByScanned(s) && Enabled(s, step) && s.failed.Some?
    requires step.Scan? || ((step.Deliver? || step.Miss?) && forall p :: p in s.ring ==> p in s.scanned)
    requires !Coming(s, r, f, hash)
    ensures !Coming(Next(s, step, hash), r, f, hash) && OwedByScanned(Next(s, step, hash))
  {
    var s' := Next(s, step, hash);
    forall from ensures Enabled(s, Deliver(from, r, f)) ==> Provides(s, from, r, f, hash) {
    }
    forall p ensures Provides(s', p, r, f, hash) ==> Provides(s, p, r, f, hash) {
      if step.Scan? && p == step.peer {
        OwedIff(s, p, r, f, hash);
      }
    }
  }

  function Unscanned(s: System): set<int> {
    set p | p in s.ring && p !in s.scanned
  }

  /** A step towards the end of the repair: look, then send or give up what is owed. */
  lemma NextStep(s: System, hash: File -> int) returns (step: Step)
    requires HasPeers(s) && s.failed.Some?
    requires (exists p :: p in Unscanned(s)) || exists e :: e in s.owed
    ensures Enabled(s, step)
    ensures step.Scan? || ((step.Deliver? || step.Miss?) && forall p :: p in s.ring ==> p in s.scanned)
    ensures var s' := Next(s, step, hash);
            && HasPeers(s') && s'.failed == s.failed && s'.ring == s.ring && s'.files == s.files
            && if step.Scan? then Unscanned(s') < Unscanned(s) else Unscanned(s') == Unscanned(s) && s'.owed < s.owed
  {
    if p :| p in Unscanned(s) {
      step := Scan(p);
      assert p !in Unscanned(Next(s, step, hash));
    } else {
      assert forall p :: p in s.ring && p !in s.scanned ==> p in Unscanned(s);
      var e: (int, int, File) :| e in s.owed;
      step := if e.1 in s.ring && OnDisk(s, e.0, e.2) then Deliver(e.0, e.1, e.2) else Miss(e.0, e.1, e.2);
      assert e !in Next(s, step, hash).owed;
    }
  }

  /** From s the repair is finished without r having f, and without any further step that spoils it. */
  ghost predicate EndsWithout(states: seq<System>, steps: seq<Step>, s: System, r: int, f: File, hash: File -> int) {
    && IsPath(states, steps, hash) && states[0] == s
    && |steps| > 0 && steps[|steps| - 1] == Finish
    && (forall i :: 0 <= i < |steps| - 1 ==> steps[i] != Finish)
    && (forall i :: 0 <= i < |steps| ==> !Spoils(states[i], steps[i], r, f, hash))
    && !Holds(states[|steps|], r, f)
  }

  lemma LostAtTheEnd(s: System, r: int, f: File, hash: File -> int)
    requires HasPeers(s) && s.failed.Some? && !Coming(s, r, f, hash)
    requires (forall p :: p !in Unscanned(s)) && forall e :: e !in s.owed
    ensures Enabled(s, Finish) && EndsWithout([s, Next(s, Finish, hash)], [Finish], s, r, f, hash)
  {
    assert s.owed == {} && forall p :: p in s.ring && p !in s.scanned ==> p in Unscanned(s);
  }

  lemma LostBefore(s: System, step: Step, more: seq<System>, rest: seq<Step>, r: int, f: File, hash: File -> int)
    requires HasPeers(s) && Enabled(s, step) && step != Finish && !Spoils(s, step, r, f, hash)
    requires EndsWithout(more, rest, Next(s, step, hash), r, f, hash)
    ensures EndsWithout([s] + more, [step] + rest, s, r, f, hash)
  {
    var states, steps := [s] + more, [step] + rest;
    assert forall i :: 0 < i < |states| ==> states[i] == more[i - 1];
    assert forall i :: 0 < i < |steps| ==> steps[i] == rest[i - 1];
  }

  lemma {:induction false} LosingPath(s: System, r: int, f: File, hash: File -> int)
    returns (states: seq<System>, steps: seq<Step>)
    requires HasPeers(s) && OwedByScanned(s) && s.failed.Some? && !Coming(s, r, f, hash)
    ensures EndsWithout(states, steps, s, r, f, hash)
    ensures forall i :: 0 <= i < |steps| ==> !steps[i].Write? && !steps[i].Fail?
    ensures |states| == |steps| + 1
    ensures var t := states[|steps|]; t.files == s.files && t.ring == s.ring && t.failed.None?
    decreases Unscanned(s), s.owed
  {
    if (forall p :: p !in Unscanned(s)) && forall e :: e !in s.owed {
      LostAtTheEnd(s, r, f, hash);
      states, steps := [s, Next(s, Finish, hash)], [Finish];
    } else {
      var step := NextStep(s, hash);
      var s' := Next(s, step, hash);
      StaysLost(s, step, r, f, hash);
      assert !Spoils(s, step, r, f, hash);
      var more, rest := LosingPath(s', r, f, hash);
      hide *;
      LostBefore(s, step, more, rest, r, f, hash);
      states, steps := [s] + more, [step] + rest;
    }
  }

  lemma {:induction false} StaysComing(states: seq<System>, steps: seq<Step>, r: int, f: File, hash: File -> int,
                                       i: nat)
    requires IsPath(states, steps, hash) && i < |states| && states[0].failed.Some?
    requires r in states[0].ring && Coming(states[0], r, f, hash)
    requires forall k :: 0 <= k < i ==> steps[k] != Finish && !Spoils(states[k], steps[k], r, f, hash)
    ensures states[i].failed.Some? && r in states[i].ring && Coming(states[i], r, f, hash)
  {
    if i > 0 {
      StaysComing(states, steps, r, f, hash, i - 1);
      ComingKeptIff(states[i - 1], steps[i - 1], r, f, hash);
    }
  }

  /** The condition is exact: a repair can finish without giving f to r, spoiling nothing on the way, exactly when f is
      no longer coming to r. */
  lemma RepairCanFailIff(s: System, r: int, f: File, hash: File -> int, ids: set<int>)
    requires Shape(s, ids) && IsNew(s, r, f, hash)
    ensures (exists states, steps :: EndsWithout(states, steps, s, r, f, hash)) <==> !Coming(s, r, f, hash)
  {
    if Coming(s, r, f, hash) {
      RouteOnRing(s.ring, hash(f));
      forall states, steps ensures !EndsWithout(states, steps, s, r, f, hash) {
        if IsPath(states, steps, hash) && |steps| > 0 {
          ComingEndsWith(states, steps, s, r, f, hash);
        }
      }
    } else {
      var states, steps := LosingPath(s, r, f, hash);
    }
  }

  lemma ComingEndsWith(states: seq<System>, steps: seq<Step>, s: System, r: int, f: File, hash: File -> int)
    requires IsPath(states, steps, hash) && |steps| > 0
    requires s.failed.Some? && r in s.ring && Coming(s, r, f, hash)
    ensures !EndsWithout(states, steps, s, r, f, hash)
  {
    var n := |steps| - 1;
    if states[0] == s && steps[n] == Finish
       && forall i :: 0 <= i < n ==> steps[i] != Finish && !Spoils(states[i], steps[i], r, f, hash) {
      StaysComing(states, steps, r, f, hash, n);
      FinishComing(states[n], r, f, hash);
    }
  }

  /** So a step that spoils a repair is fatal in the sense that the repair can then end without the file, and any other
      step of a repair in which the file was coming is not. */
  lemma SpoilingIsFatalIff(s: System, step: Step, r: int, f: File, hash: File -> int, ids: set<int>)
    requires Shape(s, ids) && IsNew(s, r, f, hash) && Coming(s, r, f, hash) && Enabled(s, step) && step != Finish
    ensures (exists states, steps :: EndsWithout(states, steps, Next(s, step, hash), r, f, hash))
       <==> Spoils(s, step, r, f, hash)
  {
    RouteOnRing(s.ring, hash(f));
    ComingKeptIff(s, step, r, f, hash);
    ShapeKept(s, step, hash, ids);
    RepairCanFailIff(Next(s, step, hash), r, f, hash, ids);
  }

  // ----- two runs that lose a replica in a first, plain failure -----

  // Peers 10, 20, 30 and 40; a file with hash 5, which is on 10, 20 and 30; then 20 fails. Peer 10 is to send it to
  // 40. Peer 30 sends 10 a copy too, because the selection for the arc from 10 to 20 takes every file.

  ghost predicate Four(full: seq<int>, rest: seq<int>) {
    && StrictlyAscending(full) && |full| == 4 && 20 in full && |rest| == 3
    && (forall p :: p in full <==> p == 10 || p == 20 || p == 30 || p == 40)
    && (forall p :: p in rest <==> p == 10 || p == 30 || p == 40)
    && Route(full, 5) == [10, 20, 30] && Route(rest, 5) == [10, 30, 40]
    && Without(full, 20) == rest && Insert(rest, 20) == full
    && Plan(rest, 20) == [Transfer(30, 40, 10, 30), Transfer(40, 10, 10, 40), Transfer(10, 20, 30, 10)]
  }

  lemma FourRoutes(full: seq<int>, rest: seq<int>)
    requires full == [10, 20, 30, 40] && rest == [10, 30, 40]
    ensures Route(full, 5) == [10, 20, 30] && Route(rest, 5) == [10, 30, 40]
  {
    CutIs(full, 5, 0);
    SuccessorsRotate(full, 5);
    RouteIsPrefix(full, 5);
    assert (full[0..] + full[..0])[..3] == [10, 20, 30];
    CutIs(rest, 5, 0);
    SuccessorsRotate(rest, 5);
    RouteIsPrefix(rest, 5);
    assert (rest[0..] + rest[..0])[..3] == [10, 30, 40];
  }

  lemma FourPlan(full: seq<int>, rest: seq<int>)
    requires full == [10, 20, 30, 40] && rest == [10, 30, 40]
    ensures Insert(rest, 20) == full
    ensures Plan(rest, 20) == [Transfer(30, 40, 10, 30), Transfer(40, 10, 10, 40), Transfer(10, 20, 30, 10)]
  {
    CutIs(rest, 20, 1);
    InsertKeeps(rest, 20);
    assert rest[..1] + [20] + rest[1..] == full;
    PlanIsPlanAt(rest, 20);
    assert Plan(rest, 20) == PlanAt(full, 1);
  }

  lemma FourWithout(full: seq<int>, rest: seq<int>)
    requires full == [10, 20, 30, 40] && rest == [10, 30, 40]
    ensures Without(full, 20) == rest
  {
    assert full[1] == 20;
    WithoutAt(full, 1);
    assert full[..1] + full[2..] == rest;
  }

  lemma FourMembers(full: seq<int>, rest: seq<int>)
    requires full == [10, 20, 30, 40] && rest == [10, 30, 40]
    ensures forall p :: p in full <==> p == 10 || p == 20 || p == 30 || p == 40
    ensures forall p :: p in rest <==> p == 10 || p == 30 || p == 40
  {
    assert full[0] in full && full[1] in full && full[2] in full && full[3] in full;
    assert rest[0] in rest && rest[1] in rest && rest[2] in rest;
  }

  lemma FourPeers() returns (full: seq<int>, rest: seq<int>)
    ensures Four(full, rest) && full == [10, 20, 30, 40]
  {
    hide Route;
    hide Insert;
    hide Plan;
    hide Without;
    full, rest := [10, 20, 30, 40], [10, 30, 40];
    FourRoutes(full, rest);
    FourPlan(full, rest);
    FourWithout(full, rest);
    FourMembers(full, rest);
  }

  // The states of the runs, without the computation of routes and plans.
  function Four0(full: seq<int>, ten: Peer, twenty: Peer, thirty: Peer, files: set<File>): System {
    System(full, map[10 := ten, 20 := twenty, 30 := thirty, 40 := Peer({}, {})], files, None, {}, {})
  }

  function Three(rest: seq<int>, ten: Peer, thirty: Peer, f: File, scanned: set<int>,
                 owed: set<(int, int, File)>): System {
    System(rest, map[10 := ten, 30 := thirty, 40 := Peer({}, {})], {f}, Some(20), scanned, owed)
  }

  const EMPTY := Peer({}, {})

  function Flushed(f: File): Peer { Peer({f}, {}) }

  function Logged(f: File): Peer { Peer({}, {f}) }

  lemma FourWrite(full: seq<int>, rest: seq<int>, f: File, hash: File -> int)
    requires Four(full, rest) && hash(f) == 5
    ensures HasPeers(Four0(full, EMPTY, EMPTY, EMPTY, {}))
    ensures Next(Four0(full, EMPTY, EMPTY, EMPTY, {}), Write(f), hash) ==
            Four0(full, Logged(f), Logged(f), Logged(f), {f})
  {
    hide Route;
    var route := Route(full, 5);
    assert route[0] in route && route[1] in route && route[2] in route;
    assert forall p :: p in route <==> p == 10 || p == 20 || p == 30;
    var s := Four0(full, EMPTY, EMPTY, EMPTY, {});
    assert {} + {f} == {f};
    assert LogAt(s.peers, route, f) == Four0(full, Logged(f), Logged(f), Logged(f), {f}).peers;
  }

  lemma FourFail(full: seq<int>, rest: seq<int>, f: File, hash: File -> int)
    requires Four(full, rest)
    ensures var s := Four0(full, Logged(f), Logged(f), Logged(f), {f});
            && HasPeers(s) && Enabled(s, Fail(20))
            && Next(s, Fail(20), hash) == Three(rest, Logged(f), Logged(f), f, {}, {})
  {
    hide Without;
    hide Route;
    hide Insert;
    hide Plan;
    hide StrictlyAscending;
    var s := Four0(full, Logged(f), Logged(f), Logged(f), {f});
    assert s.peers - {20} == Three(rest, Logged(f), Logged(f), f, {}, {}).peers;
  }

  lemma ThreeFlushes(full: seq<int>, rest: seq<int>, ten: Peer, f: File, hash: File -> int)
    requires Four(full, rest) && (ten == Logged(f) || ten == Flushed(f))
    ensures var s := Three(rest, ten, Logged(f), f, {}, {});
            && HasPeers(s)
            && Next(s, Flush(10), hash) == Three(rest, Flushed(f), Logged(f), f, {}, {})
            && Next(s, Flush(30), hash) == Three(rest, ten, Flushed(f), f, {}, {})
            && Enabled(s, Flush(10)) && Enabled(s, Flush(30))
  {
    hide Route;
    hide Without;
    hide Insert;
    hide Plan;
    var s := Three(rest, ten, Logged(f), f, {}, {});
    assert {f} + {f} == {f} && {} + {f} == {f} && {f} + {} == {f};
    assert s.peers[10 := Flushed(f)] == Three(rest, Flushed(f), Logged(f), f, {}, {}).peers;
    assert s.peers[30 := Flushed(f)] == Three(rest, ten, Flushed(f), f, {}, {}).peers;
  }

  lemma Single(s: System, hash: File -> int)
    requires Start(s)
    ensures IsRun([s], [], hash)
  {
  }

  lemma Longer(states: seq<System>, steps: seq<Step>, step: Step, hash: File -> int, s: System)
    returns (longer: seq<System>, more: seq<Step>)
    requires IsRun(states, steps, hash) && Enabled(states[|steps|], step)
    requires s == Next(states[|steps|], step, hash) && HasPeers(s)
    ensures IsRun(longer, more, hash) && more == steps + [step]
    ensures longer[|more|] == s && longer[0] == states[0] && states <= longer
  {
    longer, more := states + [s], steps + [step];
  }

  lemma Joined(states: seq<System>, steps: seq<Step>, more: seq<System>, rest: seq<Step>, hash: File -> int)
    requires IsRun(states, steps, hash) && IsPath(more, rest, hash) && more[0] == states[|steps|]
    ensures IsRun(states + more[1..], steps + rest, hash)
    ensures (states + more[1..])[|steps| + |rest|] == more[|rest|]
  {
    var all := states + more[1..];
    forall i | 0 <= i <= |rest| ensures all[|steps| + i] == more[i] {
    }
  }

  function Opening(f: File): seq<Step> {
    [Write(f)] + [Fail(20)] + [Flush(10)] + [Flush(30)]
  }

  lemma Written(full: seq<int>, rest: seq<int>, f: File, hash: File -> int)
    returns (states: seq<System>, steps: seq<Step>)
    requires Four(full, rest) && hash(f) == 5
    ensures IsRun(states, steps, hash) && steps == [Write(f)] && states[0].ring == full
    ensures states[|steps|] == Four0(full, Logged(f), Logged(f), Logged(f), {f})
  {
    FourWrite(full, rest, f, hash);
    FourFail(full, rest, f, hash);
    var s := Four0(full, EMPTY, EMPTY, EMPTY, {});
    assert Start(s) && Enabled(s, Write(f));
    hide *;
    Single(s, hash);
    states, steps := Longer([s], [], Write(f), hash, Four0(full, Logged(f), Logged(f), Logged(f), {f}));
  }

  lemma WriteAndFail(full: seq<int>, rest: seq<int>, f: File, hash: File -> int)
    returns (states: seq<System>, steps: seq<Step>)
    requires Four(full, rest) && hash(f) == 5
    ensures IsRun(states, steps, hash) && steps == Opening(f) && states[0].ring == full
    ensures states[|steps|] == Three(rest, Flushed(f), Flushed(f), f, {}, {})
  {
    states, steps := Written(full, rest, f, hash);
    FourFail(full, rest, f, hash);
    ThreeFlushes(full, rest, Logged(f), f, hash);
    ThreeFlushes(full, rest, Flushed(f), f, hash);
    ThreePeers(full, rest, Flushed(f), Flushed(f), f, {}, {});
    hide Four;
    hide Three;
    hide Four0;
    hide IsRun;
    hide HasPeers;
    hide Next;
    hide Enabled;
    states, steps := Longer(states, steps, Fail(20), hash, Three(rest, Logged(f), Logged(f), f, {}, {}));
    states, steps := Longer(states, steps, Flush(10), hash, Three(rest, Flushed(f), Logged(f), f, {}, {}));
    states, steps := Longer(states, steps, Flush(30), hash, Three(rest, Flushed(f), Flushed(f), f, {}, {}));
  }

  lemma ThreePeers(full: seq<int>, rest: seq<int>, ten: Peer, thirty: Peer, f: File, scanned: set<int>,
                   owed: set<(int, int, File)>)
    requires Four(full, rest)
    ensures HasPeers(Three(rest, ten, thirty, f, scanned, owed))
  {
  }

  // What peers 10 and 30 decide to send when they look.
  lemma ThreeOwed(full: seq<int>, rest: seq<int>, ten: Peer, f: File, scanned: set<int>, owed: set<(int, int, File)>,
                  hash: File -> int)
    requires Four(full, rest) && hash(f) == 5 && !IsCsv(f) && ten.disk <= {f}
    ensures var s := Three(rest, ten, Flushed(f), f, scanned, owed);
            && HasPeers(s)
            && Owed(s, 10, hash) == (if f in ten.disk then {(10, 30, f), (10, 40, f)} else {})
            && Owed(s, 30, hash) == {(30, 10, f)}
  {
    hide Plan;
    var s := Three(rest, ten, Flushed(f), f, scanned, owed);
    var plan := Plan(rest, 20);
    assert plan[0] in plan && plan[1] in plan && plan[2] in plan;
    assert forall t :: t in plan <==> t == plan[0] || t == plan[1] || t == plan[2];
  }

  // Once 10 and 30 have looked, the copy that 30 owes to 10 spoils what 10 owes to 40.
  lemma LateCopySpoils(full: seq<int>, rest: seq<int>, f: File, hash: File -> int)
    requires Four(full, rest) && hash(f) == 5 && !IsCsv(f)
    ensures var s := Three(rest, Flushed(f), Flushed(f), f, {10, 30, 40}, {(10, 30, f), (10, 40, f), (30, 10, f)});
            CanSpoil(s, rest, f, Deliver(30, 10, f), hash)
  {
    hide Plan;
    hide Without;
    var s := Three(rest, Flushed(f), Flushed(f), f, {10, 30, 40}, {(10, 30, f), (10, 40, f), (30, 10, f)});
    assert Provides(s, 10, 40, f, hash);
  }

  // With 10 not having looked, the copy leaves 10 with an entry in its log only, and the look spoils it.
  lemma EarlyLookSpoils(full: seq<int>, rest: seq<int>, f: File, hash: File -> int)
    requires Four(full, rest) && hash(f) == 5 && !IsCsv(f)
    ensures var s := Three(rest, Logged(f), Flushed(f), f, {30, 40}, {});
            CanSpoil(s, rest, f, Scan(10), hash)
  {
    hide Without;
    hide Insert;
    hide Route;
    var s := Three(rest, Logged(f), Flushed(f), f, {30, 40}, {});
    var plan := Plan(rest, 20);
    assert plan[1] in plan && Sends(plan[1], 10, 40, 5);
    hide Plan;
    assert Provides(s, 10, 40, f, hash);
  }

  /** From a state that a spoiling step has left behind, to the end of the repair. */
  lemma RunToLoss(states: seq<System>, steps: seq<Step>, step: Step, r: int, f: File, hash: File -> int)
    returns (all: seq<System>, allSteps: seq<Step>)
    requires IsRun(states, steps, hash)
    requires var s := states[|steps|];
             && Enabled(s, step) && step != Finish && s.failed.Some? && r in s.ring && OwedByScanned(s)
             && f in s.files && Spoils(s, step, r, f, hash)
    ensures IsRun(all, allSteps, hash) && steps + [step] <= allSteps && states <= all && all[0] == states[0]
    ensures allSteps[|allSteps| - 1] == Finish && forall k :: |steps| <= k < |allSteps| - 1 ==> allSteps[k] != Finish
    ensures forall k :: |steps| < k < |allSteps| ==> !allSteps[k].Fail?
    ensures var t := all[|allSteps|];
            t.ring == Next(states[|steps|], step, hash).ring && f in t.files && t.failed.None? && !Holds(t, r, f)
  {
    var s := states[|steps|];
    var s' := Next(s, step, hash);
    assert Coming(s, r, f, hash);
    ComingKeptIff(s, step, r, f, hash);
    var more, rest := LosingPath(s', r, f, hash);
    hide *;
    var longer, extended := Longer(states, steps, step, hash, s');
    Joined(longer, extended, more, rest, hash);
    all, allSteps := longer + more[1..], extended + rest;
  }

  /** A run that loses a replica: peers 10 to 40, one failure, a file with hash 5, and the repair finished. */
  ghost predicate LosesAReplica(states: seq<System>, steps: seq<Step>, f: File, hash: File -> int) {
    && IsRun(states, steps, hash) && states[0].ring == [10, 20, 30, 40]
    && FailsOnce(steps)
    && var t := states[|steps|];
       && t.failed.None? && f in t.files && Protected(f, hash, PeersOf(states[0]))
       && 40 in Route(t.ring, hash(f)) && !Holds(t, 40, f)
  }

  // Any of the three peers looks, both copies being flushed.
  lemma ThreeLook(full: seq<int>, rest: seq<int>, p: int, f: File, scanned: set<int>, owed: set<(int, int, File)>,
                  scanned': set<int>, owed': set<(int, int, File)>, hash: File -> int)
    requires Four(full, rest) && hash(f) == 5 && !IsCsv(f)
    requires p in rest && p !in scanned && scanned' == scanned + {p}
    requires owed' == owed + if p == 10 then {(10, 30, f), (10, 40, f)} else if p == 30 then {(30, 10, f)} else {}
    ensures var s := Three(rest, Flushed(f), Flushed(f), f, scanned, owed);
            && HasPeers(s) && Enabled(s, Scan(p))
            && Next(s, Scan(p), hash) == Three(rest, Flushed(f), Flushed(f), f, scanned', owed')
  {
    ThreeOwed(full, rest, Flushed(f), f, scanned, owed, hash);
    hide Owed;
    hide Plan;
    hide Route;
    hide Without;
    hide Insert;
    NothingOwed(Three(rest, Flushed(f), Flushed(f), f, scanned, owed), 40, hash);
  }

  lemma NothingOwed(s: System, p: int, hash: File -> int)
    requires s.failed.Some? && p in s.peers && s.peers[p].disk == {}
    ensures Owed(s, p, hash) == {}
  {
  }

  lemma ThreeDeliver(full: seq<int>, rest: seq<int>, f: File, scanned: set<int>, hash: File -> int)
    requires Four(full, rest)
    ensures var s := Three(rest, Flushed(f), Flushed(f), f, scanned, {(30, 10, f)});
            && HasPeers(s) && Enabled(s, Deliver(30, 10, f))
            && Next(s, Deliver(30, 10, f), hash) == Three(rest, Logged(f), Flushed(f), f, scanned, {})
            && HasPeers(Three(rest, Logged(f), Flushed(f), f, scanned, {}))
  {
    hide Plan;
    assert {f} - {f} == {} && {} + {f} == {f};
    var s := Three(rest, Flushed(f), Flushed(f), f, scanned, {(30, 10, f)});
    assert s.owed - {(30, 10, f)} == {};
    assert s.peers[10 := Logged(f)] == Three(rest, Logged(f), Flushed(f), f, scanned, {}).peers;
  }

  // The run up to the point at which everybody has looked.
  lemma AllLooked(full: seq<int>, rest: seq<int>, f: File, hash: File -> int)
    returns (states: seq<System>, steps: seq<Step>)
    requires Four(full, rest) && hash(f) == 5 && !IsCsv(f)
    ensures IsRun(states, steps, hash) && states[0].ring == full
    ensures steps == Opening(f) + [Scan(10)] + [Scan(30)] + [Scan(40)]
    ensures states[|steps|]
         == Three(rest, Flushed(f), Flushed(f), f, {10, 30, 40}, {(10, 30, f), (10, 40, f), (30, 10, f)})
  {
    var ten, owed := {(10, 30, f), (10, 40, f)}, {(10, 30, f), (10, 40, f), (30, 10, f)};
    ThreeLook(full, rest, 10, f, {}, {}, {10}, ten, hash);
    ThreeLook(full, rest, 30, f, {10}, ten, {10, 30}, owed, hash);
    ThreeLook(full, rest, 40, f, {10, 30}, owed, {10, 30, 40}, owed, hash);
    ThreePeers(full, rest, Flushed(f), Flushed(f), f, {10, 30, 40}, owed);
    states, steps := WriteAndFail(full, rest, f, hash);
    hide *;
    states, steps := Longer(states, steps, Scan(10), hash, Three(rest, Flushed(f), Flushed(f), f, {10}, ten));
    states, steps := Longer(states, steps, Scan(30), hash, Three(rest, Flushed(f), Flushed(f), f, {10, 30}, owed));
    states, steps := Longer(states, steps, Scan(40), hash, Three(rest, Flushed(f), Flushed(f), f, {10, 30, 40}, owed));
  }

  // Peer 30 looks and sends its copy to 10 before 10 has looked.
  lemma CopyBeforeLook(full: seq<int>, rest: seq<int>, f: File, hash: File -> int)
    returns (states: seq<System>, steps: seq<Step>)
    requires Four(full, rest) && hash(f) == 5 && !IsCsv(f)
    ensures IsRun(states, steps, hash) && states[0].ring == full
    ensures steps == Opening(f) + [Scan(30)] + [Scan(40)] + [Deliver(30, 10, f)]
    ensures states[|steps|] == Three(rest, Logged(f), Flushed(f), f, {30, 40}, {})
  {
    var owed := {(30, 10, f)};
    ThreeLook(full, rest, 30, f, {}, {}, {30}, owed, hash);
    ThreeLook(full, rest, 40, f, {30}, owed, {30, 40}, owed, hash);
    ThreeDeliver(full, rest, f, {30, 40}, hash);
    states, steps := WriteAndFail(full, rest, f, hash);
    hide *;
    states, steps := Longer(states, steps, Scan(30), hash, Three(rest, Flushed(f), Flushed(f), f, {30}, owed));
    states, steps := Longer(states, steps, Scan(40), hash, Three(rest, Flushed(f), Flushed(f), f, {30, 40}, owed));
    states, steps := Longer(states, steps, Deliver(30, 10, f), hash,
                            Three(rest, Logged(f), Flushed(f), f, {30, 40}, {}));
  }

  predicate FailsOnce(steps: seq<Step>) {
    forall k :: 0 <= k < |steps| && steps[k].Fail? ==> k == 1
  }

  lemma OpeningFailsOnce(f: File, more: seq<Step>)
    requires forall k :: 0 <= k < |more| ==> !more[k].Fail?
    ensures FailsOnce(Opening(f) + more)
  {
    var steps := Opening(f) + more;
    assert forall k :: 4 <= k < |steps| ==> steps[k] == more[k - 4];
  }

  lemma FailsOnceLonger(steps: seq<Step>, step: Step, all: seq<Step>)
    requires FailsOnce(steps) && !step.Fail? && steps + [step] <= all
    requires forall k :: |steps| < k < |all| ==> !all[k].Fail?
    ensures FailsOnce(all)
  {
    assert forall k :: 0 <= k < |steps| ==> all[k] == (steps + [step])[k];
    assert all[|steps|] == (steps + [step])[|steps|];
  }

  lemma SpoiledRun(full: seq<int>, rest: seq<int>, f: File, hash: File -> int, states: seq<System>, steps: seq<Step>,
                   step: Step)
    returns (all: seq<System>, allSteps: seq<Step>)
    requires Four(full, rest) && full == [10, 20, 30, 40] && hash(f) == 5 && !IsCsv(f)
    requires IsRun(states, steps, hash) && states[0].ring == full && FailsOnce(steps)
    requires CanSpoil(states[|steps|], rest, f, step, hash)
    ensures LosesAReplica(all, allSteps, f, hash) && steps + [step] <= allSteps
  {
    hide Spoils;
    hide IsPath;
    hide Enabled;
    hide Plan;
    hide Insert;
    hide Without;
    all, allSteps := RunToLoss(states, steps, step, 40, f, hash);
    FailsOnceLonger(steps, step, allSteps);
  }

  ghost predicate CanSpoil(s: System, rest: seq<int>, f: File, step: Step, hash: File -> int) {
    && s.ring == rest && s.files == {f} && s.failed.Some? && OwedByScanned(s) && Enabled(s, step)
    && (step.Deliver? || step.Scan?) && Spoils(s, step, 40, f, hash)
  }

  /** Every peer looks when it should, and still a copy that nobody needs deletes the file that peer 10 owes to 40. */
  lemma LateCopyLosesAReplica(f: File, hash: File -> int) returns (states: seq<System>, steps: seq<Step>)
    requires !IsCsv(f) && hash(f) == 5
    ensures LosesAReplica(states, steps, f, hash)
    ensures Opening(f) + [Scan(10)] + [Scan(30)] + [Scan(40)] + [Deliver(30, 10, f)] <= steps
  {
    hide *;
    var full, rest := FourPeers();
    states, steps := AllLooked(full, rest, f, hash);
    LateCopySpoils(full, rest, f, hash);
    OpeningFailsOnce(f, [Scan(10)] + [Scan(30)] + [Scan(40)]);
    assert steps == Opening(f) + ([Scan(10)] + [Scan(30)] + [Scan(40)]);
    states, steps := SpoiledRun(full, rest, f, hash, states, steps, Deliver(30, 10, f));
  }

  /** And so does a copy that arrives before 10 has looked: 10 then finds nothing to send. */
  lemma EarlyCopyLosesAReplica(f: File, hash: File -> int) returns (states: seq<System>, steps: seq<Step>)
    requires !IsCsv(f) && hash(f) == 5
    ensures LosesAReplica(states, steps, f, hash)
    ensures Opening(f) + [Scan(30)] + [Scan(40)] + [Deliver(30, 10, f)] + [Scan(10)] <= steps
  {
    hide *;
    var full, rest := FourPeers();
    states, steps := CopyBeforeLook(full, rest, f, hash);
    EarlyLookSpoils(full, rest, f, hash);
    OpeningFailsOnce(f, [Scan(30)] + [Scan(40)] + [Deliver(30, 10, f)]);
    assert steps == Opening(f) + ([Scan(30)] + [Scan(40)] + [Deliver(30, 10, f)]);
    states, steps := SpoiledRun(full, rest, f, hash, states, steps, Scan(10));
  }
}
