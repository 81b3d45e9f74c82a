/** What a restarted receiver gets back from the destination file and its log of ids, and what that does to counts. */
module Recovery {
  import opened WorkSplit
  import opened Receiver
  import opened Delivery
  import opened Sequences

  /** What a restart relies on, whatever op2 does: ids name their tuples, and memory has the ids of the log. */
  ghost predicate Logs(s: System, mine: Key -> bool) {
    && (forall id :: id in s.emitted ==> s.emitted[id].id == id && mine(s.emitted[id].key))
    && NoRepeats(s.store.aolFile)
    && (s.up ==> s.store.aol == Elements(s.store.aolFile))
  }

  lemma LogsKept(s: System, step: Step, op2: Op2, mine: Key -> bool)
    requires Logs(s, mine) && Enabled(s, step, mine) && Untroubled(step)
    ensures Logs(Next(s, step, op2, mine), mine)
  {
    if step.Deliver? && step.id !in s.store.aol {
      assert forall k :: 0 <= k < |s.store.aolFile| ==> s.store.aolFile[k] in Elements(s.store.aolFile);
    }
  }

  lemma {:induction false} RunLogs(states: seq<System>, steps: seq<Step>, op2: Op2, mine: Key -> bool, i: nat)
    requires IsRun(states, steps, op2, mine) && Start(states[0]) && i < |states|
    requires forall k :: 0 <= k < |steps| ==> Untroubled(steps[k])
    ensures Logs(states[i], mine)
  {
    if i > 0 {
      RunLogs(states, steps, op2, mine, i - 1);
      LogsKept(states[i - 1], steps[i - 1], op2, mine);
    }
  }

  ghost predicate CountsMatchFile(s: System, mine: Key -> bool) {
    s.up ==> Agree(s.store.outputMap, LastValues(s.store.destFile), mine)
  }

  lemma CountsMatchKept(s: System, step: Step, op2: Op2, mine: Key -> bool)
    requires CountsMatchFile(s, mine) && Enabled(s, step, mine) && Untroubled(step) && KeepsKeys(op2)
    ensures CountsMatchFile(Next(s, step, op2, mine), mine)
  {
    hide LastValues;
    match step
    case Emit(_) =>
    case Deliver(id, _, _) =>
      var t := s.emitted[id];
      LastSnoc(s.store.destFile, op2(Count(s.store.outputMap, t.key), t.key, t.value));
    case Crash =>
    case CrashBeforeLogging(_) =>
    case Restart(_) =>
    case OtherWrites(line) => LastSnoc(s.store.destFile, line);
  }

  lemma {:induction false} RunCountsMatch(states: seq<System>, steps: seq<Step>, op2: Op2, mine: Key -> bool, i: nat)
    requires IsRun(states, steps, op2, mine) && Start(states[0]) && i < |states| && KeepsKeys(op2)
    requires forall k :: 0 <= k < |steps| ==> Untroubled(steps[k])
    ensures CountsMatchFile(states[i], mine)
  {
    if i > 0 {
      RunCountsMatch(states, steps, op2, mine, i - 1);
      CountsMatchKept(states[i - 1], steps[i - 1], op2, mine);
    }
  }

  /** The restart reads all ids, and the lines it does not read change no own key. */
  ghost predicate NothingMissed(s: Store, load: Load, mine: Key -> bool) {
    match load
    case Complete => true
    case Stale(k) => LinesSuffice(s, k, mine)
    case IdsBroken(k, j) => j >= |s.aolFile| && LinesSuffice(s, k, mine)
    case CountsBroken(k) => s.aolFile == [] && LinesSuffice(s, k, mine)
    case NotFetched => s.aolFile == [] && forall key :: mine(key) ==> key !in LastValues(s.destFile)
  }

  /** The first k lines of the file end with the same values for the own keys as the whole file. */
  ghost predicate LinesSuffice(s: Store, k: nat, mine: Key -> bool) {
    Agree(LastValues(Prefix(s.destFile, k)), LastValues(s.destFile), mine)
  }

  lemma FewerIds(ids: seq<Id>, k: nat)
    requires NoRepeats(ids)
    ensures Elements(Prefix(ids, k)) == Elements(ids) <==> k >= |ids|
    ensures Elements([]) == Elements(ids) <==> ids == []
  {
    if k < |ids| {
      assert ids[k] in Elements(ids) && ids[k] !in Elements(ids[..k]);
    }
    if ids != [] {
      assert ids[0] in Elements(ids);
    }
  }

  /** For every op2 that keeps the key: after a crash at a tuple boundary the restart restores the set of seen ids and
      every entry of the receiver's own keys, exactly when it misses nothing. */
  lemma RecoveryIsExactIff(states: seq<System>, steps: seq<Step>, op2: Op2, mine: Key -> bool, i: nat, load: Load)
    requires IsRun(states, steps, op2, mine) && Start(states[0]) && i < |states| && KeepsKeys(op2)
    requires forall k :: 0 <= k < |steps| ==> Untroubled(steps[k])
    requires states[i].up
    ensures var s := states[i];
            var back := Next(Next(s, Crash, op2, mine), Restart(load), op2, mine);
            (back.store.aol == s.store.aol && Agree(back.store.outputMap, s.store.outputMap, mine))
            <==> NothingMissed(s.store, load, mine)
  {
    RunLogs(states, steps, op2, mine, i);
    RunCountsMatch(states, steps, op2, mine, i);
    FewerIds(states[i].store.aolFile, if load.IdsBroken? then load.ids else 0);
  }

  // ----- an op2 that changes the key -----

  /** No tuple of an own key comes out under an own key. */
  ghost predicate MovesKeys(op2: Op2, mine: Key -> bool) {
    forall count, key, value :: mine(key) ==> !mine(op2(count, key, value).key)
  }

  ghost predicate NoOwnLines(s: System, mine: Key -> bool) {
    forall key :: mine(key) ==> key !in LastValues(s.store.destFile)
  }

  lemma {:induction false} RunHasNoOwnLines(states: seq<System>, steps: seq<Step>, op2: Op2, mine: Key -> bool, i: nat)
    requires IsRun(states, steps, op2, mine) && Start(states[0]) && i < |states| && MovesKeys(op2, mine)
    requires forall k :: 0 <= k < |steps| ==> Untroubled(steps[k])
    ensures NoOwnLines(states[i], mine)
  {
    if i > 0 {
      RunHasNoOwnLines(states, steps, op2, mine, i - 1);
      RunLogs(states, steps, op2, mine, i - 1);
      NoOwnLinesKept(states[i - 1], steps[i - 1], op2, mine);
    }
  }

  lemma NoOwnLinesKept(s: System, step: Step, op2: Op2, mine: Key -> bool)
    requires NoOwnLines(s, mine) && Logs(s, mine) && Enabled(s, step, mine) && MovesKeys(op2, mine)
    ensures NoOwnLines(Next(s, step, op2, mine), mine)
  {
    hide LastValues;
    match step
    case Emit(_) =>
    case Deliver(id, _, _) =>
      var t := s.emitted[id];
      LastSnoc(s.store.destFile, op2(Count(s.store.outputMap, t.key), t.key, t.value));
    case Crash =>
    case CrashBeforeLogging(id) =>
      var t := s.emitted[id];
      LastSnoc(s.store.destFile, op2(Count(s.store.outputMap, t.key), t.key, t.value));
    case Restart(_) =>
    case OtherWrites(line) => LastSnoc(s.store.destFile, line);
  }

  /** Memory is keyed by the tuple's key and the file by the key op2 gives. So a complete restart restores the ids, but
      forgets the value of every own key: it is exact only if there was none. */
  lemma MovedKeysAreForgotten(states: seq<System>, steps: seq<Step>, op2: Op2, mine: Key -> bool, i: nat)
    requires IsRun(states, steps, op2, mine) && Start(states[0]) && i < |states| && MovesKeys(op2, mine)
    requires forall k :: 0 <= k < |steps| ==> Untroubled(steps[k])
    requires states[i].up
    ensures var s := states[i];
            var back := Next(Next(s, Crash, op2, mine), Restart(Complete), op2, mine);
            && back.store.aol == s.store.aol
            && (forall key :: mine(key) ==> key !in back.store.outputMap)
            && (Agree(back.store.outputMap, s.store.outputMap, mine) <==>
                  forall key :: mine(key) ==> key !in s.store.outputMap)
  {
    RunLogs(states, steps, op2, mine, i);
    RunHasNoOwnLines(states, steps, op2, mine, i);
  }

  // ----- what is delivered after a restart -----

  /** The store after a series of deliveries, each with its trouble. */
  function Delivered(s: Store, tuples: seq<(Tuple, Trouble)>, op2: Op2): Store {
    if tuples == [] then s
    else
      var last := tuples[|tuples| - 1];
      Processed(Delivered(s, tuples[..|tuples| - 1], op2), last.0, op2, last.1)
  }

  ghost predicate IgnoresCount(op2: Op2) {
    forall c, d, key, value :: op2(c, key, value) == op2(d, key, value)
  }

  /** To an op2 that does not look at the count the forgotten values make no difference: the same deliveries write the
      same lines and log the same ids. */
  lemma {:induction false} ForgottenCountsDoNotShow(a: Store, b: Store, tuples: seq<(Tuple, Trouble)>, op2: Op2)
    requires a.aol == b.aol && a.destFile == b.destFile && a.aolFile == b.aolFile && IgnoresCount(op2)
    ensures var x, y := Delivered(a, tuples, op2), Delivered(b, tuples, op2);
            x.aol == y.aol && x.destFile == y.destFile && x.aolFile == y.aolFile
  {
    if tuples != [] {
      ForgottenCountsDoNotShow(a, b, tuples[..|tuples| - 1], op2);
      var last := tuples[|tuples| - 1];
      var x, y := Delivered(a, tuples[..|tuples| - 1], op2), Delivered(b, tuples[..|tuples| - 1], op2);
      assert op2(Count(x.outputMap, last.0.key), last.0.key, last.0.value)
          == op2(Count(y.outputMap, last.0.key), last.0.key, last.0.value);
    }
  }

  // ----- a restart on another machine -----

  /** The destination file is in the store, the log of ids is the other machine's own. */
  function Moved(s: Store, log: seq<Id>): Store {
    Restarted(s.(aolFile := log), Complete)
  }

  predicate DeliversId(tuples: seq<(Tuple, Trouble)>, id: Id) {
    exists k :: 0 <= k < |tuples| && tuples[k].0.id == id
  }

  lemma DeliversSnoc(tuples: seq<(Tuple, Trouble)>, last: (Tuple, Trouble), id: Id)
    ensures DeliversId(tuples + [last], id) <==> DeliversId(tuples, id) || last.0.id == id
  {
    var all := tuples + [last];
    assert all[|tuples|] == last;
    if DeliversId(tuples, id) {
      var k :| 0 <= k < |tuples| && tuples[k].0.id == id;
      assert all[k] == tuples[k];
    }
  }

  /** After a move the ids counted are exactly those delivered and missing from the new log, each once. So an id that
      was counted before is counted again exactly when it is delivered again and the other machine's log lacks it. */
  lemma {:induction false} MovedReceiverCounts(s: Store, log: seq<Id>, tuples: seq<(Tuple, Trouble)>, op2: Op2)
    requires forall k :: 0 <= k < |tuples| ==> tuples[k].1.Smooth?
    ensures var after := Delivered(Moved(s, log), tuples, op2);
            && log <= after.aolFile && after.aol == Elements(after.aolFile)
            && NoRepeats(after.aolFile[|log|..])
            && (forall id :: id in after.aolFile[|log|..] <==> id !in log && DeliversId(tuples, id))
            && s.destFile <= after.destFile && |after.destFile| == |s.destFile| + |after.aolFile[|log|..]|
  {
    if tuples == [] {
      assert log[|log|..] == [];
    } else {
      var front, last := tuples[..|tuples| - 1], tuples[|tuples| - 1];
      MovedReceiverCounts(s, log, front, op2);
      var was, after := Delivered(Moved(s, log), front, op2), Delivered(Moved(s, log), tuples, op2);
      assert tuples == front + [last];
      MovedStep(log, was, after, last.0, op2);
      forall id {
        DeliversSnoc(front, last, id);
      }
    }
  }

  lemma MovedStep(log: seq<Id>, was: Store, after: Store, t: Tuple, op2: Op2)
    requires log <= was.aolFile && was.aol == Elements(was.aolFile) && NoRepeats(was.aolFile[|log|..])
    requires after == Processed(was, t, op2, Smooth)
    ensures log <= after.aolFile && after.aol == Elements(after.aolFile) && NoRepeats(after.aolFile[|log|..])
    ensures after.aolFile[|log|..] == was.aolFile[|log|..] + if t.id in was.aolFile then [] else [t.id]
    ensures forall id :: id in was.aolFile <==> id in log || id in was.aolFile[|log|..]
    ensures was.destFile <= after.destFile
    ensures |after.destFile| - |was.destFile| == if t.id in was.aolFile then 0 else 1
  {
    assert was.aolFile == log + was.aolFile[|log|..];
    if t.id !in was.aolFile {
      assert after.aolFile == was.aolFile + [t.id];
    }
  }

  lemma MovedSumStep(log: seq<Id>, was: Store, after: Store, t: Tuple, op2: Op2, emitted: map<Id, Tuple>, key: Key)
    requires log <= was.aolFile && was.aol == Elements(was.aolFile) && NoRepeats(was.aolFile[|log|..])
    requires after == Processed(was, t, op2, Smooth)
    requires t.id in emitted && emitted[t.id] == t && Adds(op2)
    ensures log <= after.aolFile
    ensures Count(after.outputMap, key) - Count(was.outputMap, key)
         == SumFor(after.aolFile[|log|..], emitted, key) - SumFor(was.aolFile[|log|..], emitted, key)
  {
    hide SumFor;
    MovedStep(log, was, after, t, op2);
    SumSnoc(was.aolFile[|log|..], t.id, emitted, key);
  }

  /** And with an op2 that adds, each count grows by the values of exactly these ids. */
  lemma {:induction false} MovedReceiverSums(s: Store, log: seq<Id>, tuples: seq<(Tuple, Trouble)>, op2: Op2,
                                             emitted: map<Id, Tuple>, key: Key)
    requires forall k :: 0 <= k < |tuples| ==> tuples[k].1.Smooth?
    requires forall k :: 0 <= k < |tuples| ==> tuples[k].0.id in emitted && emitted[tuples[k].0.id] == tuples[k].0
    requires Adds(op2)
    ensures var after := Delivered(Moved(s, log), tuples, op2);
            && log <= after.aolFile
            && Count(after.outputMap, key) ==
               Count(LastValues(s.destFile), key) + SumFor(after.aolFile[|log|..], emitted, key)
  {
    MovedReceiverCounts(s, log, tuples, op2);
    if tuples == [] {
      assert log[|log|..] == [];
    } else {
      var front, last := tuples[..|tuples| - 1], tuples[|tuples| - 1];
      MovedReceiverSums(s, log, front, op2, emitted, key);
      MovedReceiverCounts(s, log, front, op2);
      var was, after := Delivered(Moved(s, log), front, op2), Delivered(Moved(s, log), tuples, op2);
      hide LastValues;
      hide Elements;
      hide Delivered;
      MovedSumStep(log, was, after, last.0, op2, emitted, key);
    }
  }
}
