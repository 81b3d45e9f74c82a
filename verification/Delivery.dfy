/** Tuples travelling from any number of senders to one receiver, over a network that loses acknowledgements. */
module Delivery {
  import opened WorkSplit
  import opened Receiver
  import opened Sequences

  /** emitted: every tuple any sender has for this receiver, by id. acked: ids some sender counts as acknowledged.
      accepted: the trouble met by the delivery that first got past the duplicate check.
      counted, wrote: ids in the order of their count changes and of their lines in the destination file.
      torn: deliveries cut off by a crash between the line and the log entry, in order. */
  datatype System = System(up: bool, store: Store, emitted: map<Id, Tuple>, acked: set<Id>,
                           accepted: map<Id, Trouble>, counted: seq<Id>, wrote: seq<Id>, torn: seq<Id>)

  datatype Step =
    | Emit(tuple: Tuple)
    | Deliver(id: Id, trouble: Trouble, ackLost: bool)
    | Crash
    | CrashBeforeLogging(id: Id)
    | Restart(load: Load)
    | OtherWrites(line: Line)

  predicate Enabled(s: System, step: Step, mine: Key -> bool) {
    match step
    case Emit(t) => t.id !in s.emitted && mine(t.key)
    case Deliver(id, t, lost) => s.up && id in s.emitted
    case Crash => s.up
    case CrashBeforeLogging(id) => s.up && id in s.emitted && id !in s.store.aol
    case Restart(_) => !s.up
    // Receivers of other partitions write to the same destination file.
    case OtherWrites(line) => !mine(line.key)
  }

  function Next(s: System, step: Step, op2: Op2, mine: Key -> bool): System
    requires Enabled(s, step, mine)
  {
    match step
    case Emit(t) => s.(emitted := s.emitted[t.id := t])
    case Deliver(id, t, lost) =>
      var isNew := !t.OpenFails? && id !in s.store.aol;
      s.(store := Processed(s.store, s.emitted[id], op2, t),
         acked := if Answer(s.store, s.emitted[id], t).Fail? || lost then s.acked else s.acked + {id},
         accepted := if isNew then s.accepted[id := t] else s.accepted,
         counted := if isNew && Counts(t) then s.counted + [id] else s.counted,
         wrote := if isNew && WritesLine(t) then s.wrote + [id] else s.wrote)
    case Crash => s.(up := false)
    case CrashBeforeLogging(id) =>
      s.(up := false, store := Processed(s.store, s.emitted[id], op2, AppendFails), torn := s.torn + [id])
    case Restart(load) => s.(up := true, store := Restarted(s.store, load))
    case OtherWrites(line) => s.(store := s.store.(destFile := s.store.destFile + [line]))
  }

  ghost predicate IsRun(states: seq<System>, steps: seq<Step>, op2: Op2, mine: Key -> bool) {
    && |states| == |steps| + 1
    && (forall i :: 0 <= i < |steps| ==>
          Enabled(states[i], steps[i], mine) && states[i + 1] == Next(states[i], steps[i], op2, mine))
  }

  predicate Start(s: System) {
    s.up && s.store.aol == {} && s.store.outputMap == map[] && s.store.aolFile == [] && s.store.destFile == []
    && s.emitted == map[] && s.acked == {} && s.accepted == map[] && s.counted == [] && s.wrote == [] && s.torn == []
  }

  // ----- one incarnation, any trouble: at most once -----

  ghost predicate KeepsKeys(op2: Op2) {
    forall count, key, value :: op2(count, key, value).key == key
  }

  predicate CrashFree(step: Step) {
    !step.Crash? && !step.CrashBeforeLogging? && !step.Restart?
  }

  ghost predicate AtMostOnce(s: System, mine: Key -> bool) {
    && s.up
    && s.acked <= s.store.aol && s.store.aol <= s.emitted.Keys
    && (forall id :: id in s.emitted ==> s.emitted[id].id == id && mine(s.emitted[id].key))
    && s.accepted.Keys == s.store.aol
    && NoRepeats(s.counted) && NoRepeats(s.wrote)
    && (forall id :: id in s.counted <==> id in s.accepted && Counts(s.accepted[id]))
    && (forall id :: id in s.wrote <==> id in s.accepted && WritesLine(s.accepted[id]))
  }

  /** The lines of the file that carry the receiver's own keys, in order. */
  function OwnLines(lines: seq<Line>, mine: Key -> bool): seq<Line> {
    if lines == [] then []
    else
      var last := lines[|lines| - 1];
      OwnLines(lines[..|lines| - 1], mine) + if mine(last.key) then [last] else []
  }

  /** The file's own lines are those of the ids in wrote, one each and in that order. */
  ghost predicate LinesAre(s: System, mine: Key -> bool) {
    var own := OwnLines(s.store.destFile, mine);
    && |own| == |s.wrote|
    && forall k :: 0 <= k < |own| ==> s.wrote[k] in s.emitted && own[k].key == s.emitted[s.wrote[k]].key
  }

  /** Every count is the sum over the ids in counted. */
  ghost predicate CountsAre(s: System) {
    forall key :: Count(s.store.outputMap, key) == SumFor(s.counted, s.emitted, key)
  }

  /** Sum of the values of the listed ids that carry the key. */
  function SumFor(ids: seq<Id>, emitted: map<Id, Tuple>, key: Key): int {
    if ids == [] then 0
    else
      var last := ids[|ids| - 1];
      SumFor(ids[..|ids| - 1], emitted, key)
      + if last in emitted && emitted[last].key == key then emitted[last].value else 0
  }

  /** The value a line of id has: the sum over the ids of its key counted up to and including it. */
  ghost predicate ValueOf(value: int, id: Id, counted: seq<Id>, emitted: map<Id, Tuple>)
    requires id in emitted
  {
    exists j :: 0 <= j < |counted| && counted[j] == id && value == SumFor(counted[..j + 1], emitted, emitted[id].key)
  }

  ghost predicate ValuesAre(s: System, mine: Key -> bool)
    requires LinesAre(s, mine)
  {
    var own := OwnLines(s.store.destFile, mine);
    forall k :: 0 <= k < |own| ==> ValueOf(own[k].value, s.wrote[k], s.counted, s.emitted)
  }

  lemma DeliveryKeepsOnce(s: System, id: Id, t: Trouble, lost: bool, op2: Op2, mine: Key -> bool)
    requires AtMostOnce(s, mine) && Enabled(s, Deliver(id, t, lost), mine)
    ensures AtMostOnce(Next(s, Deliver(id, t, lost), op2, mine), mine)
  {
    if !t.OpenFails? && id !in s.store.aol {
      assert id !in s.counted && id !in s.wrote;
    }
  }

  lemma AtMostOnceKept(s: System, step: Step, op2: Op2, mine: Key -> bool)
    requires AtMostOnce(s, mine) && Enabled(s, step, mine) && CrashFree(step)
    ensures AtMostOnce(Next(s, step, op2, mine), mine)
  {
    if step.Deliver? {
      DeliveryKeepsOnce(s, step.id, step.trouble, step.ackLost, op2, mine);
    }
  }

  lemma OwnSnoc(lines: seq<Line>, line: Line, mine: Key -> bool)
    ensures OwnLines(lines + [line], mine) == OwnLines(lines, mine) + if mine(line.key) then [line] else []
  {
    assert (lines + [line])[..|lines|] == lines;
  }

  lemma LinesKept(s: System, step: Step, op2: Op2, mine: Key -> bool)
    requires AtMostOnce(s, mine) && LinesAre(s, mine) && Enabled(s, step, mine) && CrashFree(step) && KeepsKeys(op2)
    ensures LinesAre(Next(s, step, op2, mine), mine)
  {
    hide OwnLines;
    if step.Deliver? {
      var t := s.emitted[step.id];
      OwnSnoc(s.store.destFile, op2(Count(s.store.outputMap, t.key), t.key, t.value), mine);
    } else if step.OtherWrites? {
      OwnSnoc(s.store.destFile, step.line, mine);
    }
  }

  lemma CountsKept(s: System, step: Step, op2: Op2, mine: Key -> bool)
    requires AtMostOnce(s, mine) && CountsAre(s) && Enabled(s, step, mine) && CrashFree(step) && Adds(op2)
    ensures CountsAre(Next(s, step, op2, mine))
  {
    hide SumFor;
    forall key
      ensures Count(Next(s, step, op2, mine).store.outputMap, key)
           == SumFor(Next(s, step, op2, mine).counted, Next(s, step, op2, mine).emitted, key)
    {
      if step.Deliver? {
        SumSnoc(s.counted, step.id, s.emitted, key);
      } else if step.Emit? {
        SumIgnoresNew(s.counted, s.emitted, step.tuple, key);
      }
    }
  }

  lemma ValueKept(value: int, id: Id, counted: seq<Id>, emitted: map<Id, Tuple>, more: seq<Id>,
                  emitted': map<Id, Tuple>)
    requires id in emitted && ValueOf(value, id, counted, emitted) && counted <= more
    requires id in emitted' && emitted'[id] == emitted[id]
    requires forall j, key :: 0 <= j <= |counted| ==>
                                SumFor(counted[..j], emitted', key) == SumFor(counted[..j], emitted, key)
    ensures ValueOf(value, id, more, emitted')
  {
    var j :| 0 <= j < |counted| && counted[j] == id && value == SumFor(counted[..j + 1], emitted, emitted[id].key);
    assert more[..j + 1] == counted[..j + 1];
  }

  lemma ValuesKept(s: System, step: Step, op2: Op2, mine: Key -> bool)
    requires AtMostOnce(s, mine) && CountsAre(s) && LinesAre(s, mine) && ValuesAre(s, mine)
    requires Enabled(s, step, mine) && CrashFree(step) && Adds(op2)
    requires LinesAre(Next(s, step, op2, mine), mine)
    ensures ValuesAre(Next(s, step, op2, mine), mine)
  {
    hide SumFor;
    hide OwnLines;
    var s' := Next(s, step, op2, mine);
    forall j, key | 0 <= j <= |s.counted|
      ensures SumFor(s.counted[..j], s'.emitted, key) == SumFor(s.counted[..j], s.emitted, key)
    {
      if step.Emit? {
        SumIgnoresNew(s.counted[..j], s.emitted, step.tuple, key);
      }
    }
    var own, own' := OwnLines(s.store.destFile, mine), OwnLines(s'.store.destFile, mine);
    forall k | 0 <= k < |own| ensures ValueOf(own[k].value, s.wrote[k], s'.counted, s'.emitted) {
      ValueKept(own[k].value, s.wrote[k], s.counted, s.emitted, s'.counted, s'.emitted);
    }
    if step.Deliver? {
      var t := s.emitted[step.id];
      OwnSnoc(s.store.destFile, op2(Count(s.store.outputMap, t.key), t.key, t.value), mine);
      SumSnoc(s.counted, step.id, s.emitted, t.key);
      var more := s.counted + [step.id];
      assert more[..|s.counted| + 1] == more && more[|s.counted|] == step.id;
    } else if step.OtherWrites? {
      OwnSnoc(s.store.destFile, step.line, mine);
    }
  }

  /** Under any loss of acknowledgements, duplication, retry, reordering and trouble: an acknowledged id has been seen
      by the receiver, no id changes a count or writes a line twice, and an id has its line exactly when the delivery
      that was first accepted got as far as writing it. With an op2 that keeps the key these are the file's lines of
      the receiver's keys, one for one. With one that adds, every count is the sum over the ids counted, and every
      line has the value of the count when its id was counted. */
  lemma {:induction false} DeliveredAtMostOnce(states: seq<System>, steps: seq<Step>, op2: Op2, mine: Key -> bool,
                                               i: nat)
    requires IsRun(states, steps, op2, mine) && Start(states[0]) && i < |states|
    requires forall k :: 0 <= k < |steps| ==> CrashFree(steps[k])
    ensures AtMostOnce(states[i], mine)
    ensures KeepsKeys(op2) ==> LinesAre(states[i], mine)
    ensures Adds(op2) ==> CountsAre(states[i]) && LinesAre(states[i], mine) && ValuesAre(states[i], mine)
  {
    if i > 0 {
      DeliveredAtMostOnce(states, steps, op2, mine, i - 1);
      AtMostOnceKept(states[i - 1], steps[i - 1], op2, mine);
      hide AtMostOnce;
      hide LinesAre;
      hide CountsAre;
      hide ValuesAre;
      if KeepsKeys(op2) {
        LinesKept(states[i - 1], steps[i - 1], op2, mine);
      }
      if Adds(op2) {
        assert KeepsKeys(op2);
        CountsKept(states[i - 1], steps[i - 1], op2, mine);
        ValuesKept(states[i - 1], steps[i - 1], op2, mine);
      }
    }
  }

  /** An acknowledged id may still have no line: a delivery that fails after the id was remembered is answered Fail,
      and the retry is answered Completed. This happens exactly when the accepted delivery did not write, wrote being
      the lines of the file. */
  lemma AckedWithoutLineIff(states: seq<System>, steps: seq<Step>, op2: Op2, mine: Key -> bool, i: nat, id: Id)
    requires IsRun(states, steps, op2, mine) && Start(states[0]) && i < |states|
    requires forall k :: 0 <= k < |steps| ==> CrashFree(steps[k])
    requires id in states[i].acked
    ensures id in states[i].accepted
    ensures id !in states[i].wrote <==> !WritesLine(states[i].accepted[id])
    ensures KeepsKeys(op2) ==> LinesAre(states[i], mine)
  {
    DeliveredAtMostOnce(states, steps, op2, mine, i);
  }

  lemma FailedTupleIsAckedOnRetry(s: System, id: Id, op2: Op2, mine: Key -> bool)
    requires s.up && id in s.emitted && s.emitted[id].id == id && id !in s.store.aol && id !in s.wrote
    ensures var once := Next(s, Deliver(id, ExecFails, false), op2, mine);
            var twice := Next(once, Deliver(id, Smooth, false), op2, mine);
            id in twice.acked && id !in twice.wrote && twice.store.destFile == s.store.destFile
  {
  }

  /** Which delivery makes an id acknowledged: one whose acknowledgement arrives and that finds the log open, of an id
      that is known or goes all the way. */
  lemma AckedByDeliveryIff(s: System, id: Id, t: Trouble, lost: bool, op2: Op2, mine: Key -> bool)
    requires Enabled(s, Deliver(id, t, lost), mine) && s.emitted[id].id == id
    ensures var s' := Next(s, Deliver(id, t, lost), op2, mine);
            && (id in s'.acked <==> id in s.acked || (!lost && !t.OpenFails? && (id in s.store.aol || t.Smooth?)))
            && s.acked <= s'.acked <= s.acked + {id}
  {
  }

  /** So whatever trouble the first of two deliveries meets once the log is open, the second one is acknowledged if its
      answer is not lost. */
  lemma SecondDeliveryIsAcked(s: System, id: Id, t: Trouble, u: Trouble, lost: bool, op2: Op2, mine: Key -> bool)
    requires Enabled(s, Deliver(id, t, lost), mine) && s.emitted[id].id == id && !t.OpenFails? && !u.OpenFails?
    ensures var once := Next(s, Deliver(id, t, lost), op2, mine);
            id in Next(once, Deliver(id, u, false), op2, mine).acked
  {
    var once := Next(s, Deliver(id, t, lost), op2, mine);
    assert id in once.store.aol && once.emitted == s.emitted;
    AckedByDeliveryIff(once, id, u, false, op2, mine);
  }

  // ----- crashes, no trouble: counts -----

  // Deliveries go smoothly and a restart reads both files to the end.
  predicate Untroubled(step: Step) {
    match step
    case Deliver(id, t, lost) => t.Smooth?
    case Restart(load) => load.Complete?
    case _ => true
  }

  ghost predicate Adds(op2: Op2) {
    forall count, key, value :: op2(count, key, value) == Line(key, count + value)
  }

  ghost predicate Accounted(s: System, mine: Key -> bool) {
    && (forall id :: id in s.emitted ==> s.emitted[id].id == id && mine(s.emitted[id].key))
    && NoRepeats(s.store.aolFile)
    && (forall id :: id in s.store.aolFile || id in s.torn ==> id in s.emitted)
    && s.acked <= Elements(s.store.aolFile)
    && (forall key :: mine(key) ==> Count(LastValues(s.store.destFile), key) ==
                                    SumFor(s.store.aolFile, s.emitted, key) + SumFor(s.torn, s.emitted, key))
    && (s.up ==>
          s.store.aol == Elements(s.store.aolFile) && Agree(s.store.outputMap, LastValues(s.store.destFile), mine))
  }

  /** The same entries for the receiver's own keys. */
  ghost predicate Agree(a: map<Key, int>, b: map<Key, int>, mine: Key -> bool) {
    forall key :: mine(key) ==> (key in a <==> key in b) && (key in a ==> a[key] == b[key])
  }

  lemma {:induction false} SumIgnoresNew(ids: seq<Id>, emitted: map<Id, Tuple>, t: Tuple, key: Key)
    requires t.id !in emitted && forall id :: id in ids ==> id in emitted
    ensures SumFor(ids, emitted[t.id := t], key) == SumFor(ids, emitted, key)
  {
    if ids != [] {
      SumIgnoresNew(ids[..|ids| - 1], emitted, t, key);
    }
  }

  lemma LastSnoc(lines: seq<Line>, line: Line)
    ensures LastValues(lines + [line]) == LastValues(lines)[line.key := line.value]
  {
    assert (lines + [line])[..|lines|] == lines;
  }

  lemma SumSnoc(ids: seq<Id>, id: Id, emitted: map<Id, Tuple>, key: Key)
    ensures SumFor(ids + [id], emitted, key) ==
            SumFor(ids, emitted, key) + if id in emitted && emitted[id].key == key then emitted[id].value else 0
  {
    assert (ids + [id])[..|ids|] == ids;
  }

  lemma EmitAccounted(s: System, t: Tuple, op2: Op2, mine: Key -> bool)
    requires Accounted(s, mine) && Enabled(s, Emit(t), mine)
    ensures Accounted(Next(s, Emit(t), op2, mine), mine)
  {
    forall key
      ensures SumFor(s.store.aolFile, s.emitted[t.id := t], key) == SumFor(s.store.aolFile, s.emitted, key)
      ensures SumFor(s.torn, s.emitted[t.id := t], key) == SumFor(s.torn, s.emitted, key)
    {
      SumIgnoresNew(s.store.aolFile, s.emitted, t, key);
      SumIgnoresNew(s.torn, s.emitted, t, key);
    }
  }

  // The counting step: one more line, on top of the last count of its key.
  lemma LineAdds(s: System, id: Id, key: Key, mine: Key -> bool)
    requires Accounted(s, mine) && s.up && id in s.emitted && mine(key)
    ensures var t := s.emitted[id];
            var lines := s.store.destFile + [Line(t.key, Count(s.store.outputMap, t.key) + t.value)];
            Count(LastValues(lines), key) ==
            Count(LastValues(s.store.destFile), key) + if t.key == key then t.value else 0
  {
    var t := s.emitted[id];
    LastSnoc(s.store.destFile, Line(t.key, Count(s.store.outputMap, t.key) + t.value));
  }

  lemma DeliverAccounted(s: System, id: Id, lost: bool, op2: Op2, mine: Key -> bool)
    requires Accounted(s, mine) && Enabled(s, Deliver(id, Smooth, lost), mine) && Adds(op2)
    ensures Accounted(Next(s, Deliver(id, Smooth, lost), op2, mine), mine)
  {
    hide SumFor;
    hide LastValues;
    if id !in s.store.aol {
      var s' := Next(s, Deliver(id, Smooth, lost), op2, mine);
      assert s'.store == Logged(s.store, s.emitted[id]);
      DeliverSums(s, id, mine);
      DeliverSets(s, id);
    }
  }

  // The store after a smooth delivery of a new tuple.
  function Logged(store: Store, t: Tuple): Store {
    var value := Count(store.outputMap, t.key) + t.value;
    Store(store.aol + {t.id}, store.outputMap[t.key := value], store.destFile + [Line(t.key, value)],
          store.aolFile + [t.id])
  }

  lemma DeliverSums(s: System, id: Id, mine: Key -> bool)
    requires Accounted(s, mine) && s.up && id in s.emitted
    ensures var store := Logged(s.store, s.emitted[id]);
            && (forall key :: mine(key) ==> Count(LastValues(store.destFile), key) ==
                                            SumFor(store.aolFile, s.emitted, key) + SumFor(s.torn, s.emitted, key))
            && Agree(store.outputMap, LastValues(store.destFile), mine)
  {
    var store, t := Logged(s.store, s.emitted[id]), s.emitted[id];
    LastSnoc(s.store.destFile, Line(t.key, Count(s.store.outputMap, t.key) + t.value));
    forall key | mine(key)
      ensures Count(LastValues(store.destFile), key) ==
              SumFor(store.aolFile, s.emitted, key) + SumFor(s.torn, s.emitted, key)
    {
      LineAdds(s, id, key, mine);
      SumSnoc(s.store.aolFile, id, s.emitted, key);
    }
  }

  lemma DeliverSets(s: System, id: Id)
    requires s.store.aol == Elements(s.store.aolFile) && NoRepeats(s.store.aolFile)
    requires id in s.emitted && s.emitted[id].id == id && id !in s.store.aol
    ensures var store := Logged(s.store, s.emitted[id]);
            store.aol == Elements(store.aolFile) && NoRepeats(store.aolFile)
  {
    assert forall k :: 0 <= k < |s.store.aolFile| ==> s.store.aolFile[k] in Elements(s.store.aolFile);
  }

  lemma TearAccounted(s: System, id: Id, op2: Op2, mine: Key -> bool)
    requires Accounted(s, mine) && Enabled(s, CrashBeforeLogging(id), mine) && Adds(op2)
    ensures Accounted(Next(s, CrashBeforeLogging(id), op2, mine), mine)
  {
    hide SumFor;
    hide LastValues;
    var s', t := Next(s, CrashBeforeLogging(id), op2, mine), s.emitted[id];
    var line := Line(t.key, Count(s.store.outputMap, t.key) + t.value);
    assert s'.store.destFile == s.store.destFile + [line] && s'.torn == s.torn + [id];
    forall key | mine(key)
      ensures Count(LastValues(s'.store.destFile), key) ==
              SumFor(s.store.aolFile, s.emitted, key) + SumFor(s'.torn, s.emitted, key)
    {
      LineAdds(s, id, key, mine);
      SumSnoc(s.torn, id, s.emitted, key);
    }
  }

  lemma AccountedKept(s: System, step: Step, op2: Op2, mine: Key -> bool)
    requires Accounted(s, mine) && Enabled(s, step, mine) && Untroubled(step) && Adds(op2)
    ensures Accounted(Next(s, step, op2, mine), mine)
  {
    match step
    case Emit(t) => EmitAccounted(s, t, op2, mine);
    case Deliver(id, t, lost) => DeliverAccounted(s, id, lost, op2, mine);
    case Crash =>
    case CrashBeforeLogging(id) => TearAccounted(s, id, op2, mine);
    case Restart(_) =>
    case OtherWrites(line) => OtherAccounted(s, line, op2, mine);
  }

  lemma OtherAccounted(s: System, line: Line, op2: Op2, mine: Key -> bool)
    requires Accounted(s, mine) && Enabled(s, OtherWrites(line), mine)
    ensures Accounted(Next(s, OtherWrites(line), op2, mine), mine)
  {
    hide LastValues;
    hide SumFor;
    var s' := Next(s, OtherWrites(line), op2, mine);
    assert s' == s.(store := s.store.(destFile := s.store.destFile + [line]));
    LastSnoc(s.store.destFile, line);
    var was, now := LastValues(s.store.destFile), LastValues(s'.store.destFile);
    forall key | mine(key) ensures Count(now, key) == Count(was, key) && (key in now <==> key in was) {
      assert key != line.key;
    }
  }

  /** Over every untroubled run, crashes and restarts included, the count of each of the receiver's keys is the
      sum over the ids in its log plus the sum over the deliveries torn by a crash. */
  lemma {:induction false} CountsAreAccounted(states: seq<System>, steps: seq<Step>, op2: Op2, mine: Key -> bool,
                                              i: nat)
    requires IsRun(states, steps, op2, mine) && Start(states[0]) && i < |states| && Adds(op2)
    requires forall k :: 0 <= k < |steps| ==> Untroubled(steps[k])
    ensures Accounted(states[i], mine)
  {
    if i > 0 {
      CountsAreAccounted(states, steps, op2, mine, i - 1);
      AccountedKept(states[i - 1], steps[i - 1], op2, mine);
    }
  }

  // ----- unit values: sums are numbers of ids -----

  ghost predicate UnitValues(s: System) {
    forall id :: id in s.emitted ==> s.emitted[id].value == 1
  }

  /** The ids of the set that carry the key. */
  function WithKey(ids: set<Id>, emitted: map<Id, Tuple>, key: Key): set<Id> {
    set id | id in ids && id in emitted && emitted[id].key == key
  }

  function Occurrences(ids: seq<Id>, emitted: map<Id, Tuple>, key: Key): (n: nat)
    ensures n <= |ids|
  {
    if ids == [] then 0
    else
      var last := ids[|ids| - 1];
      Occurrences(ids[..|ids| - 1], emitted, key) + if last in emitted && emitted[last].key == key then 1 else 0
  }

  lemma {:induction false} UnitSum(ids: seq<Id>, s: System, key: Key)
    requires UnitValues(s)
    ensures SumFor(ids, s.emitted, key) == Occurrences(ids, s.emitted, key)
  {
    if ids != [] {
      UnitSum(ids[..|ids| - 1], s, key);
    }
  }

  lemma OneMoreWithKey(front: seq<Id>, last: Id, emitted: map<Id, Tuple>, key: Key)
    ensures Elements(front + [last]) == Elements(front) + {last}
    ensures WithKey(Elements(front + [last]), emitted, key)
         == WithKey(Elements(front), emitted, key) + if last in emitted && emitted[last].key == key then {last} else {}
  {
    assert forall id :: id in front + [last] <==> id in front || id == last;
    assert Elements(front + [last]) == Elements(front) + {last};
  }

  lemma {:induction false} OccurrencesOfDistinct(ids: seq<Id>, emitted: map<Id, Tuple>, key: Key)
    requires NoRepeats(ids)
    ensures Occurrences(ids, emitted, key) == |WithKey(Elements(ids), emitted, key)|
  {
    if ids == [] {
      assert WithKey(Elements(ids), emitted, key) == {};
    } else {
      var front, last := ids[..|ids| - 1], ids[|ids| - 1];
      OccurrencesOfDistinct(front, emitted, key);
      assert ids == front + [last] && last !in WithKey(Elements(front), emitted, key);
      OneMoreWithKey(front, last, emitted, key);
      hide WithKey;
      hide Elements;
    }
  }

  lemma {:induction false} FewerInSubset(a: set<Id>, b: set<Id>)
    requires a <= b
    ensures |a| <= |b|
  {
    assert b == a + (b - a);
  }

  /** Exactly once without crashes: per key, the acknowledged ids are at most the count and the count at most the
      emitted ids, and they are all equal once every emitted id has been acknowledged. */
  lemma ExactlyOnceWithoutTrouble(states: seq<System>, steps: seq<Step>, op2: Op2, mine: Key -> bool, i: nat, key: Key)
    requires IsRun(states, steps, op2, mine) && Start(states[0]) && i < |states| && Adds(op2)
    requires forall k :: 0 <= k < |steps| ==> Untroubled(steps[k]) && CrashFree(steps[k])
    requires UnitValues(states[i]) && mine(key)
    ensures var s := states[i];
            && |WithKey(s.acked, s.emitted, key)| <= Count(s.store.outputMap, key)
            && Count(s.store.outputMap, key) <= |WithKey(s.emitted.Keys, s.emitted, key)|
            && (s.emitted.Keys <= s.acked ==>
                  && |WithKey(s.acked, s.emitted, key)| == Count(s.store.outputMap, key)
                  && Count(s.store.outputMap, key) == |WithKey(s.emitted.Keys, s.emitted, key)|)
  {
    var s := states[i];
    CountsAreAccounted(states, steps, op2, mine, i);
    NothingTorn(states, steps, op2, mine, i);
    UnitSum(s.store.aolFile, s, key);
    OccurrencesOfDistinct(s.store.aolFile, s.emitted, key);
    var logged := Elements(s.store.aolFile);
    FewerInSubset(WithKey(s.acked, s.emitted, key), WithKey(logged, s.emitted, key));
    FewerInSubset(WithKey(logged, s.emitted, key), WithKey(s.emitted.Keys, s.emitted, key));
    if s.emitted.Keys <= s.acked {
      FewerInSubset(WithKey(s.emitted.Keys, s.emitted, key), WithKey(s.acked, s.emitted, key));
    }
  }

  lemma {:induction false} NothingTorn(states: seq<System>, steps: seq<Step>, op2: Op2, mine: Key -> bool, i: nat)
    requires IsRun(states, steps, op2, mine) && Start(states[0]) && i < |states|
    requires forall k :: 0 <= k < |steps| ==> CrashFree(steps[k])
    ensures states[i].torn == [] && states[i].up
  {
    if i > 0 {
      NothingTorn(states, steps, op2, mine, i - 1);
    }
  }

  /** With crashes, each count exceeds the distinct ids behind it by at most the number of crashes that fell
      between the line and the log entry of a tuple of that key. */
  lemma OvercountedByTornOnly(states: seq<System>, steps: seq<Step>, op2: Op2, mine: Key -> bool, i: nat, key: Key)
    requires IsRun(states, steps, op2, mine) && Start(states[0]) && i < |states| && Adds(op2)
    requires forall k :: 0 <= k < |steps| ==> Untroubled(steps[k])
    requires UnitValues(states[i]) && mine(key)
    ensures var s := states[i];
            var behind := WithKey(Elements(s.store.aolFile) + Elements(s.torn), s.emitted, key);
            |behind| <= Count(LastValues(s.store.destFile), key) <= |behind| + Occurrences(s.torn, s.emitted, key)
  {
    var s := states[i];
    CountsAreAccounted(states, steps, op2, mine, i);
    UnitSum(s.store.aolFile, s, key);
    UnitSum(s.torn, s, key);
    OccurrencesOfDistinct(s.store.aolFile, s.emitted, key);
    AtLeastDistinct(s.torn, s.emitted, key);
    var logged, torn := WithKey(Elements(s.store.aolFile), s.emitted, key), WithKey(Elements(s.torn), s.emitted, key);
    var behind := WithKey(Elements(s.store.aolFile) + Elements(s.torn), s.emitted, key);
    assert behind == logged + torn;
    FewerInSubset(logged, behind);
  }

  lemma {:induction false} AtLeastDistinct(ids: seq<Id>, emitted: map<Id, Tuple>, key: Key)
    ensures |WithKey(Elements(ids), emitted, key)| <= Occurrences(ids, emitted, key)
  {
    if ids == [] {
      assert WithKey(Elements(ids), emitted, key) == {};
    } else {
      var front, last := ids[..|ids| - 1], ids[|ids| - 1];
      AtLeastDistinct(front, emitted, key);
      assert ids == front + [last];
      OneMoreWithKey(front, last, emitted, key);
      hide WithKey;
      hide Elements;
    }
  }
}
