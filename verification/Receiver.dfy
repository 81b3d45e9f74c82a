/** The receiving side of a stage-2 task: de-duplicate, count, write, log, and rebuild after a restart. */
module Receiver {
  import opened WorkSplit

  /** A line of the destination file. */
  datatype Line = Line(key: Key, value: int)

  /** op2 gets the count so far, and a tuple's key and value. */
  type Op2 = (int, Key, int) -> Line

  /** How the environment treats one delivery. The two write troubles differ in whether the line got through. */
  datatype Trouble = OpenFails | NoTask | ExecFails | WriteLost | WriteUnconfirmed | AppendFails | Smooth

  /** Answer on the stream: only Fail makes the sender try again. */
  datatype Reply = Success | Completed | Fail

  /** aol and outputMap live in memory; destFile and aolFile survive a crash. */
  datatype Store = Store(aol: set<Id>, outputMap: map<Key, int>, destFile: seq<Line>, aolFile: seq<Id>)

  function Count(outputMap: map<Key, int>, key: Key): int {
    if key in outputMap then outputMap[key] else 0
  }

  predicate Counts(t: Trouble) { t.WriteLost? || t.WriteUnconfirmed? || t.AppendFails? || t.Smooth? }

  predicate WritesLine(t: Trouble) { t.WriteUnconfirmed? || t.AppendFails? || t.Smooth? }

  /** The store after one delivery: the id is remembered before anything else is tried. */
  function Processed(s: Store, tuple: Tuple, op2: Op2, t: Trouble): Store {
    if t.OpenFails? || tuple.id in s.aol then s
    else
      var line := op2(Count(s.outputMap, tuple.key), tuple.key, tuple.value);
      Store(s.aol + {tuple.id},
            if Counts(t) then s.outputMap[tuple.key := line.value] else s.outputMap,
            if WritesLine(t) then s.destFile + [line] else s.destFile,
            if t.Smooth? then s.aolFile + [tuple.id] else s.aolFile)
  }

  function Answer(s: Store, tuple: Tuple, t: Trouble): Reply {
    if t.OpenFails? then Fail
    else if tuple.id in s.aol then Completed
    else if t.Smooth? then Success
    else Fail
  }

  /** The reply, told from the memory before and the files after: a success is a new id for which both the line and the
      log entry have got through, and a known id is answered without touching anything. */
  ghost predicate TellsTheOutcome(before: Store, after: Store, tuple: Tuple, opens: bool, reply: Reply) {
    && (reply.Success? <==>
          && opens && tuple.id !in before.aol && |after.destFile| == |before.destFile| + 1
          && after.aolFile == before.aolFile + [tuple.id])
    && (reply.Completed? <==> opens && tuple.id in before.aol)
    && (reply.Completed? ==> after == before)
    && (!opens ==> after == before)
  }

  lemma AnswerTells(s: Store, tuple: Tuple, op2: Op2, t: Trouble)
    ensures TellsTheOutcome(s, Processed(s, tuple, op2, t), tuple, !t.OpenFails?, Answer(s, tuple, t))
    ensures t.Smooth? && tuple.id !in s.aol ==> Answer(s, tuple, t).Success?
  {
    var line := op2(Count(s.outputMap, tuple.key), tuple.key, tuple.value);
    assert |s.destFile + [line]| == |s.destFile| + 1;
    assert |s.aolFile + [tuple.id]| == |s.aolFile| + 1;
  }

  /** The last value written for each key. */
  function LastValues(lines: seq<Line>): map<Key, int> {
    if lines == [] then map[]
    else LastValues(lines[..|lines| - 1])[lines[|lines| - 1].key := lines[|lines| - 1].value]
  }

  function Elements(ids: seq<Id>): set<Id> {
    set id | id in ids
  }

  /** How far a restart gets. The destination file cannot be fetched; reading it ends at a line that does not parse or
      cannot be read; reading the log of ids ends early; the file comes without its latest lines, which the store still
      has in a log of its own, and all ids are read; or both are read to the end. A file that ends early can also be
      followed by a log that does. */
  datatype Load =
    | NotFetched
    | CountsBroken(lines: nat)
    | IdsBroken(lines: nat, ids: nat)
    | Stale(lines: nat)
    | Complete

  function Prefix<T>(s: seq<T>, k: nat): seq<T> {
    if k <= |s| then s[..k] else s
  }

  function LinesRead(s: Store, load: Load): seq<Line> {
    match load
    case NotFetched => []
    case CountsBroken(k) => Prefix(s.destFile, k)
    case IdsBroken(k, _) => Prefix(s.destFile, k)
    case Stale(k) => Prefix(s.destFile, k)
    case Complete => s.destFile
  }

  function IdsRead(s: Store, load: Load): seq<Id> {
    match load
    case NotFetched => []
    case CountsBroken(_) => []
    case IdsBroken(_, k) => Prefix(s.aolFile, k)
    case Stale(_) => s.aolFile
    case Complete => s.aolFile
  }

  /** The store after a restart. An error returns with what has been read so far, counts first and ids last. */
  function Restarted(s: Store, load: Load): Store {
    Store(Elements(IdsRead(s, load)), LastValues(LinesRead(s, load)), s.destFile, s.aolFile)
  }

  /** A restart without an error. The receiver cannot tell a file that lacks its latest lines. */
  predicate Succeeds(load: Load) {
    load.Stale? || load.Complete?
  }

  class ReceivingWorker {
    const op2: Op2
    var aol: set<Id>
    var outputMap: map<Key, int>
    var processedIDs: set<Id>
    // Files: the destination file in the store, and the local log of processed ids.
    var destFile: seq<Line>
    var aolFile: seq<Id>

    constructor (op2: Op2, destFile: seq<Line>, aolFile: seq<Id>)
      ensures this.op2 == op2 && this.destFile == destFile && this.aolFile == aolFile
      ensures aol == {} && outputMap == map[]
    {
      this.op2, this.destFile, this.aolFile := op2, destFile, aolFile;
      aol, outputMap, processedIDs := {}, map[], {};
    }

    ghost function View(): Store
      reads this
    {
      Store(aol, outputMap, destFile, aolFile)
    }

    /** One received tuple, under the given trouble. */
    method ProcessReceivedTuples(tuple: Tuple, t: Trouble) returns (reply: Reply)
      modifies `aol, `outputMap, `destFile, `aolFile
      ensures View() == Processed(old(View()), tuple, op2, t)
      ensures reply == Answer(old(View()), tuple, t)
      ensures TellsTheOutcome(old(View()), View(), tuple, !t.OpenFails?, reply)
      ensures t.Smooth? ==> !reply.Fail?
    {
      AnswerTells(View(), tuple, op2, t);
      if t.OpenFails? {
        return Fail;
      }
      if tuple.id in aol {
        return Completed;
      }
      aol := aol + {tuple.id};
      if t.NoTask? {
        return Fail;
      }
      var count := if tuple.key in outputMap then outputMap[tuple.key] else 0;
      if t.ExecFails? {
        return Fail;
      }
      var outputTuple := op2(count, tuple.key, tuple.value);
      outputMap := outputMap[tuple.key := outputTuple.value];
      if !t.WriteLost? {
        destFile := destFile + [outputTuple];
      }
      if t.WriteLost? || t.WriteUnconfirmed? {
        return Fail;
      }
      if t.AppendFails? {
        return Fail;
      }
      aolFile := aolFile + [tuple.id];
      return Success;
    }

    /** The stream handler around it. */
    method ExchangeTuple(tuple: Tuple, t: Trouble) returns (reply: Reply)
      modifies this
      ensures View() == Processed(old(View()), tuple, op2, t)
      ensures reply == Answer(old(View()), tuple, t)
      ensures TellsTheOutcome(old(View()), View(), tuple, !t.OpenFails?, reply)
      ensures t.Smooth? ==> !reply.Fail?
      ensures processedIDs == old(processedIDs) + if reply.Success? then {tuple.id} else {}
    {
      reply := ProcessReceivedTuples(tuple, t);
      if reply.Success? {
        processedIDs := processedIDs + {tuple.id};
      }
    }

    /** Rebuilds the in-memory state from the two files. */
    method PrepareTask(load: Load) returns (ok: bool)
      modifies `aol, `outputMap, `processedIDs
      ensures View() == Restarted(old(View()), load)
      ensures ok == Succeeds(load) && processedIDs == {}
      ensures ok <==> !load.NotFetched? && !load.CountsBroken? && !load.IdsBroken?
      ensures ok ==> aol == Elements(aolFile)
    {
      processedIDs, outputMap, aol := {}, map[], {};
      assert destFile[..|destFile|] == destFile && aolFile[..|aolFile|] == aolFile;
      if load.NotFetched? {
        return false;
      }
      LoadCounts(if !load.Complete? && load.lines < |destFile| then load.lines else |destFile|);
      if load.CountsBroken? {
        return false;
      }
      LoadIds(if load.IdsBroken? && load.ids < |aolFile| then load.ids else |aolFile|);
      return Succeeds(load);
    }

    method LoadCounts(end: nat)
      requires end <= |destFile| && outputMap == map[]
      modifies `outputMap
      ensures outputMap == LastValues(destFile[..end])
    {
      for i := 0 to end
        invariant outputMap == LastValues(destFile[..i])
      {
        assert destFile[..i + 1][..i] == destFile[..i];
        outputMap := outputMap[destFile[i].key := destFile[i].value];
      }
    }

    method LoadIds(end: nat)
      requires end <= |aolFile| && aol == {}
      modifies `aol
      ensures aol == Elements(aolFile[..end])
    {
      for i := 0 to end
        invariant aol == Elements(aolFile[..i])
      {
        assert aolFile[..i + 1] == aolFile[..i] + [aolFile[i]];
        aol := aol + {aolFile[i]};
      }
    }
  }
}
