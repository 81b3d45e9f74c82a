/** Append-only logs in front of the files, and the compaction that flushes them. */
module Compaction {
  import opened Files

  type LogKey = string
  type Bytes = seq<bv8>

  /** replicate marks a copy sent by failure repair. */
  datatype Entry = Entry(file: File, data: Bytes, replicate: bool)

  function Content(disk: map<File, Bytes>, f: File): Bytes {
    if f in disk then disk[f] else []
  }

  /** Flushing one entry: append and create, unless it is a repair copy of a file that exists. */
  function FlushEntry(disk: map<File, Bytes>, e: Entry): map<File, Bytes> {
    if e.replicate && e.file in disk then disk
    else disk[e.file := Content(disk, e.file) + e.data]
  }

  function Flush(disk: map<File, Bytes>, entries: seq<Entry>): map<File, Bytes> {
    if entries == [] then disk
    else FlushEntry(Flush(disk, entries[..|entries| - 1]), entries[|entries| - 1])
  }

  /** The data of the entries for one file, in order. */
  function DataFor(entries: seq<Entry>, f: File): Bytes {
    if entries == [] then []
    else
      var last := entries[|entries| - 1];
      DataFor(entries[..|entries| - 1], f) + if last.file == f then last.data else []
  }

  function Flat(segments: seq<seq<Entry>>): seq<Entry> {
    if segments == [] then [] else Flat(segments[..|segments| - 1]) + segments[|segments| - 1]
  }

  predicate Plain(entries: seq<Entry>) {
    forall i :: 0 <= i < |entries| ==> !entries[i].replicate
  }

  predicate Mentions(entries: seq<Entry>, f: File) {
    exists i :: 0 <= i < |entries| && entries[i].file == f
  }

  // ----- flushing -----

  /** Flushing in two parts is flushing at once, repair copies included. */
  lemma {:induction false} FlushInParts(disk: map<File, Bytes>, a: seq<Entry>, b: seq<Entry>)
    ensures Flush(Flush(disk, a), b) == Flush(disk, a + b)
  {
    if b == [] {
      assert a + b == a;
    } else {
      FlushInParts(disk, a, b[..|b| - 1]);
      assert (a + b)[..|a + b| - 1] == a + b[..|b| - 1];
    }
  }

  lemma {:induction false} DataInParts(a: seq<Entry>, b: seq<Entry>, f: File)
    ensures DataFor(a + b, f) == DataFor(a, f) + DataFor(b, f)
  {
    if b == [] {
      assert a + b == a;
    } else {
      DataInParts(a, b[..|b| - 1], f);
      assert (a + b)[..|a + b| - 1] == a + b[..|b| - 1];
    }
  }

  lemma FlushEntryAppends(disk: map<File, Bytes>, e: Entry, f: File)
    requires !e.replicate
    ensures Content(FlushEntry(disk, e), f) == Content(disk, f) + if e.file == f then e.data else []
    ensures f in FlushEntry(disk, e) <==> f in disk || e.file == f
  {
  }

  lemma MentionsSnoc(entries: seq<Entry>, f: File)
    requires entries != []
    ensures Mentions(entries, f) <==> Mentions(entries[..|entries| - 1], f) || entries[|entries| - 1].file == f
  {
    var front := entries[..|entries| - 1];
    if Mentions(front, f) {
      var i :| 0 <= i < |front| && front[i].file == f;
      assert entries[i].file == f;
    }
  }

  /** Without repair copies a flush appends to each file its own data, in log order, whoever shares the log. */
  lemma {:induction false} FlushAppends(disk: map<File, Bytes>, entries: seq<Entry>, f: File)
    requires Plain(entries)
    ensures Content(Flush(disk, entries), f) == Content(disk, f) + DataFor(entries, f)
    ensures f in Flush(disk, entries) <==> f in disk || Mentions(entries, f)
  {
    hide FlushEntry;
    hide Content;
    if entries != [] {
      hide Mentions;
      var front, last := entries[..|entries| - 1], entries[|entries| - 1];
      FlushAppends(disk, front, f);
      FlushEntryAppends(Flush(disk, front), last, f);
      MentionsSnoc(entries, f);
    }
  }

  lemma NoData(entries: seq<Entry>, f: File)
    requires !Mentions(entries, f)
    ensures DataFor(entries, f) == []
  {
    if entries != [] {
      var front := entries[..|entries| - 1];
      assert forall i :: 0 <= i < |front| ==> front[i] == entries[i];
      assert entries[|entries| - 1].file != f;
      NoData(front, f);
    }
  }

  // ----- the store -----

  class AolStore {
    const keyOf: File -> LogKey
    // Known logs, with their IsRead flag; the log files as segments of entries; the flushed files.
    var Mapper: map<LogKey, bool>
    var logs: map<LogKey, seq<seq<Entry>>>
    var disk: map<File, Bytes>
    ghost var written: seq<Entry>

    constructor (keyOf: File -> LogKey)
      ensures Valid() && this.keyOf == keyOf && View() == Store(map[], map[], [])
    {
      this.keyOf := keyOf;
      Mapper, logs, disk, written := map[], map[], map[], [];
    }

    /** Only known logs have a file. */
    ghost predicate Valid()
      reads `Mapper, `logs
    {
      logs.Keys <= Mapper.Keys
    }

    /** The known logs, without their segmentation. */
    ghost function View(): Store
      reads this
    {
      Store(disk, map k | k in Mapper :: Pending(k), written)
    }

    function Pending(key: LogKey): seq<Entry>
      reads `logs
    {
      if key in logs then Flat(logs[key]) else []
    }

    method MapToAOLLog(file: File) returns (key: LogKey)
      modifies `Mapper
      ensures key == keyOf(file)
      ensures Mapper == if key in old(Mapper) then old(Mapper) else old(Mapper)[key := false]
    {
      key := keyOf(file);
      if key in Mapper {
        return;
      }
      Mapper := Mapper[key := false];
    }

    /** Appends the entry to the log of its file; a full segment is closed and a new one begun. */
    method WriteLog(e: Entry)
      requires Valid()
      modifies `Mapper, `logs, `written
      ensures Valid() && View() == Next(old(View()), Write(e), keyOf)
      ensures Pending(keyOf(e.file)) == old(Pending(keyOf(e.file))) + [e]
      ensures forall k :: k != keyOf(e.file) ==> Pending(k) == old(Pending(k))
      ensures keyOf(e.file) in Mapper && Mapper.Keys == old(Mapper).Keys + {keyOf(e.file)}
      ensures forall k :: k in old(Mapper) ==> Mapper[k] == old(Mapper)[k]
    {
      hide Flat;
      ghost var was := View();
      var key := MapToAOLLog(e.file);
      AppendToLog(key, e);
      written := written + [e];
      assert View().logs == was.logs[key := LogOf(was, key) + [e]];
    }

    method AppendToLog(key: LogKey, e: Entry)
      modifies `logs
      ensures logs.Keys == old(logs).Keys + {key}
      ensures Pending(key) == old(Pending(key)) + [e]
      ensures forall k :: k != key ==> Pending(k) == old(Pending(k))
    {
      var segments := if key in logs then logs[key] else [];
      var newSegment: bool := *;
      if newSegment || segments == [] {
        FlatSnoc(segments, [e]);
        logs := logs[key := segments + [[e]]];
      } else {
        var n := |segments|;
        FlatSnoc(segments[..n - 1], segments[n - 1] + [e]);
        logs := logs[key := segments[..n - 1] + [segments[n - 1] + [e]]];
      }
    }

    /** Flushes a known log and clears it. */
    method ReadLog(key: LogKey)
      requires Valid()
      modifies this
      ensures Valid() && View() == Next(old(View()), Read(key), keyOf)
      ensures key !in old(Mapper) ==> Mapper == old(Mapper) && logs == old(logs) && disk == old(disk)
      ensures key in old(Mapper) ==>
                && disk == Flush(old(disk), old(Pending(key)))
                && Pending(key) == []
                && Mapper == old(Mapper)[key := true]
      ensures forall k :: k != key ==> Pending(k) == old(Pending(k))
    {
      hide Flush;
      FlatNothing();
      hide Flat;
      ghost var was := View();
      if key !in Mapper {
        return;
      }
      ReadSegments(if key in logs then logs[key] else []);
      Mapper := Mapper[key := true];
      logs := logs[key := []];
      assert View().logs == was.logs[key := []];
    }

    /** Segment by segment and entry by entry. */
    method ReadSegments(segments: seq<seq<Entry>>)
      modifies `disk
      ensures disk == Flush(old(disk), Flat(segments))
    {
      ghost var start := disk;
      for segmentIndex := 0 to |segments|
        invariant disk == Flush(start, Flat(segments[..segmentIndex]))
      {
        var segment := segments[segmentIndex];
        ReadSegment(segment);
        FlushInParts(start, Flat(segments[..segmentIndex]), segment);
        assert segments[..segmentIndex + 1][..segmentIndex] == segments[..segmentIndex];
      }
      assert segments[..|segments|] == segments;
    }

    method ReadSegment(segment: seq<Entry>)
      modifies `disk
      ensures disk == Flush(old(disk), segment)
    {
      var entryIndex := 0;
      while entryIndex < |segment|
        invariant 0 <= entryIndex <= |segment|
        invariant disk == Flush(old(disk), segment[..entryIndex])
      {
        var aolEntry := segment[entryIndex];
        assert segment[..entryIndex + 1][..entryIndex] == segment[..entryIndex];
        if aolEntry.replicate {
          if aolEntry.file in disk {
            entryIndex := entryIndex + 1;
            continue;
          }
        }
        if aolEntry.file !in disk {
          disk := disk[aolEntry.file := []];
        }
        disk := disk[aolEntry.file := disk[aolEntry.file] + aolEntry.data];
        entryIndex := entryIndex + 1;
      }
      assert segment[..|segment|] == segment;
    }

    /** Before a file is read its log is flushed, unless it was flushed once before. */
    method MergeAoLOnRead(file: File)
      requires Valid()
      modifies this
      ensures Valid()
      ensures keyOf(file) in old(Mapper) && !old(Mapper)[keyOf(file)] ==>
                && disk == Flush(old(disk), old(Pending(keyOf(file)))) && Pending(keyOf(file)) == []
                && Mapper == old(Mapper)[keyOf(file) := true]
      ensures !(keyOf(file) in old(Mapper) && !old(Mapper)[keyOf(file)]) ==>
                Mapper == old(Mapper) && logs == old(logs) && disk == old(disk)
      ensures forall k :: k != keyOf(file) ==> Pending(k) == old(Pending(k))
      ensures keyOf(file) in Mapper ==> Mapper[keyOf(file)]
    {
      var key := keyOf(file);
      if key in Mapper && !Mapper[key] {
        ReadLog(key);
      }
    }
  }

  lemma FlatNothing()
    ensures Flat([]) == []
  {
  }

  lemma FlatSnoc(segments: seq<seq<Entry>>, last: seq<Entry>)
    ensures Flat(segments + [last]) == Flat(segments) + last
  {
    assert (segments + [last])[..|segments|] == segments;
  }

  // ----- runs -----

  datatype Store = Store(disk: map<File, Bytes>, logs: map<LogKey, seq<Entry>>, written: seq<Entry>)

  datatype Step = Write(entry: Entry) | Read(key: LogKey)

  function LogOf(s: Store, key: LogKey): seq<Entry> {
    if key in s.logs then s.logs[key] else []
  }

  function Next(s: Store, step: Step, keyOf: File -> LogKey): Store {
    match step
    case Write(e) =>
      Store(s.disk, s.logs[keyOf(e.file) := LogOf(s, keyOf(e.file)) + [e]], s.written + [e])
    case Read(key) =>
      if key in s.logs then Store(Flush(s.disk, s.logs[key]), s.logs[key := []], s.written) else s
  }

  function After(s: Store, steps: seq<Step>, keyOf: File -> LogKey): Store {
    if steps == [] then s
    else Next(After(s, steps[..|steps| - 1], keyOf), steps[|steps| - 1], keyOf)
  }

  // A log holds only plain entries, of files that map to it.
  predicate OwnEntries(log: seq<Entry>, key: LogKey, keyOf: File -> LogKey) {
    forall i :: 0 <= i < |log| ==> !log[i].replicate && keyOf(log[i].file) == key
  }

  ghost predicate NothingLost(s: Store, keyOf: File -> LogKey) {
    && (forall k :: k in s.logs ==> OwnEntries(s.logs[k], k, keyOf))
    && (forall f :: Content(s.disk, f) + DataFor(LogOf(s, keyOf(f)), f) == DataFor(s.written, f))
  }

  lemma WriteAdds(s: Store, e: Entry, keyOf: File -> LogKey, f: File)
    requires Content(s.disk, f) + DataFor(LogOf(s, keyOf(f)), f) == DataFor(s.written, f)
    ensures var s' := Next(s, Write(e), keyOf);
            Content(s'.disk, f) + DataFor(LogOf(s', keyOf(f)), f) == DataFor(s'.written, f)
  {
    hide DataFor;
    DataSnoc(LogOf(s, keyOf(f)), e, f);
    DataSnoc(s.written, e, f);
    assert LogOf(Next(s, Write(e), keyOf), keyOf(f)) ==
           LogOf(s, keyOf(f)) + if keyOf(e.file) == keyOf(f) then [e] else [];
  }

  lemma DataSnoc(entries: seq<Entry>, e: Entry, f: File)
    ensures DataFor(entries + [e], f) == DataFor(entries, f) + if e.file == f then e.data else []
    ensures DataFor([], f) == []
  {
    assert (entries + [e])[..|entries|] == entries;
  }

  lemma ReadMoves(s: Store, key: LogKey, keyOf: File -> LogKey, f: File)
    requires key in s.logs && OwnEntries(s.logs[key], key, keyOf)
    ensures var s' := Next(s, Read(key), keyOf);
            Content(s'.disk, f) + DataFor(LogOf(s', keyOf(f)), f) == Content(s.disk, f) + DataFor(LogOf(s, keyOf(f)), f)
  {
    hide DataFor;
    hide Flush;
    FlushAppends(s.disk, s.logs[key], f);
    if keyOf(f) != key {
      NoData(s.logs[key], f);
    } else {
      DataSnoc([], Entry(f, [], false), f);
    }
  }

  lemma NothingLostKept(s: Store, step: Step, keyOf: File -> LogKey)
    requires NothingLost(s, keyOf) && (step.Write? ==> !step.entry.replicate)
    ensures NothingLost(Next(s, step, keyOf), keyOf)
  {
    hide DataFor;
    hide Flush;
    match step
    case Write(e) =>
      assert OwnEntries(LogOf(s, keyOf(e.file)) + [e], keyOf(e.file), keyOf);
      forall f {
        WriteAdds(s, e, keyOf, f);
      }
    case Read(key) =>
      if key in s.logs {
        forall f {
          ReadMoves(s, key, keyOf, f);
        }
      }
  }

  lemma VisibleOnceFlushed(s: Store, keyOf: File -> LogKey, f: File)
    requires NothingLost(s, keyOf)
    ensures Content(Next(s, Read(keyOf(f)), keyOf).disk, f) == DataFor(s.written, f)
  {
    NothingLostKept(s, Read(keyOf(f)), keyOf);
    var s' := Next(s, Read(keyOf(f)), keyOf);
    assert DataFor(LogOf(s', keyOf(f)), f) == [];
  }

  /** Whenever logs are flushed, and whichever files share them: the bytes on disk followed by the entries still
      pending are all the entries ever written for the file, in the order in which they were written. */
  lemma {:induction false} CompactionTimingIsInvisible(s: Store, steps: seq<Step>, keyOf: File -> LogKey)
    requires NothingLost(s, keyOf)
    requires forall i :: 0 <= i < |steps| && steps[i].Write? ==> !steps[i].entry.replicate
    ensures NothingLost(After(s, steps, keyOf), keyOf)
  {
    if steps != [] {
      CompactionTimingIsInvisible(s, steps[..|steps| - 1], keyOf);
      NothingLostKept(After(s, steps[..|steps| - 1], keyOf), steps[|steps| - 1], keyOf);
    }
  }

  /** So two runs that write the same entries for a file leave the same file behind once it has been flushed. */
  lemma SameWritesSameFile(s: Store, one: seq<Step>, two: seq<Step>, keyOf: File -> LogKey, f: File)
    requires NothingLost(s, keyOf)
    requires forall i :: 0 <= i < |one| && one[i].Write? ==> !one[i].entry.replicate
    requires forall i :: 0 <= i < |two| && two[i].Write? ==> !two[i].entry.replicate
    requires DataFor(After(s, one, keyOf).written, f) == DataFor(After(s, two, keyOf).written, f)
    ensures Content(Next(After(s, one, keyOf), Read(keyOf(f)), keyOf).disk, f) ==
            Content(Next(After(s, two, keyOf), Read(keyOf(f)), keyOf).disk, f)
  {
    CompactionTimingIsInvisible(s, one, keyOf);
    CompactionTimingIsInvisible(s, two, keyOf);
    VisibleOnceFlushed(After(s, one, keyOf), keyOf, f);
    VisibleOnceFlushed(After(s, two, keyOf), keyOf, f);
  }

  // ----- repair copies -----

  /** A repair copy arrives: the flushed file is dropped and the copy is logged; then the log is flushed. The
      file ends up as the copy exactly when nothing was pending for it, or what was pending reads the same. */
  lemma RepairCopyWinsIff(disk: map<File, Bytes>, pending: seq<Entry>, f: File, data: Bytes)
    requires Plain(pending)
    ensures var flushed := Flush(disk - {f}, pending + [Entry(f, data, true)]);
            && f in flushed
            && flushed[f] == (if Mentions(pending, f) then DataFor(pending, f) else data)
            && (flushed[f] == data <==> !Mentions(pending, f) || DataFor(pending, f) == data)
  {
    var copy := Entry(f, data, true);
    assert (pending + [copy])[..|pending|] == pending;
    FlushAppends(disk - {f}, pending, f);
    if !Mentions(pending, f) {
      NoData(pending, f);
    }
  }
}
