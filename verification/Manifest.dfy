/**
 The version set and its manifest (db/version_set.cc:820-1025, 1102-1130): every change is
 logged before it is installed, and reading the log file back rebuilds the version set.
 */
module Manifest {
  import opened Config
  import opened Options
  import opened Words
  import opened Coding
  import opened VersionEdit
  import opened VersionBuilder
  import opened ManifestReplay
  import LogFormat
  import LogWriter
  import LogReader
  import LogRoundTrip

  /** What Recover brings back. */
  datatype Numbers = Numbers(logNumber: Option<uint64>, prevLogNumber: Option<uint64>, nextFile: Option<uint64>,
      lastSequence: Option<uint64>)

  datatype Status = Fine | Failed(msg: string)

  function Later(old_: Option<uint64>, new_: Option<uint64>): Option<uint64> {
    if new_.Some? then new_ else old_
  }

  function NumbersOf(es: seq<Edit>): Numbers {
    if es == [] then Numbers(None, None, None, None) else
      var n, e := NumbersOf(es[..|es| - 1]), es[|es| - 1];
      Numbers(Later(n.logNumber, e.logNumber), Later(n.prevLogNumber, e.prevLogNumber),
              Later(n.nextFile, e.nextFileNumber), Later(n.lastSequence, e.lastSequence))
  }

  function PointersOf(es: seq<Edit>): (ps: seq<Key>)
    ensures |ps| == NUM_LEVELS
  {
    if es == [] then seq(NUM_LEVELS, i => []) else Pointers(PointersOf(es[..|es| - 1]), es[|es| - 1].compactPointers)
  }

  function Records(es: seq<Edit>): seq<LogFormat.Record> {
    seq(|es|, i requires 0 <= i < |es| => Encode(es[i]))
  }

  /** What the last of some values that are there says, if any is. */
  ghost predicate IsLast(values: seq<Option<uint64>>, value: Option<uint64>) {
    if value.None? then forall i :: 0 <= i < |values| ==> values[i].None?
    else exists i :: 0 <= i < |values| && values[i] == value && forall j :: i < j < |values| ==> values[j].None?
  }

  lemma IsLastOneMore(values: seq<Option<uint64>>, value: Option<uint64>, next: Option<uint64>)
    requires IsLast(values, value)
    ensures IsLast(values + [next], Later(value, next))
  {
    var all := values + [next];
    if next.Some? {
      assert all[|values|] == next;
    } else if value.Some? {
      var i :| 0 <= i < |values| && values[i] == value && forall j :: i < j < |values| ==> values[j].None?;
      assert all[i] == value;
    }
  }

  function Values(es: seq<Edit>, field: Edit -> Option<uint64>): seq<Option<uint64>> {
    seq(|es|, i requires 0 <= i < |es| => field(es[i]))
  }

  lemma ValuesOneMore(es: seq<Edit>, e: Edit, field: Edit -> Option<uint64>)
    ensures Values(es + [e], field) == Values(es, field) + [field(e)]
  {
  }

  function LogNumberOf(e: Edit): Option<uint64> { e.logNumber }
  function PrevLogNumberOf(e: Edit): Option<uint64> { e.prevLogNumber }
  function NextFileNumberOf(e: Edit): Option<uint64> { e.nextFileNumber }
  function LastSequenceOf(e: Edit): Option<uint64> { e.lastSequence }

  lemma LastOneMore(es: seq<Edit>, e: Edit, field: Edit -> Option<uint64>, value: Option<uint64>)
    requires IsLast(Values(es, field), value)
    ensures IsLast(Values(es + [e], field), Later(value, field(e)))
  {
    hide IsLast, Later;
    ValuesOneMore(es, e, field);
    IsLastOneMore(Values(es, field), value, field(e));
  }

  /** Each number is that of the last edit that has one. */
  lemma {:induction false} LastNumbersCount(es: seq<Edit>)
    ensures var n := NumbersOf(es);
      && IsLast(Values(es, LogNumberOf), n.logNumber) && IsLast(Values(es, PrevLogNumberOf), n.prevLogNumber)
      && IsLast(Values(es, NextFileNumberOf), n.nextFile) && IsLast(Values(es, LastSequenceOf), n.lastSequence)
  {
    hide IsLast, Later, Values;
    if es == [] {
      NothingIsLast(LogNumberOf);
      NothingIsLast(PrevLogNumberOf);
      NothingIsLast(NextFileNumberOf);
      NothingIsLast(LastSequenceOf);
    } else {
      var before, e := es[..|es| - 1], es[|es| - 1];
      assert es == before + [e];
      LastNumbersCount(before);
      var n := NumbersOf(before);
      LastOneMore(before, e, LogNumberOf, n.logNumber);
      LastOneMore(before, e, PrevLogNumberOf, n.prevLogNumber);
      LastOneMore(before, e, NextFileNumberOf, n.nextFile);
      LastOneMore(before, e, LastSequenceOf, n.lastSequence);
    }
  }

  lemma NothingIsLast(field: Edit -> Option<uint64>)
    ensures IsLast(Values([], field), None)
  {
  }

  // ---- WriteSnapshot

  function SnapshotPointers(ps: seq<Key>, n: nat): seq<CompactPointer>
    requires |ps| == NUM_LEVELS && n <= NUM_LEVELS
  {
    if n == 0 then [] else
      SnapshotPointers(ps, n - 1) + if ps[n - 1] != [] then [CompactPointer(n - 1, ps[n - 1])] else []
  }

  function LevelFiles(level: Level, fs: seq<FileMeta>): seq<NewFile> {
    seq(|fs|, i requires 0 <= i < |fs| => NewFile(level, fs[i]))
  }

  function SnapshotFiles(v: seq<seq<FileMeta>>, n: nat): seq<NewFile>
    requires |v| == NUM_LEVELS && n <= NUM_LEVELS
  {
    if n == 0 then [] else SnapshotFiles(v, n - 1) + LevelFiles(n - 1, v[n - 1])
  }

  function Snapshot(comparator: seq<byte>, v: seq<seq<FileMeta>>, ps: seq<Key>): Edit
    requires |v| == |ps| == NUM_LEVELS
  {
    Edit(Some(comparator), None, None, None, None, SnapshotPointers(ps, NUM_LEVELS), [], SnapshotFiles(v, NUM_LEVELS))
  }

  lemma {:induction false} NewAtAppend(a: seq<NewFile>, b: seq<NewFile>, level: Level)
    ensures NewAt(a + b, level) == NewAt(a, level) + NewAt(b, level)
    decreases |b|
  {
    if b == [] {
      assert a + b == a;
    } else {
      assert (a + b)[..|a + b| - 1] == a + b[..|b| - 1];
      NewAtAppend(a, b[..|b| - 1], level);
    }
  }

  lemma {:induction false} NewAtLevel(l: Level, fs: seq<FileMeta>, level: Level)
    ensures NewAt(LevelFiles(l, fs), level) == if l == level then fs else []
    decreases |fs|
  {
    if fs != [] {
      assert LevelFiles(l, fs)[..|fs| - 1] == LevelFiles(l, fs[..|fs| - 1]);
      NewAtLevel(l, fs[..|fs| - 1], level);
      assert fs == fs[..|fs| - 1] + [fs[|fs| - 1]];
    }
  }

  lemma NothingNew(level: Level)
    ensures NewAt([], level) == []
  {
  }

  /** A snapshot lists the files of each level, in order. */
  lemma {:induction false} SnapshotHasLevel(v: seq<seq<FileMeta>>, n: nat, level: Level)
    requires |v| == NUM_LEVELS && n <= NUM_LEVELS
    ensures NewAt(SnapshotFiles(v, n), level) == if level < n then v[level] else []
    decreases n
  {
    hide NewAt, LevelFiles;
    NothingNew(level);
    if n > 0 {
      SnapshotHasLevel(v, n - 1, level);
      NewAtAppend(SnapshotFiles(v, n - 1), LevelFiles(n - 1, v[n - 1]), level);
      NewAtLevel(n - 1, v[n - 1], level);
    }
  }

  /** A snapshot restores the compaction pointers. */
  lemma {:induction false} SnapshotHasPointer(ps: seq<Key>, n: nat, empty: seq<Key>, l: nat)
    requires |ps| == |empty| == NUM_LEVELS && n <= NUM_LEVELS && l < NUM_LEVELS && empty[l] == []
    ensures Pointers(empty, SnapshotPointers(ps, n))[l] == if l < n then ps[l] else []
    decreases n
  {
    hide Pointers, SnapshotPointers;
    SnapshotPointersGrow(ps, n);
    if n == 0 {
      NoPointers(empty);
    } else {
      SnapshotHasPointer(ps, n - 1, empty, l);
      if ps[n - 1] != [] {
        OneMorePointer(empty, SnapshotPointers(ps, n - 1), CompactPointer(n - 1, ps[n - 1]));
      }
    }
  }

  lemma SnapshotPointersGrow(ps: seq<Key>, n: nat)
    requires |ps| == NUM_LEVELS && n <= NUM_LEVELS
    ensures n == 0 ==> SnapshotPointers(ps, n) == []
    ensures n > 0 && ps[n - 1] == [] ==> SnapshotPointers(ps, n) == SnapshotPointers(ps, n - 1)
    ensures n > 0 && ps[n - 1] != [] ==>
              SnapshotPointers(ps, n) == SnapshotPointers(ps, n - 1) + [CompactPointer(n - 1, ps[n - 1])]
  {
  }

  lemma NoPointers(ps: seq<Key>)
    requires |ps| == NUM_LEVELS
    ensures Pointers(ps, []) == ps
  {
  }

  lemma OneMorePointer(ps: seq<Key>, cs: seq<CompactPointer>, c: CompactPointer)
    requires |ps| == NUM_LEVELS
    ensures Pointers(ps, cs + [c]) == Pointers(ps, cs)[c.level := c.key]
  {
    assert (cs + [c])[..|cs|] == cs;
  }

  /** Rebuilding a sorted level from its own files gives it back. */
  lemma SnapshotSteps(rank: Order, comparator: seq<byte>, v: seq<seq<FileMeta>>, ps: seq<Key>, level: Level)
    requires |v| == |ps| == NUM_LEVELS && Sorted(rank, v[level]) && OneFilePerNumber(v[level], v[level])
    ensures Step(rank, [], Snapshot(comparator, v, ps), level) == v[level]
  {
    hide SnapshotFiles, SnapshotPointers;
    var e := Snapshot(comparator, v, ps);
    SnapshotHasLevel(v, NUM_LEVELS, level);
    StepHas(rank, [], e, level);
    SortedIsUnique(rank, Step(rank, [], e, level), v[level]);
  }

  ghost predicate Short(k: Key) {
    |k| < 0x1_0000_0000
  }

  ghost predicate ShortKeys(fs: seq<FileMeta>) {
    forall f :: f in fs ==> Short(f.smallest) && Short(f.largest)
  }

  lemma {:induction false} SnapshotIsShort(v: seq<seq<FileMeta>>, ps: seq<Key>, n: nat)
    requires |v| == |ps| == NUM_LEVELS && n <= NUM_LEVELS
    requires forall l :: 0 <= l < NUM_LEVELS ==> ShortKeys(v[l]) && Short(ps[l])
    ensures forall p :: p in SnapshotPointers(ps, n) ==> Short(p.key)
    ensures forall f :: f in SnapshotFiles(v, n) ==> Short(f.file.smallest) && Short(f.file.largest)
    decreases n
  {
    if n > 0 {
      SnapshotIsShort(v, ps, n - 1);
      forall f | f in LevelFiles(n - 1, v[n - 1]) ensures Short(f.file.smallest) && Short(f.file.largest) {
        assert f.file in v[n - 1];
      }
    }
  }

  lemma SnapshotIsEncodable(comparator: seq<byte>, v: seq<seq<FileMeta>>, ps: seq<Key>)
    requires |v| == |ps| == NUM_LEVELS && Short(comparator)
    requires forall l :: 0 <= l < NUM_LEVELS ==> ShortKeys(v[l]) && Short(ps[l])
    ensures Encodable(Snapshot(comparator, v, ps))
  {
    SnapshotIsShort(v, ps, NUM_LEVELS);
  }

  // ---- Reading a manifest

  function DecodeAll(records: seq<LogFormat.Record>): Option<seq<Edit>> {
    if records == [] then Some([]) else
      var before, last := DecodeAll(records[..|records| - 1]), Decode(records[|records| - 1]);
      if before.Some? && last.Ok? then Some(before.value + [last.edit]) else None
  }

  lemma RecordsOneMore(es: seq<Edit>, e: Edit)
    ensures Records(es + [e]) == Records(es) + [Encode(e)]
  {
  }

  lemma {:induction false} DecodesRecords(es: seq<Edit>)
    requires forall e :: e in es ==> Encodable(e)
    ensures DecodeAll(Records(es)) == Some(es)
  {
    if es != [] {
      var before, e := es[..|es| - 1], es[|es| - 1];
      assert es == before + [e];
      DecodesRecords(before);
      EditRoundTrip(e);
      RecordsOneMore(before, e);
      DecodesOneMore(Records(before), Encode(e), before, e);
    }
  }

  lemma DecodesOneMore(records: seq<LogFormat.Record>, r: LogFormat.Record, es: seq<Edit>, e: Edit)
    requires DecodeAll(records) == Some(es) && Decode(r) == Ok(e)
    ensures DecodeAll(records + [r]) == Some(es + [e])
  {
    assert (records + [r])[..|records|] == records;
  }

  predicate SameComparator(comparator: seq<byte>, es: seq<Edit>) {
    forall i :: 0 <= i < |es| && es[i].comparator.Some? ==> es[i].comparator.value == comparator
  }

  /** The edits of a manifest that can be recovered from: of this comparator, and with the numbers. */
  function Usable(comparator: seq<byte>, records: seq<LogFormat.Record>): Option<seq<Edit>> {
    var es := DecodeAll(records);
    if es.Some? && SameComparator(comparator, es.value)
       && NumbersOf(es.value).nextFile.Some? && NumbersOf(es.value).logNumber.Some?
          && NumbersOf(es.value).lastSequence.Some?
    then es else None
  }

  /** The same for a file, which must be intact. */
  function Recoverable(comparator: seq<byte>, file: seq<byte>): Option<seq<Edit>> {
    var log := LogReader.ReadAll(LogReader.Start(file), true);
    if log.reports == [] then Usable(comparator, log.records) else None
  }

  ghost predicate AllDecode(records: seq<LogFormat.Record>, es: seq<Edit>) {
    |es| == |records| && forall i :: 0 <= i < |es| ==> Decode(records[i]) == Ok(es[i])
  }

  lemma {:induction false} DecodedLength(records: seq<LogFormat.Record>)
    ensures DecodeAll(records).Some? ==> |DecodeAll(records).value| == |records|
    decreases |records|
  {
    if records != [] {
      DecodedLength(records[..|records| - 1]);
    }
  }

  lemma {:induction false} DecodedOneByOne(records: seq<LogFormat.Record>, es: seq<Edit>)
    ensures DecodeAll(records) == Some(es) <==> AllDecode(records, es)
    decreases |records|
  {
    hide Decode;
    if records != [] {
      var n := |records| - 1;
      if |es| == n + 1 {
        DecodedOneByOne(records[..n], es[..n]);
        assert es == es[..n] + [es[n]];
        if AllDecode(records, es) {
          assert AllDecode(records[..n], es[..n]);
        }
      } else {
        DecodedLength(records);
      }
    }
  }

  /** Some edit has a number. */
  ghost predicate Has(es: seq<Edit>, field: Edit -> Option<uint64>) {
    exists i :: 0 <= i < |es| && field(es[i]).Some?
  }

  lemma HasIsLast(es: seq<Edit>, field: Edit -> Option<uint64>, value: Option<uint64>)
    requires IsLast(Values(es, field), value)
    ensures value.Some? <==> Has(es, field)
  {
    if value.Some? {
      var i :| 0 <= i < |es| && Values(es, field)[i] == value;
    } else {
      forall i | 0 <= i < |es|
        ensures field(es[i]).None?
      {
        assert Values(es, field)[i].None?;
      }
    }
  }

  /**
   A manifest can be recovered from just if it is read without a report, all its records are edits, none
   names another comparator, and a log number, a next file number and a last sequence number come up.
   */
  lemma RecoverableIff(comparator: seq<byte>, file: seq<byte>, es: seq<Edit>)
    ensures Recoverable(comparator, file) == Some(es) <==>
              var log := LogReader.ReadAll(LogReader.Start(file), true);
              && log.reports == [] && AllDecode(log.records, es)
              && (forall i :: 0 <= i < |es| && es[i].comparator.Some? ==> es[i].comparator.value == comparator)
              && Has(es, LogNumberOf) && Has(es, NextFileNumberOf) && Has(es, LastSequenceOf)
  {
    hide DecodeAll, NumbersOf, IsLast, AllDecode;
    var log := LogReader.ReadAll(LogReader.Start(file), true);
    DecodedOneByOne(log.records, es);
    LastNumbersCount(es);
    var n := NumbersOf(es);
    HasIsLast(es, LogNumberOf, n.logNumber);
    HasIsLast(es, NextFileNumberOf, n.nextFile);
    HasIsLast(es, LastSequenceOf, n.lastSequence);
  }

  lemma {:induction false} DecodeAllFails(records: seq<LogFormat.Record>, i: nat)
    requires i <= |records| && DecodeAll(records[..i]).None?
    ensures DecodeAll(records).None?
    decreases |records| - i
  {
    if i < |records| {
      assert records[..i + 1][..i] == records[..i];
      DecodeAllFails(records, i + 1);
    } else {
      assert records[..i] == records;
    }
  }

  lemma {:induction false} DecodeAllPrefix(records: seq<LogFormat.Record>, i: nat)
    requires i <= |records| && DecodeAll(records).Some?
    ensures DecodeAll(records[..i]).Some? && DecodeAll(records[..i]).value <= DecodeAll(records).value
    decreases |records| - i
  {
    if i < |records| {
      DecodeAllPrefix(records, i + 1);
      assert records[..i + 1][..i] == records[..i];
    } else {
      assert records[..i] == records;
    }
  }

  // ---- One edit more

  lemma {:induction false} PointersDecide(ps: seq<Key>, qs: seq<Key>, cs: seq<CompactPointer>, l: nat)
    requires |ps| == |qs| == NUM_LEVELS && l < NUM_LEVELS
    ensures Pointers(ps, cs)[l] == Pointers(qs, cs)[l] || (Pointers(ps, cs)[l] == ps[l] && Pointers(qs, cs)[l] == qs[l])
    decreases |cs|
  {
    if cs != [] {
      PointersDecide(ps, qs, cs[..|cs| - 1], l);
    }
  }

  lemma {:induction false} PointersShort(ps: seq<Key>, cs: seq<CompactPointer>)
    requires |ps| == NUM_LEVELS && (forall l :: 0 <= l < NUM_LEVELS ==> Short(ps[l])) && forall c :: c in cs ==>
             Short(c.key)
    ensures forall l :: 0 <= l < NUM_LEVELS ==> Short(Pointers(ps, cs)[l])
    decreases |cs|
  {
    if cs != [] {
      assert forall c :: c in cs[..|cs| - 1] ==> c in cs;
      PointersShort(ps, cs[..|cs| - 1]);
      assert cs[|cs| - 1] in cs;
    }
  }

  /** Storing the same pointers again changes nothing. */
  lemma PointersTwice(ps: seq<Key>, cs: seq<CompactPointer>)
    requires |ps| == NUM_LEVELS
    ensures Pointers(Pointers(ps, cs), cs) == Pointers(ps, cs)
  {
    forall l | 0 <= l < NUM_LEVELS ensures Pointers(Pointers(ps, cs), cs)[l] == Pointers(ps, cs)[l] {
      PointersDecide(Pointers(ps, cs), ps, cs, l);
    }
  }

  lemma OneMoreEdit(rank: Order, es: seq<Edit>, e: Edit, level: Level)
    requires Fits(rank, es, level)
    requires var known := EverAdded(es, level) + NewAt(e.newFiles, level); OneFilePerNumber(known, known)
    requires AddsOnlyNew(Steps(rank, es, level), NewAt(e.newFiles, level))
    ensures Fits(rank, es + [e], level) && Steps(rank, es + [e], level) == Step(rank, Steps(rank, es, level), e, level)
    ensures EverAdded(es + [e], level) == EverAdded(es, level) + NewAt(e.newFiles, level)
  {
    var t := es + [e];
    assert t[..|es|] == es;
    forall k {:trigger t[k]} | 0 <= k < |t|
      ensures AddsOnlyNew(Steps(rank, t[..k], level), NewAt(t[k].newFiles, level))
    {
      if k < |es| {
        assert t[..k] == es[..k] && t[k] == es[k];
      }
    }
  }

  lemma SnapshotFits(rank: Order, comparator: seq<byte>, v: seq<seq<FileMeta>>, ps: seq<Key>, level: Level)
    requires |v| == |ps| == NUM_LEVELS && Sorted(rank, v[level]) && OneFilePerNumber(v[level], v[level])
    ensures var es := [Snapshot(comparator, v, ps)];
            Fits(rank, es, level) && Steps(rank, es, level) == v[level] && EverAdded(es, level) == v[level]
  {
    hide SnapshotFiles, SnapshotPointers, Sorted, OneFilePerNumber;
    var e := Snapshot(comparator, v, ps);
    var none: seq<Edit> := [];
    SnapshotHasLevel(v, NUM_LEVELS, level);
    assert none + [e] == [e] && [] + v[level] == v[level];
    OneMoreEdit(rank, none, e, level);
    SnapshotSteps(rank, comparator, v, ps, level);
  }

  lemma SnapshotPointersRestored(comparator: seq<byte>, v: seq<seq<FileMeta>>, ps: seq<Key>)
    requires |v| == |ps| == NUM_LEVELS
    ensures PointersOf([Snapshot(comparator, v, ps)]) == ps
  {
    var es := [Snapshot(comparator, v, ps)];
    assert es[..0] == [];
    forall l | 0 <= l < NUM_LEVELS ensures PointersOf(es)[l] == ps[l] {
      SnapshotHasPointer(ps, NUM_LEVELS, PointersOf([]), l);
    }
  }

  lemma PointersOneMore(es: seq<Edit>, e: Edit)
    ensures PointersOf(es + [e]) == Pointers(PointersOf(es), e.compactPointers)
  {
    assert (es + [e])[..|es|] == es;
  }

  /** An edit with all its numbers decides what is recovered. */
  lemma NumbersOneMore(es: seq<Edit>, e: Edit)
    requires e.logNumber.Some? && e.prevLogNumber.Some? && e.nextFileNumber.Some? && e.lastSequence.Some?
    ensures NumbersOf(es + [e]) == Numbers(e.logNumber, e.prevLogNumber, e.nextFileNumber, e.lastSequence)
  {
    assert (es + [e])[..|es|] == es;
  }

  ghost predicate AllEncodable(es: seq<Edit>) {
    forall e :: e in es ==> Encodable(e)
  }

  /** On one level the edits fit together, and make its files one by one. */
  ghost predicate LevelBuiltBy(rank: Order, es: seq<Edit>, fs: seq<FileMeta>, l: Level) {
    Fits(rank, es, l) && fs == Steps(rank, es, l)
  }

  ghost predicate BuiltBy(rank: Order, es: seq<Edit>, v: seq<seq<FileMeta>>) {
    |v| == NUM_LEVELS && forall l {:trigger LevelBuiltBy(rank, es, v[l], l)} :: 0 <= l < NUM_LEVELS ==>
      LevelBuiltBy(rank, es, v[l], l)
  }

  function EverAddedTo(es: seq<Edit>): (known: seq<seq<FileMeta>>)
    ensures |known| == NUM_LEVELS
  {
    seq(NUM_LEVELS, (l: nat) requires l < NUM_LEVELS => EverAdded(es, l))
  }

  /** The new files are new to their levels, and a number stands for the same file as ever. */
  ghost predicate NewFilesFit(v: seq<seq<FileMeta>>, known: seq<seq<FileMeta>>, ns: seq<NewFile>)
    requires |v| == |known| == NUM_LEVELS
  {
    forall l :: 0 <= l < NUM_LEVELS ==>
      var all := known[l] + NewAt(ns, l);
      AddsOnlyNew(v[l], NewAt(ns, l)) && OneFilePerNumber(all, all)
  }

  lemma BuiltByOneMore(rank: Order, es: seq<Edit>, v: seq<seq<FileMeta>>, known: seq<seq<FileMeta>>, e: Edit,
      v': seq<seq<FileMeta>>)
    requires BuiltBy(rank, es, v) && |v'| == NUM_LEVELS && known == EverAddedTo(es) && NewFilesFit(v, known, e.newFiles)
    requires forall l :: 0 <= l < NUM_LEVELS ==> v'[l] == Step(rank, v[l], e, l)
    ensures BuiltBy(rank, es + [e], v')
  {
    forall l: Level ensures LevelBuiltBy(rank, es + [e], v'[l], l) {
      assert LevelBuiltBy(rank, es, v[l], l);
      OneMoreEdit(rank, es, e, l);
    }
  }

  lemma SnapshotBuilds(rank: Order, comparator: seq<byte>, v: seq<seq<FileMeta>>, ps: seq<Key>)
    requires |v| == |ps| == NUM_LEVELS
    requires forall l :: 0 <= l < NUM_LEVELS ==> Sorted(rank, v[l]) && OneFilePerNumber(v[l], v[l])
    ensures BuiltBy(rank, [Snapshot(comparator, v, ps)], v)
    ensures EverAddedTo([Snapshot(comparator, v, ps)]) == v
  {
    forall l: Level
      ensures var es := [Snapshot(comparator, v, ps)]; LevelBuiltBy(rank, es, v[l], l) && EverAdded(es, l) == v[l]
    {
      SnapshotFits(rank, comparator, v, ps, l);
    }
  }

  /** Only the files of an edit make a difference to a level. */
  lemma StepOfFiles(rank: Order, base: seq<FileMeta>, e: Edit, e': Edit, l: Level)
    requires e'.newFiles == e.newFiles && e'.deletedFiles == e.deletedFiles
    ensures Step(rank, base, e', l) == Step(rank, base, e, l)
  {
  }

  lemma GoodOneMore(comparator: seq<byte>, es: seq<Edit>, e: Edit)
    requires AllEncodable(es) && SameComparator(comparator, es) && Encodable(e) && e.comparator.None?
    ensures AllEncodable(es + [e]) && SameComparator(comparator, es + [e])
  {
  }

  class VersionSet {
    const rank: Order
    const comparator: seq<byte>
    var current: seq<seq<FileMeta>>
    var compactPointer: seq<Key>
    var logNumber: uint64
    var prevLogNumber: uint64
    var nextFileNumber: uint64
    var lastSequence: uint64
    var descriptorLog: LogWriter.Writer?
    ghost var edits: seq<Edit>   // the records of the manifest

    ghost predicate LevelsOk()
      reads this
    {
      && |current| == |compactPointer| == NUM_LEVELS
      && (forall l :: 0 <= l < NUM_LEVELS ==> Sorted(rank, current[l]) && OneFilePerNumber(current[l], current[l]))
      && Short(comparator) && forall l :: 0 <= l < NUM_LEVELS ==> ShortKeys(current[l]) && Short(compactPointer[l])
    }

    /** The manifest holds the edits. */
    ghost predicate OnDisk()
      reads this, descriptorLog
    {
      descriptorLog != null && descriptorLog.Valid() && descriptorLog.dest == LogFormat.Image(Records(edits))
    }

    /** The version is what the edits make one by one. */
    ghost predicate Built()
      reads this
    {
      AllEncodable(edits) && SameComparator(comparator, edits) && |compactPointer| == NUM_LEVELS
        && BuiltBy(rank, edits, current)
    }

    ghost predicate Logged()
      reads this, descriptorLog
    {
      OnDisk() && Built() && compactPointer == PointersOf(edits)
    }

    ghost predicate NumbersLogged()
      reads this
    {
      var n := NumbersOf(edits);
      n.logNumber == Some(logNumber) && n.prevLogNumber == Some(prevLogNumber) && n.nextFile.Some?
        && n.lastSequence.Some?
    }

    ghost predicate Valid()
      reads this, descriptorLog
    {
      if descriptorLog == null then edits == [] && LevelsOk() else Logged() && NumbersLogged()
    }

    /** Files that were ever on each level since the manifest was started. */
    ghost function Known(): (known: seq<seq<FileMeta>>)
      requires |current| == NUM_LEVELS
      reads this
      ensures |known| == NUM_LEVELS
    {
      if descriptorLog == null then current else EverAddedTo(edits)
    }

    constructor (rank: Order, comparator: seq<byte>)
      requires Short(comparator)
      ensures Valid() && this.rank == rank && this.comparator == comparator && descriptorLog == null
      ensures current == seq(NUM_LEVELS, i => []) && compactPointer == seq(NUM_LEVELS, i => [])
    {
      this.rank, this.comparator := rank, comparator;
      current, compactPointer := seq(NUM_LEVELS, i => []), seq(NUM_LEVELS, i => []);
      logNumber, prevLogNumber, nextFileNumber, lastSequence := 0, 0, 2, 0;
      descriptorLog, edits := null, [];
    }

    /** The manifest a change is added to: the one that is open, or a new one that starts with a snapshot. */
    ghost function Base(e: Edit): seq<Edit>
      requires |current| == |compactPointer| == NUM_LEVELS
      reads this
    {
      if descriptorLog == null then [Snapshot(comparator, current, Pointers(compactPointer, e.compactPointers))]
          else edits
    }

    /** What callers keep to: new files are new to their level, and a number always stands for the same file. */
    ghost predicate Acceptable(e: Edit)
      requires |current| == NUM_LEVELS
      reads this
    {
      && Encodable(e) && e.comparator.None?
      && (e.logNumber.Some? ==> logNumber <= e.logNumber.value < nextFileNumber)
      && NewFilesFit(current, Known(), e.newFiles)
    }

    /** The version that an edit makes of the current one. */
    method BuildNext(e: Edit) returns (v: seq<seq<FileMeta>>)
      requires |current| == |compactPointer| == NUM_LEVELS
      ensures |v| == NUM_LEVELS && forall l :: 0 <= l < NUM_LEVELS ==> v[l] == Step(rank, current[l], e, l)
    {
      var builder := new Builder(rank, current, compactPointer);
      builder.Apply(e);
      v := builder.SaveTo();
    }

    /** Creates the log file of a new manifest, with a snapshot of the current version. */
    method WriteSnapshot()
      requires LevelsOk() && descriptorLog == null
      modifies this`descriptorLog, this`edits
      ensures edits == [Snapshot(comparator, current, compactPointer)] && Logged() && fresh(descriptorLog)
    {
      var e := Snapshot(comparator, current, compactPointer);
      SnapshotIsEncodable(comparator, current, compactPointer);
      SnapshotPointersRestored(comparator, current, compactPointer);
      SnapshotBuilds(rank, comparator, current, compactPointer);
      var writer := new LogWriter.Writer();
      assert LogFormat.Image([]) == [] && [] + [Encode(e)] == Records([e]);
      LogWriter.AppendToLog(writer, Encode(e), []);
      descriptorLog, edits := writer, [e];
    }

    /** Adds a record to the manifest. */
    method AddRecord(e: Edit)
      requires descriptorLog != null && descriptorLog.Valid() && descriptorLog.dest == LogFormat.Image(Records(edits))
      modifies this`edits, descriptorLog
      ensures edits == old(edits) + [e]
      ensures descriptorLog.Valid() && descriptorLog.dest == LogFormat.Image(Records(edits))
    {
      RecordsOneMore(edits, e);
      LogWriter.AppendToLog(descriptorLog, Encode(e), Records(edits));
      edits := edits + [e];
    }

    /** Makes sure a manifest is open; its pointers then are those before or after the change `e`. */
    method OpenManifest(e: Edit)
      requires Valid() && |current| == |compactPointer| == NUM_LEVELS && Encodable(e)
      modifies this`compactPointer, this`descriptorLog, this`edits
      ensures OnDisk() && Built() && (old(descriptorLog) == null ==> fresh(descriptorLog))
      ensures old(descriptorLog) != null ==> descriptorLog == old(descriptorLog) && NumbersLogged()
      ensures edits == old(Base(e)) && EverAddedTo(edits) == old(Known())
      ensures compactPointer == Pointers(old(compactPointer), e.compactPointers) ==
              Pointers(PointersOf(edits), e.compactPointers)
    {
      ghost var pointers := compactPointer;
      compactPointer := StorePointers(e.compactPointers);
      if descriptorLog == null {
        PointersShort(pointers, e.compactPointers);
        WriteSnapshot();
        PointersTwice(pointers, e.compactPointers);
        SnapshotBuilds(rank, comparator, current, compactPointer);
      }
    }

    /** The part of Builder::Apply that concerns the version set itself. */
    method StorePointers(cs: seq<CompactPointer>) returns (pointers: seq<Key>)
      requires |compactPointer| == NUM_LEVELS
      ensures pointers == Pointers(compactPointer, cs)
    {
      pointers := compactPointer;
      for i := 0 to |cs|
        invariant pointers == Pointers(compactPointer, cs[..i])
      {
        assert cs[..i + 1][..i] == cs[..i];
        pointers := pointers[cs[i].level := cs[i].key];
      }
      assert cs[..|cs|] == cs;
    }

    /** An edit with all its numbers is logged, and the version it makes is installed. */
    method LogFilled(e: Edit)
      requires Valid() && |current| == |compactPointer| == NUM_LEVELS && Encodable(e) && e.comparator.None?
      requires NewFilesFit(current, Known(), e.newFiles)
      requires e.logNumber.Some? && e.prevLogNumber.Some? && e.nextFileNumber.Some? && e.lastSequence.Some?
      modifies this`current, this`compactPointer, this`logNumber, this`prevLogNumber, this`descriptorLog, this`edits,
          descriptorLog
      ensures Valid() && descriptorLog != null && (old(descriptorLog) == null ==> fresh(descriptorLog))
      ensures old(descriptorLog) != null ==> descriptorLog == old(descriptorLog)
      ensures logNumber == e.logNumber.value && prevLogNumber == e.prevLogNumber.value
      ensures edits == old(Base(e)) + [e]
      ensures compactPointer == Pointers(old(compactPointer), e.compactPointers)
      ensures |current| == NUM_LEVELS && forall l :: 0 <= l < NUM_LEVELS ==>
              current[l] == Step(rank, old(current)[l], e, l)
    {
      hide AllEncodable, SameComparator, BuiltBy, PointersOf, NumbersOf, Step, Pointers;
      ghost var known := Known();
      var v := BuildNext(e);
      OpenManifest(e);
      BuiltByOneMore(rank, edits, current, known, e, v);
      PointersOneMore(edits, e);
      GoodOneMore(comparator, edits, e);
      NumbersOneMore(edits, e);
      Commit(e, v);
    }

    /**
     Logs a change, completed by the numbers the version set has, and installs the version it
     makes. A new manifest starts with a snapshot, which already has the compaction pointers of
     the change.
     */
    method LogAndApply(e: Edit)
      requires Valid() && |current| == |compactPointer| == NUM_LEVELS && Acceptable(e)
      modifies this, descriptorLog
      ensures Valid() && descriptorLog != null && (old(descriptorLog) == null ==> fresh(descriptorLog))
      ensures old(descriptorLog) != null ==> descriptorLog == old(descriptorLog)
      ensures logNumber == (if e.logNumber.Some? then e.logNumber.value else old(logNumber))
      ensures prevLogNumber == (if e.prevLogNumber.Some? then e.prevLogNumber.value else old(prevLogNumber))
      ensures nextFileNumber == old(nextFileNumber) && lastSequence == old(lastSequence)
      ensures edits == old(Base(e)) + [Edit(None, Some(logNumber), Some(prevLogNumber), Some(nextFileNumber),
          Some(lastSequence), e.compactPointers, e.deletedFiles, e.newFiles)]
      ensures NumbersOf(edits) ==
              Numbers(Some(logNumber), Some(prevLogNumber), Some(nextFileNumber), Some(lastSequence))
      ensures compactPointer == Pointers(old(compactPointer), e.compactPointers)
      ensures |current| == NUM_LEVELS && forall l :: 0 <= l < NUM_LEVELS ==>
              current[l] == Step(rank, old(current)[l], e, l)
    {
      hide Valid, NumbersOf, Step, Pointers, NewFilesFit, Encodable, Known;
      var full := e;
      if !e.logNumber.Some? {
        full := full.(logNumber := Some(logNumber));
      }
      if !e.prevLogNumber.Some? {
        full := full.(prevLogNumber := Some(prevLogNumber));
      }
      full := full.(nextFileNumber := Some(nextFileNumber), lastSequence := Some(lastSequence));
      StillEncodable(e, full);
      forall l: Level ensures Step(rank, current[l], full, l) == Step(rank, current[l], e, l) {
        StepOfFiles(rank, current[l], e, full, l);
      }
      ghost var before := Base(e);
      LogFilled(full);
      NumbersOneMore(before, full);
    }

    lemma StillEncodable(e: Edit, full: Edit)
      requires Encodable(e) && full.comparator == e.comparator && full.compactPointers == e.compactPointers
               && full.deletedFiles == e.deletedFiles && full.newFiles == e.newFiles
      ensures Encodable(full)
    {
    }

    method Commit(e: Edit, v: seq<seq<FileMeta>>)
      requires OnDisk() && BuiltBy(rank, edits + [e], v) && AllEncodable(edits + [e])
               && SameComparator(comparator, edits + [e])
      requires |compactPointer| == NUM_LEVELS && compactPointer == PointersOf(edits + [e])
      requires e.logNumber.Some? && e.prevLogNumber.Some? && e.nextFileNumber.Some? && e.lastSequence.Some?
      requires NumbersOf(edits + [e]) == Numbers(e.logNumber, e.prevLogNumber, e.nextFileNumber, e.lastSequence)
      modifies this`current, this`logNumber, this`prevLogNumber, this`edits, descriptorLog
      ensures Valid() && edits == old(edits) + [e] && current == v
    {
      ghost var after := edits + [e];
      AddRecord(e);
      assert edits == after;
      Install(e, v);
    }

    /** The end of LogAndApply: the new version and the numbers of the last record are taken over. */
    method Install(e: Edit, v: seq<seq<FileMeta>>)
      requires OnDisk() && BuiltBy(rank, edits, v) && AllEncodable(edits) && SameComparator(comparator, edits)
      requires |compactPointer| == NUM_LEVELS && compactPointer == PointersOf(edits)
      requires e.logNumber.Some? && e.prevLogNumber.Some? && e.nextFileNumber.Some? && e.lastSequence.Some?
      requires NumbersOf(edits) == Numbers(e.logNumber, e.prevLogNumber, e.nextFileNumber, e.lastSequence)
      modifies this`current, this`logNumber, this`prevLogNumber
      ensures Valid() && current == v
    {
      current := v;
      logNumber, prevLogNumber := e.logNumber.value, e.prevLogNumber.value;
    }

    /** Reads a manifest into a version set that is still empty. */
    method Recover(file: seq<byte>) returns (status: Status)
      requires descriptorLog == null && current == seq(NUM_LEVELS, i => [])
               && compactPointer == seq(NUM_LEVELS, i => [])
      modifies this`current, this`compactPointer, this`logNumber, this`prevLogNumber, this`nextFileNumber,
          this`lastSequence
      ensures status.Fine? <==> Recoverable(comparator, file).Some?
      ensures status.Fine? ==>
                var es := Recoverable(comparator, file).value;
                var n := NumbersOf(es);
                && Restored(rank, es, current) && compactPointer == PointersOf(es)
                && logNumber == n.logNumber.value && lastSequence == n.lastSequence.value
                && prevLogNumber == (if n.prevLogNumber.Some? then n.prevLogNumber.value else 0)
                && nextFileNumber == (n.nextFile.value + 1) % 0x1_0000_0000_0000_0000
    {
      var records, reports := LogReader.ReadLog(file, true);
      if reports != [] {
        return Failed("corruption");
      }
      status := RecoverRecords(records);
    }

    method RecoverRecords(records: seq<LogFormat.Record>) returns (status: Status)
      requires current == seq(NUM_LEVELS, i => []) && compactPointer == seq(NUM_LEVELS, i => [])
      modifies this`current, this`compactPointer, this`logNumber, this`prevLogNumber, this`nextFileNumber,
          this`lastSequence
      ensures status.Fine? <==> Usable(comparator, records).Some?
      ensures status.Fine? ==>
                var es := Usable(comparator, records).value;
                var n := NumbersOf(es);
                && Restored(rank, es, current) && compactPointer == PointersOf(es)
                && logNumber == n.logNumber.value && lastSequence == n.lastSequence.value
                && prevLogNumber == (if n.prevLogNumber.Some? then n.prevLogNumber.value else 0)
                && nextFileNumber == (n.nextFile.value + 1) % 0x1_0000_0000_0000_0000
    {
      var builder := new Builder(rank, current, compactPointer);
      var ok, numbers;
      ghost var es;
      ok, numbers, es := ReplayRecords(records, builder);
      if !ok {
        return Failed("edit");
      }
      if numbers.nextFile.None? {
        return Failed("no meta-nextfile entry in descriptor");
      } else if numbers.logNumber.None? {
        return Failed("no meta-lognumber entry in descriptor");
      } else if numbers.lastSequence.None? {
        return Failed("no last-sequence-number entry in descriptor");
      }
      TakeOver(builder, numbers, es);
      status := Fine;
    }

    /** The end of Recover: the recovered version is saved and installed. */
    method TakeOver(builder: Builder, numbers: Numbers, ghost es: seq<Edit>)
      requires builder.Valid() && builder.rank == rank && builder.base == seq(NUM_LEVELS, i => [])
      requires forall l :: 0 <= l < NUM_LEVELS ==> builder.levels[l] == ApplyAll(rank, es, l)
      requires numbers.nextFile.Some? && numbers.logNumber.Some? && numbers.lastSequence.Some?
      modifies this`current, this`compactPointer, this`logNumber, this`prevLogNumber, this`nextFileNumber,
          this`lastSequence
      ensures Restored(rank, es, current) && compactPointer == builder.compactPointers
      ensures logNumber == numbers.logNumber.value && lastSequence == numbers.lastSequence.value
      ensures prevLogNumber == (if numbers.prevLogNumber.Some? then numbers.prevLogNumber.value else 0)
      ensures nextFileNumber == (numbers.nextFile.value + 1) % 0x1_0000_0000_0000_0000
    {
      var v := builder.SaveTo();
      current, compactPointer := v, builder.compactPointers;
      nextFileNumber := (numbers.nextFile.value + 1) % 0x1_0000_0000_0000_0000;
      lastSequence, logNumber := numbers.lastSequence.value, numbers.logNumber.value;
      prevLogNumber := if numbers.prevLogNumber.Some? then numbers.prevLogNumber.value else 0;
    }

    /** The loop of Recover: every record is decoded on its own and given to the one builder. */
    method ReplayRecords(records: seq<LogFormat.Record>, builder: Builder)
        returns (ok: bool, numbers: Numbers, ghost es: seq<Edit>)
      requires builder.Valid() && builder.levels == seq(NUM_LEVELS, i => Fresh())
               && builder.compactPointers == seq(NUM_LEVELS, i => [])
      modifies builder
      ensures builder.Valid()
      ensures ok <==> DecodeAll(records).Some? && SameComparator(comparator, DecodeAll(records).value)
      ensures ok ==>
                && DecodeAll(records) == Some(es) && numbers == NumbersOf(es)
                && builder.compactPointers == PointersOf(es)
      ensures ok ==> forall l :: 0 <= l < NUM_LEVELS ==> builder.levels[l] == ApplyAll(builder.rank, es, l)
    {
      numbers, es := Numbers(None, None, None, None), [];
      for i := 0 to |records|
        invariant builder.Valid() && DecodeAll(records[..i]) == Some(es) && SameComparator(comparator, es)
        invariant numbers == NumbersOf(es) && builder.compactPointers == PointersOf(es)
        invariant forall l :: 0 <= l < NUM_LEVELS ==> builder.levels[l] == ApplyAll(builder.rank, es, l)
      {
        assert records[..i + 1] == records[..i] + [records[i]];
        var r := DecodeFrom(EmptyEdit(), records[i]);
        if r.Corruption? {
          BadRecord(records, i);
          return false, numbers, es;
        }
        DecodesOneMore(records[..i], records[i], es, r.edit);
        if r.edit.comparator.Some? && r.edit.comparator.value != comparator {
          OtherComparator(comparator, records, i + 1, es + [r.edit]);
          return false, numbers, es;
        }
        builder.Apply(r.edit);
        ReplayedOneMore(builder.rank, es, r.edit);
        numbers := Numbers(
          Later(numbers.logNumber, r.edit.logNumber),
          Later(numbers.prevLogNumber, r.edit.prevLogNumber),
          Later(numbers.nextFile, r.edit.nextFileNumber),
          Later(numbers.lastSequence, r.edit.lastSequence));
        es := es + [r.edit];
      }
      assert records[..|records|] == records;
      ok := true;
    }
  }

  ghost predicate Restored(rank: Order, es: seq<Edit>, v: seq<seq<FileMeta>>) {
    |v| == NUM_LEVELS && forall l :: 0 <= l < NUM_LEVELS ==> v[l] == Saved(rank, [], ApplyAll(rank, es, l))
  }

  lemma BadRecord(records: seq<LogFormat.Record>, i: nat)
    requires i < |records| && Decode(records[i]).Corruption?
    ensures DecodeAll(records).None?
  {
    assert records[..i + 1][..i] == records[..i];
    DecodeAllFails(records, i + 1);
  }

  lemma OtherComparator(comparator: seq<byte>, records: seq<LogFormat.Record>, i: nat, es: seq<Edit>)
    requires 0 < i <= |records| && DecodeAll(records[..i]) == Some(es) && es != []
    requires es[|es| - 1].comparator.Some? && es[|es| - 1].comparator.value != comparator
    ensures DecodeAll(records).Some? ==> !SameComparator(comparator, DecodeAll(records).value)
  {
    if DecodeAll(records).Some? {
      DecodeAllPrefix(records, i);
      var all := DecodeAll(records).value;
      assert all[|es| - 1] == es[|es| - 1];
    }
  }

  lemma ReplayedOneMore(rank: Order, es: seq<Edit>, e: Edit)
    ensures PointersOf(es + [e]) == Pointers(PointersOf(es), e.compactPointers)
    ensures forall l :: 0 <= l < NUM_LEVELS ==>
              ApplyAll(rank, es + [e], l) == ApplyAt(rank, ApplyAll(rank, es, l), e, l)
    ensures var n := NumbersOf(es);
            NumbersOf(es + [e]) == Numbers(Later(n.logNumber, e.logNumber), Later(n.prevLogNumber, e.prevLogNumber),
                                           Later(n.nextFile, e.nextFileNumber), Later(n.lastSequence, e.lastSequence))
  {
    assert (es + [e])[..|es|] == es;
  }

  // ---- Reading back what was written

  lemma RecordsPrefix(es: seq<Edit>, k: nat)
    requires k <= |es|
    ensures Records(es)[..k] == Records(es[..k])
  {
  }

  lemma {:induction false} FitsPrefix(rank: Order, es: seq<Edit>, k: nat, level: Level)
    requires Fits(rank, es, level) && k <= |es|
    ensures Fits(rank, es[..k], level)
    decreases |es|
  {
    if k < |es| {
      FitsBefore(rank, es, level);
      FitsPrefix(rank, es[..|es| - 1], k, level);
      assert es[..|es| - 1][..k] == es[..k];
    } else {
      assert es[..k] == es;
    }
  }

  /**
   Recovering from any first part of a manifest gives the version there was after the edits
   that are wholly in it, with its numbers and pointers; from the whole manifest, the current one.
   */
  lemma ManifestReadsBack(rank: Order, comparator: seq<byte>, es: seq<Edit>, v: seq<seq<FileMeta>>, n: nat)
    requires AllEncodable(es) && SameComparator(comparator, es) && BuiltBy(rank, es, v)
             && n <= |LogFormat.Image(Records(es))|
    ensures var k := LogRoundTrip.WholeRecords(LogRoundTrip.RecordEnds(Records(es)), n);
            var file, m := LogFormat.Image(Records(es))[..n], NumbersOf(es[..k]);
            && Recoverable(comparator, file) ==
                 (if m.nextFile.Some? && m.logNumber.Some? && m.lastSequence.Some? then Some(es[..k]) else None)
            && forall l :: 0 <= l < NUM_LEVELS ==>
                 Saved(rank, [], ApplyAll(rank, es[..k], l)) == Steps(rank, es[..k], l)
    ensures n == |LogFormat.Image(Records(es))| ==>
            LogRoundTrip.WholeRecords(LogRoundTrip.RecordEnds(Records(es)), n) == |es| && Restored(rank, es, v)
  {
    var k := LogRoundTrip.WholeRecords(LogRoundTrip.RecordEnds(Records(es)), n);
    LogRoundTrip.LogReadsBack(Records(es), n, true);
    FirstRecordsUsable(comparator, es, k);
    FirstEditsReplay(rank, es, v, k);
    if n == |LogFormat.Image(Records(es))| {
      WholeManifest(rank, es, v);
    }
  }

  lemma FirstRecordsUsable(comparator: seq<byte>, es: seq<Edit>, k: nat)
    requires AllEncodable(es) && SameComparator(comparator, es) && k <= |es|
    ensures var m := NumbersOf(es[..k]);
            Usable(comparator, Records(es)[..k]) ==
            if m.nextFile.Some? && m.logNumber.Some? && m.lastSequence.Some? then Some(es[..k]) else None
  {
    RecordsPrefix(es, k);
    DecodesRecords(es[..k]);
  }

  lemma FirstEditsReplay(rank: Order, es: seq<Edit>, v: seq<seq<FileMeta>>, k: nat)
    requires BuiltBy(rank, es, v) && k <= |es|
    ensures forall l :: 0 <= l < NUM_LEVELS ==> Saved(rank, [], ApplyAll(rank, es[..k], l)) == Steps(rank, es[..k], l)
  {
    forall l: Level ensures Saved(rank, [], ApplyAll(rank, es[..k], l)) == Steps(rank, es[..k], l) {
      assert LevelBuiltBy(rank, es, v[l], l);
      FitsPrefix(rank, es, k, l);
      ReplayEqualsSteps(rank, es[..k], l);
    }
  }

  lemma WholeManifest(rank: Order, es: seq<Edit>, v: seq<seq<FileMeta>>)
    requires BuiltBy(rank, es, v)
    ensures LogRoundTrip.WholeRecords(LogRoundTrip.RecordEnds(Records(es)), |LogFormat.Image(Records(es))|) == |es|
    ensures Restored(rank, es, v)
  {
    LogRoundTrip.ImageIsLaid(Records(es));
    LogRoundTrip.WholeRecordsFrom(LogFormat.Image(Records(es)), Records(es), LogRoundTrip.RecordEnds(Records(es)),
      |LogFormat.Image(Records(es))|, |es|);
    forall l: Level ensures Saved(rank, [], ApplyAll(rank, es, l)) == v[l] {
      assert LevelBuiltBy(rank, es, v[l], l);
      ReplayEqualsSteps(rank, es, l);
    }
  }

  /** The manifest is read into a new version set. */
  method Reopen(vs: VersionSet) returns (status: Status, reopened: VersionSet)
    requires vs.Valid() && vs.descriptorLog != null && Short(vs.comparator)
    requires var n := NumbersOf(vs.edits); n.nextFile.Some? && n.logNumber.Some? && n.lastSequence.Some?
    ensures status.Fine? && fresh(reopened)
    ensures reopened.current == vs.current && reopened.compactPointer == vs.compactPointer
    ensures var n := NumbersOf(vs.edits);
            && reopened.lastSequence == n.lastSequence.value && reopened.logNumber == n.logNumber.value
            && reopened.prevLogNumber == (if n.prevLogNumber.Some? then n.prevLogNumber.value else 0)
            && reopened.nextFileNumber == (n.nextFile.value + 1) % 0x1_0000_0000_0000_0000
  {
    hide NumbersOf, PointersOf, BuiltBy, AllEncodable, SameComparator, Restored, Recoverable;
    reopened := new VersionSet(vs.rank, vs.comparator);
    WholeIsRecoverable(vs);
    status := reopened.Recover(vs.descriptorLog.dest);
    RestoredIsUnique(vs.rank, vs.edits, reopened.current, vs.current);
  }

  /**
   A change is logged, and the manifest read into a new version set: it has the version, the
   pointers and the numbers that were logged, and numbers files from the one behind.
   */
  method ChangeAndReopen(vs: VersionSet, e: Edit) returns (status: Status, reopened: VersionSet)
    requires vs.Valid() && |vs.current| == |vs.compactPointer| == NUM_LEVELS && vs.Acceptable(e)
             && Short(vs.comparator)
    modifies vs, vs.descriptorLog
    ensures status.Fine? && fresh(reopened)
    ensures reopened.current == vs.current && reopened.compactPointer == vs.compactPointer
    ensures reopened.lastSequence == old(vs.lastSequence)
    ensures reopened.logNumber == (if e.logNumber.Some? then e.logNumber.value else old(vs.logNumber))
    ensures reopened.prevLogNumber == (if e.prevLogNumber.Some? then e.prevLogNumber.value else old(vs.prevLogNumber))
    ensures old(vs.nextFileNumber) < 0xffff_ffff_ffff_ffff ==> reopened.nextFileNumber == old(vs.nextFileNumber) + 1
  {
    hide VersionSet.Valid, VersionSet.Acceptable, NumbersOf, Step, Pointers;
    vs.LogAndApply(e);
    status, reopened := Reopen(vs);
  }

  lemma WholeIsRecoverable(vs: VersionSet)
    requires vs.Logged()
    requires var n := NumbersOf(vs.edits); n.nextFile.Some? && n.logNumber.Some? && n.lastSequence.Some?
    ensures Recoverable(vs.comparator, vs.descriptorLog.dest) == Some(vs.edits)
    ensures Restored(vs.rank, vs.edits, vs.current) && vs.compactPointer == PointersOf(vs.edits)
  {
    var file := LogFormat.Image(Records(vs.edits));
    ManifestReadsBack(vs.rank, vs.comparator, vs.edits, vs.current, |file|);
    assert file[..|file|] == file && vs.edits[..|vs.edits|] == vs.edits;
  }

  lemma RestoredIsUnique(rank: Order, es: seq<Edit>, v: seq<seq<FileMeta>>, v': seq<seq<FileMeta>>)
    requires Restored(rank, es, v) && Restored(rank, es, v')
    ensures v == v'
  {
  }
}
