/**
 Which records a reader gives for a file with any bytes (db/log_reader.cc): those that are a full
 fragment, or a first one, middle ones and a last one with nothing in between, in their order.
 */
module LogFragments {
  import opened Options
  import opened Words
  import opened LogFormat
  import opened LogReader
  import LogRoundTrip

  /** The fragments that are read from any bytes, usable or not, up to the end. */
  function FragmentsRead(st: State, checksum: bool): seq<Physical>
    decreases st.Size()
  {
    var p := NextPhysical(st, checksum);
    if p.kind == EOF then [] else [p] + FragmentsRead(p.next, checksum)
  }

  /** Fragments from `b` to `e` make up a record. */
  predicate IsRecord(fragments: seq<Physical>, b: nat, e: nat)
    requires b <= e < |fragments|
  {
    if b == e then fragments[b].kind == FULL
    else
      && fragments[b].kind == FIRST && fragments[e].kind == LAST
      && forall i :: b < i < e ==> fragments[i].kind == MIDDLE
  }

  /** Where a record begins that ends with fragment `e`, if one does. */
  function BeginOf(fragments: seq<Physical>, e: nat): (b: Option<nat>)
    requires e < |fragments|
    ensures b.Some? ==> b.value <= e && IsRecord(fragments, b.value, e)
    ensures b.None? ==> forall i :: 0 <= i <= e ==> !IsRecord(fragments, i, e)
  {
    if fragments[e].kind == FULL then Some(e) else if fragments[e].kind == LAST then FirstBefore(fragments, e)
    else None
  }

  /** The first fragment of which all those before `e` go on. */
  function FirstBefore(fragments: seq<Physical>, e: nat): (b: Option<nat>)
    requires e <= |fragments|
    ensures b.Some? ==> b.value < e && fragments[b.value].kind == FIRST
                        && forall i :: b.value < i < e ==> fragments[i].kind == MIDDLE
    ensures b.None? ==>
              forall i :: 0 <= i < e && fragments[i].kind == FIRST ==>
                exists j :: i < j < e && fragments[j].kind != MIDDLE
  {
    if e == 0 then None
    else if fragments[e - 1].kind == FIRST then Some(e - 1)
    else if fragments[e - 1].kind == MIDDLE then FirstBefore(fragments, e - 1)
    else None
  }

  /** The data of fragments, put together. */
  function DataOf(fragments: seq<Physical>): Record {
    if fragments == [] then [] else DataOf(fragments[..|fragments| - 1]) + fragments[|fragments| - 1].data
  }

  /** The records that the first `n` fragments make up. */
  function RecordsOf(fragments: seq<Physical>, n: nat): seq<Record>
    requires n <= |fragments|
  {
    if n == 0 then []
    else
      var b := BeginOf(fragments, n - 1);
      RecordsOf(fragments, n - 1) + if b.None? then [] else [DataOf(fragments[b.value..n])]
  }

  // ---- The reader's loop

  /** What the reader has put together behind `n` fragments. */
  function Unfinished(fragments: seq<Physical>, n: nat): Option<Record>
    requires n <= |fragments|
  {
    var b := FirstBefore(fragments, n);
    if b.None? then None else Some(DataOf(fragments[b.value..n]))
  }

  /** The records still to come. */
  function ReadOn(st: State, scratch: Option<Record>, checksum: bool): seq<Record> {
    var out := NextRecord(st, scratch, checksum);
    if out.found then [out.record] + ReadAll(out.next, checksum).records else []
  }

  lemma ReadAllIsReadOn(st: State, checksum: bool)
    ensures ReadAll(st, checksum).records == ReadOn(st, None, checksum)
  {
  }

  lemma DataOneMore(fragments: seq<Physical>, b: nat, e: nat)
    requires b <= e < |fragments|
    ensures DataOf(fragments[b..e + 1]) == DataOf(fragments[b..e]) + fragments[e].data
    ensures DataOf(fragments[e..e + 1]) == fragments[e].data
  {
    assert fragments[b..e + 1][..e - b] == fragments[b..e];
    assert fragments[e..e + 1][..0] == [];
    assert [] + fragments[e].data == fragments[e].data;
  }

  /** The switch over fragment types is the next fragment of the file. */
  lemma TurnIsFragment(fragments: seq<Physical>, n: nat)
    requires n < |fragments| && fragments[n].kind != EOF
    ensures var p, b := fragments[n], BeginOf(fragments, n);
            var turn := Handle(p.kind, p.data, Unfinished(fragments, n));
            if b.Some? then
              && turn.Done? && turn.found && turn.record == DataOf(fragments[b.value..n + 1])
              && Unfinished(fragments, n + 1) == None
            else turn.More? && turn.scratch == Unfinished(fragments, n + 1)
  {
    var b := FirstBefore(fragments, n);
    DataOneMore(fragments, if b.Some? then b.value else n, n);
  }

  lemma OneFragmentOn(st: State, scratch: Option<Record>, checksum: bool)
    requires NextPhysical(st, checksum).kind != EOF
    ensures var p := NextPhysical(st, checksum);
            var turn := Handle(p.kind, p.data, scratch);
            ReadOn(st, scratch, checksum) ==
              if turn.More? then ReadOn(p.next, turn.scratch, checksum)
              else if turn.found then [turn.record] + ReadOn(p.next, None, checksum) else []
  {
    hide NextPhysical, Handle;
    ReadAllIsReadOn(NextPhysical(st, checksum).next, checksum);
  }

  lemma OneFragmentRead(st: State, checksum: bool)
    ensures var p := NextPhysical(st, checksum);
            if p.kind == EOF then FragmentsRead(st, checksum) == []
            else p.next.Size() < st.Size() && FragmentsRead(st, checksum) == [p] + FragmentsRead(p.next, checksum)
  {
  }

  lemma {:induction false} ReadFromFragment(st: State, fragments: seq<Physical>, n: nat, checksum: bool)
    requires n <= |fragments| && fragments[n..] == FragmentsRead(st, checksum)
    ensures RecordsOf(fragments, n) + ReadOn(st, Unfinished(fragments, n), checksum)
            == RecordsOf(fragments, |fragments|)
    decreases st.Size()
  {
    hide Handle, NextPhysical, Unfinished, BeginOf, DataOf, ReadOn, FragmentsRead, IsRecord;
    var p := NextPhysical(st, checksum);
    OneFragmentRead(st, checksum);
    if p.kind == EOF {
      EndOfFile(st, Unfinished(fragments, n), checksum);
    } else {
      assert fragments[n] == fragments[n..][0] == p && fragments[n + 1..] == fragments[n..][1..];
      TurnIsFragment(fragments, n);
      ReadFromFragment(p.next, fragments, n + 1, checksum);
      OneFragmentOn(st, Unfinished(fragments, n), checksum);
      var b := BeginOf(fragments, n);
      if b.Some? {
        Append3(RecordsOf(fragments, n), [DataOf(fragments[b.value..n + 1])], ReadOn(p.next, None, checksum));
      }
    }
  }

  lemma EndOfFile(st: State, scratch: Option<Record>, checksum: bool)
    requires NextPhysical(st, checksum).kind == EOF
    ensures FragmentsRead(st, checksum) == [] && ReadOn(st, scratch, checksum) == []
  {
  }

  /** For any bytes: the records read are those that the fragments make up. */
  lemma ReadsRecords(file: seq<byte>, checksum: bool)
    ensures var fragments := FragmentsRead(Start(file), checksum);
            ReadAll(Start(file), checksum).records == RecordsOf(fragments, |fragments|)
  {
    hide ReadAll, NextRecord, FragmentsRead, BeginOf;
    var fragments := FragmentsRead(Start(file), checksum);
    assert fragments[0..] == fragments;
    ReadFromFragment(Start(file), fragments, 0, checksum);
    ReadAllIsReadOn(Start(file), checksum);
    assert [] + ReadOn(Start(file), None, checksum) == ReadOn(Start(file), None, checksum);
  }

  // ---- What is not returned is reported

  /** How many bytes fragments have that are of the given kind, or of any other. */
  function BytesOf(fragments: seq<Physical>, bad: bool): nat {
    if fragments == [] then 0
    else (if (fragments[0].kind == BAD_RECORD) == bad then |fragments[0].data| else 0) + BytesOf(fragments[1..], bad)
  }

  function BytesIn(records: seq<Record>): nat {
    if records == [] then 0 else |records[0]| + BytesIn(records[1..])
  }

  /** Bytes of usable fragments that are reported as lost. */
  function BytesReported(reports: seq<Report>): nat {
    if reports == [] then 0
    else (if reports[0].reason == BadRecordLength || reports[0].reason == ChecksumMismatch then 0 else reports[0].bytes)
         + BytesReported(reports[1..])
  }

  function BytesHeld(scratch: Option<Record>): nat {
    if scratch.Some? then |scratch.value| else 0
  }

  lemma {:induction false} ReportedAppend(a: seq<Report>, b: seq<Report>)
    ensures BytesReported(a + b) == BytesReported(a) + BytesReported(b)
  {
    if a == [] {
      assert a + b == b;
    } else {
      assert (a + b)[1..] == a[1..] + b;
      ReportedAppend(a[1..], b);
    }
  }

  function UsableBytes(kind: nat, data: seq<byte>): nat {
    if kind == BAD_RECORD then 0 else |data|
  }

  /** Whatever the fragment: its bytes and those held are returned, still held, or reported. */
  lemma TurnLosesNothing(kind: nat, data: seq<byte>, scratch: Option<Record>)
    requires kind != EOF
    ensures var turn := Handle(kind, data, scratch);
            UsableBytes(kind, data) + BytesHeld(scratch) == BytesReported(turn.reports)
              + if turn.Done? then |turn.record| else BytesHeld(turn.scratch)
  {
    var turn := Handle(kind, data, scratch);
    if turn.reports != [] {
      assert turn.reports[1..] == [];
    }
  }

  /** What is reported before the switch over fragment types is about headers. */
  lemma {:induction false} PhysicalReports(st: State, checksum: bool)
    ensures BytesReported(NextPhysical(st, checksum).reports) == 0
    decreases |st.rest|, !st.eof
  {
    if |st.buffer| < HEADER && !st.eof {
      PhysicalReports(st.ReadBlock(), checksum);
    } else if |st.buffer| >= HEADER {
      var p := ParseFragment(st, checksum);
      if p.reports != [] {
        assert p.reports[1..] == [];
      }
    }
  }

  /** The reports still to come. */
  function ReportsOn(st: State, scratch: Option<Record>, checksum: bool): seq<Report> {
    var out := NextRecord(st, scratch, checksum);
    out.reports + if out.found then ReadAll(out.next, checksum).reports else []
  }

  lemma ReadAllIsReportsOn(st: State, checksum: bool)
    ensures ReadAll(st, checksum).reports == ReportsOn(st, None, checksum)
  {
  }

  lemma OneFragmentReports(st: State, scratch: Option<Record>, checksum: bool)
    requires NextPhysical(st, checksum).kind != EOF
    ensures var p := NextPhysical(st, checksum);
            var turn := Handle(p.kind, p.data, scratch);
            ReportsOn(st, scratch, checksum) == (p.reports + turn.reports)
              + if turn.More? then ReportsOn(p.next, turn.scratch, checksum)
                else if turn.found then ReportsOn(p.next, None, checksum) else []
  {
    hide NextPhysical, Handle;
    var p := NextPhysical(st, checksum);
    var turn := Handle(p.kind, p.data, scratch);
    ReadAllIsReportsOn(p.next, checksum);
    if turn.More? {
      var out := NextRecord(p.next, turn.scratch, checksum);
      Append3(p.reports + turn.reports, out.reports, if out.found then ReadAll(out.next, checksum).reports else []);
    }
  }

  /** What is held when the file ends. */
  function HeldAtEnd(st: State, scratch: Option<Record>, checksum: bool): Option<Record>
    decreases st.Size()
  {
    var p := NextPhysical(st, checksum);
    if p.kind == EOF then scratch
    else
      var turn := Handle(p.kind, p.data, scratch);
      HeldAtEnd(p.next, if turn.More? then turn.scratch else None, checksum)
  }

  lemma EndReports(st: State, scratch: Option<Record>, checksum: bool)
    requires NextPhysical(st, checksum).kind == EOF
    ensures BytesReported(ReportsOn(st, scratch, checksum)) == 0
  {
    PhysicalReports(st, checksum);
    var p := NextPhysical(st, checksum);
    assert ReportsOn(st, scratch, checksum) == p.reports;
  }

  lemma {:induction false} NothingIsLost(st: State, scratch: Option<Record>, checksum: bool)
    ensures BytesOf(FragmentsRead(st, checksum), false) + BytesHeld(scratch)
            == BytesIn(ReadOn(st, scratch, checksum)) + BytesReported(ReportsOn(st, scratch, checksum))
               + BytesHeld(HeldAtEnd(st, scratch, checksum))
    decreases st.Size()
  {
    hide Handle, NextPhysical, NextRecord, ReadAll, FragmentsRead, ReportsOn, ReadOn, HeldAtEnd;
    var p := NextPhysical(st, checksum);
    OneFragmentRead(st, checksum);
    HeldStep(st, scratch, checksum);
    if p.kind == EOF {
      EndReports(st, scratch, checksum);
      EndOfFile(st, scratch, checksum);
    } else {
      var turn := Handle(p.kind, p.data, scratch);
      var scratch' := if turn.More? then turn.scratch else None;
      OneFragmentOn(st, scratch, checksum);
      OneFragmentReports(st, scratch, checksum);
      TurnLosesNothing(p.kind, p.data, scratch);
      DoneIsFound(p.kind, p.data, scratch);
      PhysicalReports(st, checksum);
      ReportedAppend(p.reports, turn.reports);
      ReportedAppend(p.reports + turn.reports, ReportsOn(p.next, scratch', checksum));
      NothingIsLost(p.next, scratch', checksum);
      assert ([p] + FragmentsRead(p.next, checksum))[1..] == FragmentsRead(p.next, checksum);
    }
  }

  lemma DoneIsFound(kind: nat, data: seq<byte>, scratch: Option<Record>)
    ensures Handle(kind, data, scratch).Done? && kind != EOF ==> Handle(kind, data, scratch).found
  {
  }

  lemma HeldStep(st: State, scratch: Option<Record>, checksum: bool)
    ensures var p := NextPhysical(st, checksum);
            if p.kind == EOF then HeldAtEnd(st, scratch, checksum) == scratch
            else
              var turn := Handle(p.kind, p.data, scratch);
              HeldAtEnd(st, scratch, checksum)
                == HeldAtEnd(p.next, if turn.More? then turn.scratch else None, checksum)
  {
  }

  /** The bytes of a record that the end of the file cuts off are all that may be lost without a report. */
  lemma LostIsReported(file: seq<byte>, checksum: bool)
    ensures var all, fragments := ReadAll(Start(file), checksum), FragmentsRead(Start(file), checksum);
            BytesOf(fragments, false) == BytesIn(all.records) + BytesReported(all.reports)
              + BytesHeld(HeldAtEnd(Start(file), None, checksum))
  {
    hide NextRecord, ReadAll, FragmentsRead, ReportsOn, ReadOn, HeldAtEnd;
    ReadAllIsReadOn(Start(file), checksum);
    ReadAllIsReportsOn(Start(file), checksum);
    NothingIsLost(Start(file), None, checksum);
  }

  /** All but fragments of type 6, which the reader takes for those it could not read. */
  lemma LostIsReportedIff(file: seq<byte>, checksum: bool)
    ensures var all, fragments := ReadAll(Start(file), checksum), FragmentsRead(Start(file), checksum);
            (BytesOf(fragments, false) + BytesOf(fragments, true)
               == BytesIn(all.records) + BytesReported(all.reports) + BytesHeld(HeldAtEnd(Start(file), None, checksum)))
            <==> forall i :: 0 <= i < |fragments| && fragments[i].kind == BAD_RECORD ==> fragments[i].data == []
  {
    LostIsReported(file, checksum);
    NoneOfBad(FragmentsRead(Start(file), checksum));
  }

  lemma {:induction false} NoneOfBad(fragments: seq<Physical>)
    ensures BytesOf(fragments, true) == 0 <==>
              forall i :: 0 <= i < |fragments| && fragments[i].kind == BAD_RECORD ==> fragments[i].data == []
  {
    if fragments != [] {
      var more := fragments[1..];
      NoneOfBad(more);
      if forall i :: 0 <= i < |fragments| && fragments[i].kind == BAD_RECORD ==> fragments[i].data == [] {
        forall i | 0 <= i < |more| && more[i].kind == BAD_RECORD
          ensures more[i].data == []
        {
          assert more[i] == fragments[i + 1];
        }
      } else {
        var i :| 0 <= i < |fragments| && fragments[i].kind == BAD_RECORD && fragments[i].data != [];
        if i > 0 {
          assert more[i - 1] == fragments[i];
        }
      }
    }
  }

  lemma TypeSixIsTaken(file: seq<byte>, checksum: bool)
    requires file == Header(6, [65]) + [65]
    ensures var p := NextPhysical(Start(file), checksum);
            p.kind == BAD_RECORD && p.data == [65] && p.reports == [] && p.next.eof && p.next.buffer == []
  {
    hide Header, ParseFragment;
    var st := Start(file).ReadBlock();
    assert st.buffer == file && st.eof && st.rest == [];
    LogRoundTrip.ParseWhole(st, 6, [65], checksum);
    assert NextPhysical(Start(file), checksum) == NextPhysical(st, checksum) == ParseFragment(st, checksum);
  }

  lemma FileHasEnded(st: State, checksum: bool)
    requires st.eof && st.buffer == []
    ensures NextPhysical(st, checksum).kind == EOF && ReportsOn(st, None, checksum) == []
  {
  }

  /** A whole fragment of type 6 with the letter A: it is neither returned nor reported. */
  lemma TypeSixIsLost(file: seq<byte>, checksum: bool)
    requires file == Header(6, [65]) + [65]
    ensures ReadAll(Start(file), checksum) == Replay([], [])
    ensures BytesOf(FragmentsRead(Start(file), checksum), true) == 1
  {
    hide Header, ReadAll, FragmentsRead, NextPhysical, ReportsOn, ReadOn, Start;
    TypeSixIsTaken(file, checksum);
    var p := NextPhysical(Start(file), checksum);
    FileHasEnded(p.next, checksum);
    OneFragmentRead(Start(file), checksum);
    OneFragmentRead(p.next, checksum);
    OneFragmentOn(Start(file), None, checksum);
    EndOfFile(p.next, None, checksum);
    ReadAllIsReadOn(Start(file), checksum);
    ReadAllIsReportsOn(Start(file), checksum);
    OneFragmentReports(Start(file), None, checksum);
    assert BytesOf([p], true) == 1 + BytesOf([p][1..], true);
  }

  // ---- Headers that are not taken

  /** A block of zeros, as preallocated files have them, is passed over without a report. */
  lemma ZerosAreSkipped(st: State, checksum: bool)
    requires |st.buffer| >= HEADER && forall i :: 0 <= i < |st.buffer| ==> st.buffer[i] == 0
    ensures ParseFragment(st, checksum) == Physical(BAD_RECORD, [], st.Dropped(), [])
  {
  }

  /** A length that goes beyond the block is reported, but at the end of the file it is a torn write. */
  lemma LengthIsChecked(st: State, checksum: bool)
    requires |st.buffer| >= HEADER && st.buffer[4] as int + 256 * st.buffer[5] as int > |st.buffer| - HEADER
    ensures var p := ParseFragment(st, checksum);
            && p.next == st.Dropped() && p.data == []
            && if st.eof then p.kind == EOF && p.reports == []
               else p.kind == BAD_RECORD && p.reports == [Report(|st.buffer|, BadRecordLength)]
  {
  }
}
