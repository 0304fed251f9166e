/** Reading a log file back, whole or cut off anywhere (db/log_reader.cc). */
module LogReader {
  import opened Words
  import opened Coding
  import Crc32c
  import opened LogFormat
  import opened Options

  // Values beyond the types found in a file, numbered after the last of those.
  const EOF: nat := 5
  const BAD_RECORD: nat := 6

  datatype Reason =
    | BadRecordLength
    | ChecksumMismatch
    | PartialRecordWithoutEnd
    | MissingStart
    | ErrorInMiddle
    | UnknownType
  datatype Report = Report(bytes: nat, reason: Reason)

  /** What is left of a block that was read in, whether that block was short, and the rest of the file. */
  datatype State = State(buffer: seq<byte>, eof: bool, rest: seq<byte>) {
    function Size(): nat {
      |buffer| + |rest|
    }

    function Stream(): seq<byte> {
      buffer + rest
    }

    /** The next block of the file. */
    function ReadBlock(): State {
      var n := if |rest| < BLOCK then |rest| else BLOCK;
      State(rest[..n], n < BLOCK, rest[n..])
    }

    function Dropped(): State {
      this.(buffer := [])
    }
  }

  function Start(file: seq<byte>): State {
    State([], false, file)
  }

  datatype Physical = Physical(kind: nat, data: seq<byte>, next: State, reports: seq<Report>)

  function LengthOf(header: seq<byte>): nat
    requires |header| >= HEADER
  {
    header[4] as int + 256 * header[5] as int
  }

  predicate GoodChecksum(buffer: seq<byte>)
    requires |buffer| >= HEADER && |buffer| >= HEADER + LengthOf(buffer)
  {
    Crc32c.Unmask(DecodeFixed32(buffer)) == Crc32c.Value(buffer[6..HEADER + LengthOf(buffer)])
  }

  /** The fragment at the front of a buffer that holds at least a header. */
  function ParseFragment(st: State, checksum: bool): (r: Physical)
    requires |st.buffer| >= HEADER
    ensures r.next.Size() < st.Size()
  {
    var kind, length := st.buffer[6], LengthOf(st.buffer);
    if HEADER + length > |st.buffer| then
      if st.eof then Physical(EOF, [], st.Dropped(), [])
      else Physical(BAD_RECORD, [], st.Dropped(), [Report(|st.buffer|, BadRecordLength)])
    else if kind == 0 && length == 0 then
      Physical(BAD_RECORD, [], st.Dropped(), [])
    else if checksum && !GoodChecksum(st.buffer) then
      Physical(BAD_RECORD, [], st.Dropped(), [Report(|st.buffer|, ChecksumMismatch)])
    else
      Physical(kind, st.buffer[HEADER..HEADER + length], st.(buffer := st.buffer[HEADER + length..]), [])
  }

  /** The next fragment; too few bytes for a header are skipped, or end the file if the block was short. */
  function NextPhysical(st: State, checksum: bool): (r: Physical)
    ensures r.next.Size() <= st.Size()
    ensures r.kind != EOF ==> r.next.Size() < st.Size()
    decreases |st.rest|, !st.eof
  {
    if |st.buffer| >= HEADER then ParseFragment(st, checksum)
    else if st.eof then Physical(EOF, [], st.Dropped(), [])
    else NextPhysical(st.ReadBlock(), checksum)
  }

  /** What a fragment does to the record being put together: it is done, or more is read. */
  datatype Turn =
    | Done(found: bool, record: Record, reports: seq<Report>)
    | More(scratch: Option<Record>, reports: seq<Report>)

  function PartialRecord(scratch: Option<Record>): seq<Report> {
    if scratch.Some? && scratch.value != [] then [Report(|scratch.value|, PartialRecordWithoutEnd)] else []
  }

  /** `scratch` holds the fragments of an unfinished record. */
  function Handle(kind: nat, data: seq<byte>, scratch: Option<Record>): Turn {
    if kind == EOF then Done(false, [], [])
    else if kind == FULL then Done(true, data, PartialRecord(scratch))
    else if kind == FIRST then More(Some(data), PartialRecord(scratch))
    else if (kind == MIDDLE || kind == LAST) && scratch.None? then More(None, [Report(|data|, MissingStart)])
    else if kind == MIDDLE then More(Some(scratch.value + data), [])
    else if kind == LAST then Done(true, scratch.value + data, [])
    else
      var dropped := if scratch.Some? then |scratch.value| else 0;
      More(None, if kind != BAD_RECORD then [Report(|data| + dropped, UnknownType)]
                 else if scratch.Some? then [Report(dropped, ErrorInMiddle)] else [])
  }

  datatype Outcome = Outcome(found: bool, record: Record, next: State, reports: seq<Report>) {
    function After(earlier: seq<Report>): Outcome {
      this.(reports := earlier + reports)
    }
  }

  lemma AfterTwice(out: Outcome, a: seq<Report>, b: seq<Report>)
    ensures out.After(b).After(a) == out.After(a + b)
  {
    assert a + (b + out.reports) == a + b + out.reports;
  }

  /** The next record, put together from fragments. */
  function NextRecord(st: State, scratch: Option<Record>, checksum: bool): (out: Outcome)
    ensures out.next.Size() <= st.Size()
    ensures out.found ==> out.next.Size() < st.Size()
    decreases st.Size()
  {
    var p := NextPhysical(st, checksum);
    var turn := Handle(p.kind, p.data, scratch);
    match turn
    case Done(found, record, reports) => Outcome(found, record, p.next, p.reports + reports)
    case More(scratch', reports) => NextRecord(p.next, scratch', checksum).After(p.reports + reports)
  }

  lemma OneTurn(st: State, scratch: Option<Record>, checksum: bool, earlier: seq<Report>)
    ensures var p := NextPhysical(st, checksum);
            var turn := Handle(p.kind, p.data, scratch);
            var reports := earlier + (p.reports + turn.reports);
            && (turn.More? ==> p.next.Size() < st.Size())
            && NextRecord(st, scratch, checksum).After(earlier) ==
               if turn.Done? then Outcome(turn.found, turn.record, p.next, reports)
               else NextRecord(p.next, turn.scratch, checksum).After(reports)
  {
    var p := NextPhysical(st, checksum);
    var turn := Handle(p.kind, p.data, scratch);
    if turn.More? {
      AfterTwice(NextRecord(p.next, turn.scratch, checksum), earlier, p.reports + turn.reports);
    }
  }

  datatype Replay = Replay(records: seq<Record>, reports: seq<Report>)

  /** Reading records until there are no more. */
  function ReadAll(st: State, checksum: bool): Replay
    decreases st.Size()
  {
    var out := NextRecord(st, None, checksum);
    if !out.found then Replay([], out.reports)
    else
      var more := ReadAll(out.next, checksum);
      Replay([out.record] + more.records, out.reports + more.reports)
  }

  class Reader {
    const checksum: bool
    var rest: seq<byte>      // unread part of the file
    var buffer: seq<byte>
    var eof: bool
    var reports: seq<Report>

    function Value(): State
      reads this
    {
      State(buffer, eof, rest)
    }

    constructor (file: seq<byte>, checksum: bool)
      ensures Value() == Start(file) && reports == [] && this.checksum == checksum
    {
      this.checksum, rest, buffer, eof, reports := checksum, file, [], false, [];
    }

    method ReportCorruption(bytes: nat, reason: Reason)
      modifies this`reports
      ensures reports == old(reports) + [Report(bytes, reason)]
    {
      reports := reports + [Report(bytes, reason)];
    }

    method ReadPhysicalRecord() returns (kind: nat, fragment: seq<byte>)
      modifies this
      ensures var p := NextPhysical(old(Value()), checksum);
              kind == p.kind && fragment == p.data && Value() == p.next && reports == old(reports) + p.reports
    {
      while |buffer| < HEADER
        invariant NextPhysical(old(Value()), checksum) == NextPhysical(Value(), checksum) && reports == old(reports)
        decreases |rest|, !eof
      {
        if !eof {
          var n := if |rest| < BLOCK then |rest| else BLOCK;
          buffer, rest, eof := rest[..n], rest[n..], n < BLOCK;
        } else {
          buffer := [];
          return EOF, [];
        }
      }
      kind, fragment := TakeFragment();
    }

    /** The rest of ReadPhysicalRecord, once the buffer holds a header. */
    method TakeFragment() returns (kind: nat, fragment: seq<byte>)
      requires |buffer| >= HEADER
      modifies this
      ensures var p := ParseFragment(old(Value()), checksum);
              kind == p.kind && fragment == p.data && Value() == p.next && reports == old(reports) + p.reports
    {
      var type_, length := buffer[6], LengthOf(buffer);
      if HEADER + length > |buffer| {
        var dropSize := |buffer|;
        buffer := [];
        if !eof {
          ReportCorruption(dropSize, BadRecordLength);
          return BAD_RECORD, [];
        }
        return EOF, [];
      }
      if type_ == ZERO_TYPE && length == 0 {
        buffer := [];
        return BAD_RECORD, [];
      }
      if checksum {
        if !GoodChecksum(buffer) {
          var dropSize := |buffer|;
          buffer := [];
          ReportCorruption(dropSize, ChecksumMismatch);
          return BAD_RECORD, [];
        }
      }
      kind, fragment := type_, buffer[HEADER..HEADER + length];
      buffer := buffer[HEADER + length..];
    }

    /** The switch over fragment types. */
    method HandleFragment(kind: nat, fragment: seq<byte>, scratch: Record, inFragmentedRecord: bool)
      returns (done: bool, found: bool, record: Record, scratch': Record, inFragmentedRecord': bool)
      requires !inFragmentedRecord ==> scratch == []
      modifies this`reports
      ensures !inFragmentedRecord' ==> scratch' == []
      ensures var turn := Handle(kind, fragment, if inFragmentedRecord then Some(scratch) else None);
              && reports == old(reports) + turn.reports
              && if done then turn.Done? && turn.found == found && turn.record == record
                 else turn == More(if inFragmentedRecord' then Some(scratch') else None, turn.reports)
    {
      done, found, record, scratch', inFragmentedRecord' := false, false, [], scratch, inFragmentedRecord;
      if kind == FULL {
        if inFragmentedRecord && scratch != [] {
          ReportCorruption(|scratch|, PartialRecordWithoutEnd);
        }
        done, found, record := true, true, fragment;
      } else if kind == FIRST {
        if inFragmentedRecord && scratch != [] {
          ReportCorruption(|scratch|, PartialRecordWithoutEnd);
        }
        scratch', inFragmentedRecord' := fragment, true;
      } else if kind == MIDDLE {
        if !inFragmentedRecord {
          ReportCorruption(|fragment|, MissingStart);
        } else {
          scratch' := scratch + fragment;
        }
      } else if kind == LAST {
        if !inFragmentedRecord {
          ReportCorruption(|fragment|, MissingStart);
        } else {
          done, found, record := true, true, scratch + fragment;
        }
      } else if kind == EOF {
        done := true;
      } else if kind == BAD_RECORD {
        if inFragmentedRecord {
          ReportCorruption(|scratch|, ErrorInMiddle);
          scratch', inFragmentedRecord' := [], false;
        }
      } else {
        ReportCorruption(|fragment| + |scratch|, UnknownType);
        scratch', inFragmentedRecord' := [], false;
      }
    }

    /** What is still to be read after the fragments in `scratch`, in all, with what was reported before. */
    ghost function Ahead(scratch: Record, inFragmentedRecord: bool, earlier: seq<Report>): Outcome
      reads this
    {
      NextRecord(Value(), if inFragmentedRecord then Some(scratch) else None, checksum).After(earlier)
    }

    /** One turn of the loop of ReadRecord; `earlier` is what was reported since `before`. */
    method ReadFragment(scratch: Record, inFragmentedRecord: bool, ghost before: seq<Report>,
        ghost earlier: seq<Report>)
      returns (done: bool, found: bool, record: Record, scratch': Record, inFragmentedRecord': bool,
        ghost earlier': seq<Report>)
      requires (!inFragmentedRecord ==> scratch == []) && reports == before + earlier
      modifies this
      ensures (!inFragmentedRecord' ==> scratch' == []) && reports == before + earlier'
      ensures !done ==> Value().Size() < old(Value().Size())
      ensures old(Ahead(scratch, inFragmentedRecord, earlier)) ==
              if done then Outcome(found, record, Value(), earlier') else Ahead(scratch', inFragmentedRecord', earlier')
    {
      ghost var p := NextPhysical(Value(), checksum);
      ghost var turn := Handle(p.kind, p.data, if inFragmentedRecord then Some(scratch) else None);
      OneTurn(Value(), if inFragmentedRecord then Some(scratch) else None, checksum, earlier);
      var kind, fragment := ReadPhysicalRecord();
      done, found, record, scratch', inFragmentedRecord' := HandleFragment(kind, fragment, scratch, inFragmentedRecord);
      earlier' := earlier + (p.reports + turn.reports);
      Append3(before + earlier, p.reports, turn.reports);
      Append3(before, earlier, p.reports + turn.reports);
    }

    method ReadRecord() returns (found: bool, record: Record)
      modifies this
      ensures var out := NextRecord(old(Value()), None, checksum);
              found == out.found && record == out.record && Value() == out.next && reports == old(reports) + out.reports
    {
      hide NextRecord;
      var scratch, inFragmentedRecord, done := [], false, false;
      found, record := false, [];
      ghost var before, earlier := reports, [];
      ghost var whole := Ahead(scratch, false, earlier);
      while !done
        invariant (!inFragmentedRecord ==> scratch == []) && reports == before + earlier
        invariant whole == if done then Outcome(found, record, Value(), earlier)
                  else Ahead(scratch, inFragmentedRecord, earlier)
        decreases !done, Value().Size()
      {
        done, found, record, scratch, inFragmentedRecord, earlier := ReadFragment(scratch, inFragmentedRecord, before,
          earlier);
      }
    }
  }

  function Joined(a: Replay, b: Replay): Replay {
    Replay(a.records + b.records, a.reports + b.reports)
  }

  lemma JoinedOneMore(read: seq<Record>, before: seq<Report>, st: State, checksum: bool)
    ensures var out := NextRecord(st, None, checksum);
            Joined(Replay(read, before), ReadAll(st, checksum)) ==
            if out.found then Joined(Replay(read + [out.record], before + out.reports), ReadAll(out.next, checksum))
            else Replay(read, before + out.reports)
  {
    var out := NextRecord(st, None, checksum);
    if out.found {
      var more := ReadAll(out.next, checksum);
      assert read + ([out.record] + more.records) == read + [out.record] + more.records;
      assert before + (out.reports + more.reports) == before + out.reports + more.reports;
    } else {
      assert read + [] == read;
    }
  }

  /** Reading a log file to its end, as recovery does. */
  method ReadLog(file: seq<byte>, checksum: bool) returns (read: seq<Record>, reports: seq<Report>)
    ensures Replay(read, reports) == ReadAll(Start(file), checksum)
  {
    var reader := new Reader(file, checksum);
    ghost var all := ReadAll(Start(file), checksum);
    read := [];
    assert all.records == [] + all.records && all.reports == [] + all.reports;
    var found := true;
    while found
      invariant fresh(reader) && reader.checksum == checksum
      invariant all == if found then Joined(Replay(read, reader.reports), ReadAll(reader.Value(), checksum))
                else Replay(read, reader.reports)
      decreases found, reader.Value().Size()
    {
      JoinedOneMore(read, reader.reports, reader.Value(), checksum);
      var record;
      found, record := reader.ReadRecord();
      if found {
        read := read + [record];
      }
    }
    reports := reader.reports;
  }
}
