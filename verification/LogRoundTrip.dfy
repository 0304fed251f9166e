/**
 What is written to a log is read back, however the file was cut off: reading any first part
 of it gives the records that lie wholly inside, and reports nothing (db/log_writer.cc,
 db/log_reader.cc).
 */
module LogRoundTrip {
  import opened Words
  import opened Coding
  import opened LogFormat
  import opened LogReader
  import opened LogWriter
  import opened Options
  import Crc32c

  /** The reader has used `off` bytes of a block and has the rest of it, or of the file, in its buffer. */
  predicate At(st: State, off: nat) {
    && off <= BLOCK
    && if st.eof then st.rest == [] && |st.buffer| < BLOCK - off else |st.buffer| == BLOCK - off
  }

  /** The reader once it stands where a header fits. */
  function Settled(st: State, off: nat): State {
    if BLOCK - off < HEADER && !st.eof then st.ReadBlock() else st
  }

  lemma SettledSkipsPadding(st: State, off: nat, checksum: bool)
    requires At(st, off) && (st.eof ==> BLOCK - off >= HEADER)
    ensures var st' := Settled(st, off);
            && At(st', HeaderOffset(off)) && NextPhysical(st, checksum) == NextPhysical(st', checksum)
            && Padding(off) <= |st.Stream()| && st'.Stream() == st.Stream()[Padding(off)..]
  {
    if BLOCK - off < HEADER && !st.eof {
      var st' := st.ReadBlock();
      assert st'.buffer + st'.rest == st.rest;
      assert st.Stream()[|st.buffer|..] == st.rest;
    } else {
      assert st.Stream()[0..] == st.Stream();
    }
  }

  /** The parts of a header are what was put into it. */
  lemma HeaderParts(kind: byte, chunk: seq<byte>, buffer: seq<byte>)
    requires |chunk| < 0x1_0000 && Header(kind, chunk) <= buffer
    ensures buffer[6] == kind && LengthOf(buffer) == |chunk|
    ensures Crc32c.Unmask(DecodeFixed32(buffer)) == Checksum(kind, chunk)
  {
    var h, sum := Header(kind, chunk), Crc32c.Mask(Checksum(kind, chunk));
    assert buffer == h + buffer[HEADER..];
    assert buffer == EncodeFixed32(sum) + buffer[4..];
    Fixed32RoundTrip(sum, buffer[4..]);
    Crc32c.UnmaskInvertsMask(Checksum(kind, chunk));
    assert buffer[4] == h[4] && buffer[5] == h[5] && buffer[6] == h[6];
  }

  lemma WholeFragmentParts(kind: byte, chunk: seq<byte>, buffer: seq<byte>)
    requires |chunk| < 0x1_0000 && Header(kind, chunk) + chunk <= buffer
    ensures buffer[6] == kind && LengthOf(buffer) == |chunk| && GoodChecksum(buffer)
    ensures buffer[HEADER..HEADER + |chunk|] == chunk
  {
    HeadOfBuffer(Header(kind, chunk), chunk, kind, buffer);
    HeaderParts(kind, chunk, buffer);
  }

  /** A fragment that is all there is taken. */
  lemma ParseWhole(st: State, kind: byte, chunk: seq<byte>, checksum: bool)
    requires |chunk| < 0x1_0000 && kind != 0 && Header(kind, chunk) + chunk <= st.buffer
    ensures ParseFragment(st, checksum) == Physical(kind, chunk, st.(buffer := st.buffer[HEADER + |chunk|..]), [])
  {
    WholeFragmentParts(kind, chunk, st.buffer);
  }

  /** A fragment cut short in the last block ends the file. */
  lemma ParseCut(st: State, kind: byte, chunk: seq<byte>, checksum: bool)
    requires |chunk| < 0x1_0000 && st.eof && HEADER <= |st.buffer| < HEADER + |chunk|
    requires st.buffer <= Header(kind, chunk) + chunk
    ensures ParseFragment(st, checksum).kind == EOF && ParseFragment(st, checksum).reports == []
  {
    assert Header(kind, chunk) <= st.buffer;
    HeaderParts(kind, chunk, st.buffer);
  }

  /** What a fragment takes from the buffer leaves the reader further on in the block. */
  lemma TakeBody(st: State, off: nat, body: seq<byte>)
    requires At(st, off) && body <= st.Stream() && off + |body| <= BLOCK
    ensures body <= st.buffer
    ensures var st' := st.(buffer := st.buffer[|body|..]);
            At(st', off + |body|) && st'.Stream() == st.Stream()[|body|..]
  {
    assert |body| <= |st.buffer|;
    assert body == st.Stream()[..|body|] == st.buffer[..|body|];
  }

  function Body(off: nat, data: seq<byte>, begin: bool): (s: seq<byte>)
    requires off <= BLOCK
    ensures |s| == HEADER + Chunk(off, data)
  {
    var n := Chunk(off, data);
    Header(KindOf(begin, n == |data|), data[..n]) + data[..n]
  }

  lemma FragmentIsPaddedBody(off: nat, data: seq<byte>, begin: bool)
    requires off <= BLOCK
    ensures Fragment(off, data, begin)[Padding(off)..] == Body(off, data, begin)
  {
  }

  lemma SkipFront(s: seq<byte>, f: seq<byte>, n: nat)
    requires f <= s && n <= |f|
    ensures f[n..] <= s[n..] && s[n..][|f[n..]|..] == s[|f|..]
  {
  }

  /** Reading a fragment that is all in the file. */
  lemma ReadWholeFragment(st: State, off: nat, data: seq<byte>, begin: bool, checksum: bool)
    requires At(st, off) && Fragment(off, data, begin) <= st.Stream()
    ensures var n, p := Chunk(off, data), NextPhysical(st, checksum);
            && p == Physical(KindOf(begin, n == |data|), data[..n], p.next, [])
               && At(p.next, HeaderOffset(off) + HEADER + n)
            && p.next.Stream() == st.Stream()[|Fragment(off, data, begin)|..]
  {
    hide Fragment, Settled, Header, ParseFragment;
    var n, f, pad := Chunk(off, data), Fragment(off, data, begin), Padding(off);
    SettledSkipsPadding(st, off, checksum);
    var st' := Settled(st, off);
    var body := Body(off, data, begin);
    FragmentIsPaddedBody(off, data, begin);
    SkipFront(st.Stream(), f, pad);
    TakeBody(st', HeaderOffset(off), body);
    ParseWhole(st', KindOf(begin, n == |data|), data[..n], checksum);
  }

  /** Reading a fragment that is cut off by the end of the file. */
  lemma ReadCutFragment(st: State, off: nat, data: seq<byte>, begin: bool, checksum: bool)
    requires At(st, off) && st.Stream() <= Fragment(off, data, begin) && |st.Stream()| < |Fragment(off, data, begin)|
    ensures var p := NextPhysical(st, checksum); p.kind == EOF && p.reports == []
  {
    var n, f, pad := Chunk(off, data), Fragment(off, data, begin), Padding(off);
    if !(st.eof && BLOCK - off < HEADER) {
      SettledSkipsPadding(st, off, checksum);
      var st' := Settled(st, off);
      var body := Body(off, data, begin);
      FragmentIsPaddedBody(off, data, begin);
      assert st'.Stream() <= body;
      assert st'.eof && st'.Stream() == st'.buffer;
      if |st'.buffer| >= HEADER {
        ParseCut(st', KindOf(begin, n == |data|), data[..n], checksum);
      }
    }
  }

  /** Where a record leaves the reader in its block. */
  function EndOffset(off: nat, data: seq<byte>): (e: nat)
    requires off <= BLOCK
    ensures e <= BLOCK
    decreases |data|, HeaderOffset(off)
  {
    var n := Chunk(off, data);
    if n == |data| then HeaderOffset(off) + HEADER + n else EndOffset(BLOCK, data[n..])
  }

  lemma AppendPrefix(a: seq<byte>, b: seq<byte>, s: seq<byte>)
    requires a + b <= s
    ensures a <= s && b <= s[|a|..] && s[|a|..][|b|..] == s[|a + b|..]
  {
    assert s[..|a|] == (a + b)[..|a|] == a;
    assert s[|a|..][..|b|] == (a + b)[|a|..] == b;
  }

  /** Handling the next fragment of a record that is being put together. */
  lemma OneMoreFragment(st: State, scratch: Option<Record>, checksum: bool, p: Physical)
    requires p == NextPhysical(st, checksum) && p.reports == []
             && (scratch.Some? ==> p.kind == MIDDLE || p.kind == LAST)
    requires scratch.None? ==> p.kind == FULL || p.kind == FIRST
    ensures var so := if scratch.Some? then scratch.value + p.data else p.data;
            NextRecord(st, scratch, checksum) ==
            if p.kind == FULL || p.kind == LAST then Outcome(true, so, p.next, [])
                else NextRecord(p.next, Some(so), checksum)
  {
    var turn := Handle(p.kind, p.data, scratch);
    assert turn.reports == [];
    if turn.More? {
      assert [] + NextRecord(p.next, turn.scratch, checksum).reports ==
          NextRecord(p.next, turn.scratch, checksum).reports;
    }
  }

  function Collected(scratch: Option<Record>, data: Record): Record {
    if scratch.Some? then scratch.value + data else data
  }

  /** Reading a record that is all in the file. */
  lemma {:induction false} ReadWholeRecord(st: State, off: nat, data: seq<byte>, scratch: Option<Record>,
      checksum: bool)
    requires At(st, off) && Fragments(off, data, scratch.None?) <= st.Stream()
    ensures var out := NextRecord(st, scratch, checksum);
            && out == Outcome(true, Collected(scratch, data), out.next, []) && At(out.next, EndOffset(off, data))
            && out.next.Stream() == st.Stream()[|Fragments(off, data, scratch.None?)|..]
    decreases |data|, HeaderOffset(off)
  {
    var n, f, begin := Chunk(off, data), Fragment(off, data, scratch.None?), scratch.None?;
    if n == |data| {
      ReadWholeFragment(st, off, data, begin, checksum);
      OneMoreFragment(st, scratch, checksum, NextPhysical(st, checksum));
      assert data[..n] == data;
    } else {
      AppendPrefix(f, Fragments(BLOCK, data[n..], false), st.Stream());
      ReadWholeFragment(st, off, data, begin, checksum);
      var p := NextPhysical(st, checksum);
      OneMoreFragment(st, scratch, checksum, p);
      ReadWholeRecord(p.next, BLOCK, data[n..], Some(Collected(scratch, data[..n])), checksum);
      AppendChunk(scratch, data, n);
    }
  }

  lemma AppendChunk(scratch: Option<Record>, data: Record, n: nat)
    requires n <= |data|
    ensures Collected(Some(Collected(scratch, data[..n])), data[n..]) == Collected(scratch, data)
  {
    assert data == data[..n] + data[n..];
  }

  lemma CutPrefix(s: seq<byte>, a: seq<byte>, b: seq<byte>)
    requires s <= a + b
    ensures |a| <= |s| ==> a <= s && s[|a|..] <= b
    ensures |s| < |a| ==> s <= a
  {
  }

  /** Reading a record that is cut off by the end of the file: nothing is found, nothing is reported. */
  lemma {:induction false} ReadCutRecord(st: State, off: nat, data: seq<byte>, scratch: Option<Record>, checksum: bool)
    requires At(st, off) && st.Stream() <= Fragments(off, data, scratch.None?)
             && |st.Stream()| < |Fragments(off, data, scratch.None?)|
    ensures var out := NextRecord(st, scratch, checksum); !out.found && out.reports == []
    decreases |data|, HeaderOffset(off)
  {
    var n, f, begin := Chunk(off, data), Fragment(off, data, scratch.None?), scratch.None?;
    if |st.Stream()| < |f| {
      if n < |data| {
        CutPrefix(st.Stream(), f, Fragments(BLOCK, data[n..], false));
      }
      ReadCutFragment(st, off, data, begin, checksum);
    } else {
      CutPrefix(st.Stream(), f, Fragments(BLOCK, data[n..], false));
      ReadWholeFragment(st, off, data, begin, checksum);
      var p := NextPhysical(st, checksum);
      OneMoreFragment(st, scratch, checksum, p);
      ReadCutRecord(p.next, BLOCK, data[n..], Some(Collected(scratch, data[..n])), checksum);
    }
  }

  /** At the end of the file there is no record, and nothing to report. */
  lemma ReadAtEnd(st: State, off: nat, checksum: bool)
    requires At(st, off) && st.Stream() == []
    ensures var out := NextRecord(st, None, checksum); !out.found && out.reports == []
  {
    assert st.buffer == [] && st.rest == [];
    if !st.eof {
      assert NextPhysical(st, checksum) == NextPhysical(st.ReadBlock(), checksum);
    }
  }

  /** A record leaves the writer and the reader at the same offset. */
  lemma {:induction false} EndOffsetOfLength(block: int, off: nat, data: seq<byte>, begin: bool) returns (block': int)
    requires off <= BLOCK
    ensures 32768 * block + off + |Fragments(off, data, begin)| == 32768 * block' + EndOffset(off, data)
    decreases |data|, HeaderOffset(off)
  {
    var n := Chunk(off, data);
    block' := if BLOCK - off < HEADER then block + 1 else block;
    if n < |data| {
      block' := EndOffsetOfLength(block', BLOCK, data[n..], false);
    }
  }

  ghost predicate RecordLies(log: seq<byte>, records: seq<Record>, ends: seq<nat>, i: nat)
    requires i < |records| && |ends| == |records| + 1
  {
    ends[i] < ends[i + 1] <= |log| && log[ends[i]..ends[i + 1]] == Fragments(ends[i] % 32768, records[i], true)
  }

  /** Records laid out one after another in a log; record `i` lies between `ends[i]` and `ends[i + 1]`. */
  ghost predicate Laid(log: seq<byte>, records: seq<Record>, ends: seq<nat>) {
    && |ends| == |records| + 1 && ends[0] == 0 && ends[|records|] == |log|
    && forall i {:trigger records[i]} :: 0 <= i < |records| ==> RecordLies(log, records, ends, i)
  }

  /** Where the records of a log end, the start of the log first. */
  function RecordEnds(records: seq<Record>): (ends: seq<nat>)
    ensures |ends| == |records| + 1
  {
    seq(|records| + 1, (k: nat) requires k <= |records| => |Image(records[..k])|)
  }

  lemma ImageIsLaid(records: seq<Record>)
    ensures Laid(Image(records), records, RecordEnds(records))
  {
    hide RecordLies, RecordEnds;
    var log, ends := Image(records), RecordEnds(records);
    LogEndsAt(records);
    forall i | 0 <= i < |records| ensures RecordLies(log, records, ends, i) {
      RecordLiesAt(records, i);
    }
  }

  lemma LogEndsAt(records: seq<Record>)
    ensures RecordEnds(records)[0] == 0 && RecordEnds(records)[|records|] == |Image(records)|
  {
    assert records[..0] == [] && records[..|records|] == records;
  }

  lemma RecordLiesAt(records: seq<Record>, i: nat)
    requires i < |records|
    ensures RecordLies(Image(records), records, RecordEnds(records), i)
  {
    ImageOneMore(records, i);
    ImageIsPrefix(records, i + 1);
    SliceOfPrefix(Image(records), Image(records[..i]), Fragments(|Image(records[..i])| % 32768, records[i], true));
  }

  lemma SliceOfPrefix(s: seq<byte>, a: seq<byte>, b: seq<byte>)
    requires a + b <= s
    ensures s[|a|..|a + b|] == b
  {
    assert s[|a|..|a + b|] == (a + b)[|a|..];
  }

  /** How many records lie wholly in the first `n` bytes, given where they end. */
  function WholeRecords(ends: seq<nat>, n: nat): (k: nat)
    requires 0 < |ends| && ends[0] == 0
    ensures k < |ends| && ends[k] <= n
    ensures k + 1 < |ends| ==> n < ends[k + 1]
  {
    WholeUpTo(ends, n, |ends| - 1)
  }

  function WholeUpTo(ends: seq<nat>, n: nat, k: nat): (k': nat)
    requires k < |ends| && ends[0] == 0 && (k + 1 < |ends| ==> n < ends[k + 1])
    ensures k' < |ends| && ends[k'] <= n
    ensures k' + 1 < |ends| ==> n < ends[k' + 1]
  {
    if ends[k] <= n then k else WholeUpTo(ends, n, k - 1)
  }

  lemma {:induction false} EndsGrow(ends: seq<nat>, i: nat, j: nat)
    requires i <= j < |ends| && forall k {:trigger ends[k]} :: 0 <= k < |ends| - 1 ==> ends[k] < ends[k + 1]
    ensures ends[i] <= ends[j]
    decreases j - i
  {
    if i < j {
      EndsGrow(ends, i, j - 1);
    }
  }

  /** `i` records are behind the reader; whether one more is whole says whether all the whole ones are. */
  lemma WholeRecordsFrom(log: seq<byte>, records: seq<Record>, ends: seq<nat>, n: nat, i: nat)
    requires Laid(log, records, ends) && i <= |records| && ends[i] <= n
    ensures i <= WholeRecords(ends, n)
    ensures i < WholeRecords(ends, n) <==> i < |records| && ends[i + 1] <= n
  {
    var k := WholeRecords(ends, n);
    forall j {:trigger ends[j]} | 0 <= j < |records| ensures ends[j] < ends[j + 1] {
      assert records[j] == records[j];
    }
    if k < i {
      EndsGrow(ends, k + 1, i);
    } else if i < k {
      EndsGrow(ends, i + 1, k);
    }
  }

  /** The reader stands behind `i` records of the first `n` bytes of a log. */
  ghost predicate Behind(st: State, log: seq<byte>, ends: seq<nat>, n: nat, i: nat, block: int, off: nat) {
    && i < |ends| && ends[i] <= n <= |log|
    && At(st, off) && st.Stream() == log[ends[i]..n]
    && ends[i] == 32768 * block + off
  }

  lemma CutBehind(log: seq<byte>, from: nat, to: nat, n: nat)
    requires from <= to <= |log| && from <= n <= |log|
    ensures n < to ==> log[from..n] <= log[from..to]
    ensures n >= to ==> log[from..to] <= log[from..n] && log[from..n][to - from..] == log[to..n]
  {
  }

  /** What the file holds behind `i` records: the next record, or a first part of it. */
  lemma NextInLog(log: seq<byte>, records: seq<Record>, ends: seq<nat>, n: nat, i: nat, block: int, off: nat)
    requires Laid(log, records, ends) && i < |records| && ends[i] <= n <= |log|
    requires off <= BLOCK && ends[i] == 32768 * block + off
    ensures var f, s := Fragments(off, records[i], true), log[ends[i]..n];
            && ends[i + 1] == ends[i] + |f|
            && if n < ends[i + 1] then s <= f && |s| < |f|
               else ends[i + 1] <= |log| && f <= s && s[|f|..] == log[ends[i + 1]..n]
  {
    SameOffset(ends[i], block, off, records[i]);
    CutBehind(log, ends[i], ends[i + 1], n);
  }

  lemma ReadNext(st: State, log: seq<byte>, records: seq<Record>, ends: seq<nat>, n: nat, i: nat, checksum: bool,
      block: int, off: nat)
    returns (next: State, block': int, off': nat)
    requires Laid(log, records, ends) && i < |records| && Behind(st, log, ends, n, i, block, off) && ends[i + 1] <= n
    ensures Behind(next, log, ends, n, i + 1, block', off')
    ensures var more := ReadAll(next, checksum); ReadAll(st, checksum) == Replay([records[i]] + more.records,
            more.reports)
  {
    NextInLog(log, records, ends, n, i, block, off);
    ReadWholeRecord(st, off, records[i], None, checksum);
    next := NextRecord(st, None, checksum).next;
    assert [] + ReadAll(next, checksum).reports == ReadAll(next, checksum).reports;
    block' := EndOffsetOfLength(block, off, records[i], true);
    off' := EndOffset(off, records[i]);
  }

  lemma ReadLast(st: State, log: seq<byte>, records: seq<Record>, ends: seq<nat>, n: nat, i: nat, checksum: bool,
      block: int, off: nat)
    requires Laid(log, records, ends) && i <= |records| && Behind(st, log, ends, n, i, block, off)
    requires i < |records| ==> n < ends[i + 1]
    ensures ReadAll(st, checksum) == Replay([], [])
  {
    if i == |records| {
      ReadAtEnd(st, off, checksum);
    } else {
      NextInLog(log, records, ends, n, i, block, off);
      ReadCutRecord(st, off, records[i], None, checksum);
    }
  }

  lemma {:induction false} ReadFrom(st: State, log: seq<byte>, records: seq<Record>, ends: seq<nat>, n: nat, i: nat,
      checksum: bool, block: int, off: nat)
    requires Laid(log, records, ends) && i <= |records| && Behind(st, log, ends, n, i, block, off)
    ensures i <= WholeRecords(ends, n)
    ensures ReadAll(st, checksum) == Replay(records[i..WholeRecords(ends, n)], [])
    decreases |records| - i
  {
    hide ReadAll, NextRecord, Fragments;
    var k := WholeRecords(ends, n);
    WholeRecordsFrom(log, records, ends, n, i);
    if i < k {
      var next, block', off' := ReadNext(st, log, records, ends, n, i, checksum, block, off);
      ReadFrom(next, log, records, ends, n, i + 1, checksum, block', off');
      assert records[i..k] == [records[i]] + records[i + 1..k];
    } else {
      ReadLast(st, log, records, ends, n, i, checksum, block, off);
    }
  }

  /** Any first part of a log reads back as the records wholly inside it, and nothing is reported. */
  lemma LogReadsBack(records: seq<Record>, n: nat, checksum: bool)
    requires n <= |Image(records)|
    ensures var whole := WholeRecords(RecordEnds(records), n);
            ReadAll(Start(Image(records)[..n]), checksum) == Replay(records[..whole], [])
  {
    var log, ends := Image(records), RecordEnds(records);
    ImageIsLaid(records);
    var st := Start(log[..n]);
    assert st.Stream() == log[0..n];
    ReadFrom(st, log, records, ends, n, 0, checksum, -1, BLOCK);
    assert records[0..WholeRecords(ends, n)] == records[..WholeRecords(ends, n)];
  }

  /** Writing a log, perhaps with two writers, losing all but its first `n` bytes, and reading what is left. */
  method WriteCutAndRead(records: seq<Record>, reopenAt: nat, n: nat, checksum: bool)
      returns (read: seq<Record>, reports: seq<Report>)
    requires reopenAt <= |records|
    ensures n <= |Image(records)| ==> reports == [] && read == records[..WholeRecords(RecordEnds(records), n)]
    ensures n >= |Image(records)| ==> reports == [] && read == records
  {
    var log := WriteLog(records, reopenAt);
    var file := if n <= |log| then log[..n] else log;
    read, reports := ReadLog(file, checksum);
    LogReadsBack(records, |file|, checksum);
    ImageIsLaid(records);
    WholeRecordsFrom(log, records, RecordEnds(records), |log|, |records|);
    assert records[..|records|] == records && log[..|log|] == log;
  }

  /**
   A fragment damaged within four consecutive bytes of its data is not returned: the whole
   buffer is dropped, and reported.
   */
  lemma DamageIsReported(st: State, kind: byte, before: seq<byte>, u: seq<byte>, v: seq<byte>, after: seq<byte>)
    requires |u| == |v| <= 4 && u != v && |before + u + after| < 0x1_0000
    requires Header(kind, before + u + after) + (before + v + after) <= st.buffer
    ensures ParseFragment(st, true) == Physical(BAD_RECORD, [], st.Dropped(), [Report(|st.buffer|, ChecksumMismatch)])
  {
    DamageShows(kind, before, u, v, after, st.buffer);
  }

  lemma DamageShows(kind: byte, before: seq<byte>, u: seq<byte>, v: seq<byte>, after: seq<byte>, buffer: seq<byte>)
    requires |u| == |v| <= 4 && u != v && |before + u + after| < 0x1_0000
    requires Header(kind, before + u + after) + (before + v + after) <= buffer
    ensures LengthOf(buffer) == |before + v + after| > 0 && !GoodChecksum(buffer)
  {
    hide Header, GoodChecksum;
    var written, found := before + u + after, before + v + after;
    FoundChecksum(kind, written, found, buffer);
    Crc32c.BurstIsDetected([kind] + before, u, v, after);
    assert [kind] + written == [kind] + before + u + after && [kind] + found == [kind] + before + v + after;
  }

  /** A buffer whose header was written for other data of the same length. */
  lemma FoundChecksum(kind: byte, written: seq<byte>, found: seq<byte>, buffer: seq<byte>)
    requires |written| == |found| < 0x1_0000 && Header(kind, written) + found <= buffer
    ensures LengthOf(buffer) == |found|
    ensures GoodChecksum(buffer) <==> Checksum(kind, written) == Checksum(kind, found)
  {
    HeadOfBuffer(Header(kind, written), found, kind, buffer);
    HeaderParts(kind, written, buffer);
  }

  lemma HeadOfBuffer(h: seq<byte>, data: seq<byte>, kind: byte, buffer: seq<byte>)
    requires |h| == HEADER && h[6] == kind && h + data <= buffer
    ensures h <= buffer && buffer[6..HEADER + |data|] == [kind] + data
    ensures buffer[HEADER..HEADER + |data|] == data
  {
    assert buffer[..HEADER + |data|] == h + data;
    assert buffer[..HEADER] == h;
  }
}
