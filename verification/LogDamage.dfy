/**
 Reading a log in which a fragment is damaged (db/log_reader.cc): what is read are records that
 were written, all but those that have a fragment in the damaged block from there on, and the
 damage is reported.
 */
module LogDamage {
  import opened Words
  import opened Options
  import opened LogFormat
  import opened LogReader
  import opened LogWriter
  import opened LogRoundTrip

  // ---- A log from any offset on

  /** The bytes of records written when `off` bytes of the block are used. */
  function Tail(off: nat, records: seq<Record>): seq<byte>
    requires off <= BLOCK
    decreases |records|
  {
    if records == [] then [] else Fragments(off, records[0], true) + Tail(EndOffset(off, records[0]), records[1..])
  }

  /** A log is that of its first records, and then the rest from where these end. */
  lemma {:induction false} ImageIsTail(records: seq<Record>, k: nat) returns (block: int, off: nat)
    requires k <= |records|
    ensures off <= BLOCK && |Image(records[..k])| == 32768 * block + off
    ensures Image(records) == Image(records[..k]) + Tail(off, records[k..])
    decreases |records| - k
  {
    hide Image, Fragments, Tail, EndOffset;
    block, off := WhereItEnds(records, k);
    if k == |records| {
      NothingBehind(records, off);
    } else {
      var data, done := records[k], Image(records[..k]);
      var block', off' := ImageIsTail(records, k + 1);
      ImageOneMore(records, k);
      SameOffset(|done|, block, off, data);
      var block2 := EndOffsetOfLength(block, off, data, true);
      SamePlace(block', off', block2, EndOffset(off, data));
      OneMoreBehind(off, records, k);
      SamePlaceSameTail(off', EndOffset(off, data), records[k + 1..]);
      Append3(done, Fragments(off, data, true), Tail(EndOffset(off, data), records[k + 1..]));
    }
  }

  lemma WhereItEnds(records: seq<Record>, k: nat) returns (block: int, off: nat)
    requires k <= |records|
    ensures off <= BLOCK && |Image(records[..k])| == 32768 * block + off
  {
    var n := |Image(records[..k])|;
    block, off := n / 32768, n % 32768;
  }

  lemma NothingBehind(records: seq<Record>, off: nat)
    requires off <= BLOCK
    ensures Image(records) == Image(records[..|records|]) + Tail(off, records[|records|..])
  {
    assert records[..|records|] == records;
    assert Tail(off, records[|records|..]) == [];
  }

  lemma OneMoreBehind(off: nat, records: seq<Record>, k: nat)
    requires off <= BLOCK && k < |records|
    ensures Tail(off, records[k..]) == Fragments(off, records[k], true)
              + Tail(EndOffset(off, records[k]), records[k + 1..])
  {
    assert records[k..][1..] == records[k + 1..];
  }

  /** The end of a block is the start of the next. */
  predicate IsSamePlace(off: nat, off': nat) {
    off == off' || (off == 0 && off' == BLOCK) || (off == BLOCK && off' == 0)
  }

  lemma SamePlace(block: int, off: nat, block': int, off': nat)
    requires off <= BLOCK && off' <= BLOCK && 32768 * block + off == 32768 * block' + off'
    ensures IsSamePlace(off, off')
  {
  }

  lemma NewBlock(data: Record, begin: bool)
    ensures Fragments(BLOCK, data, begin) == Fragments(0, data, begin) && EndOffset(BLOCK, data) == EndOffset(0, data)
  {
    assert ZeroBytes(0) == [];
    assert Chunk(BLOCK, data) == Chunk(0, data);
    assert Fragment(BLOCK, data, begin) == Fragment(0, data, begin);
  }

  lemma SamePlaceSameTail(off: nat, off': nat, records: seq<Record>)
    requires off <= BLOCK && off' <= BLOCK
    requires IsSamePlace(off, off')
    ensures Tail(off, records) == Tail(off', records)
  {
    if records != [] {
      NewBlock(records[0], true);
    }
  }

  // ---- Reading undamaged records

  /** Records that are all there are read, up to the end of the file. */
  lemma {:induction false} ReadTail(st: State, off: nat, records: seq<Record>, checksum: bool)
    requires At(st, off) && st.Stream() == Tail(off, records)
    ensures ReadAll(st, checksum) == Replay(records, [])
    decreases |records|
  {
    hide NextRecord, Fragments, EndOffset;
    if records == [] {
      ReadAtEnd(st, off, checksum);
    } else {
      AppendPrefix(Fragments(off, records[0], true), Tail(EndOffset(off, records[0]), records[1..]), st.Stream());
      ReadWholeRecord(st, off, records[0], None, checksum);
      var out := NextRecord(st, None, checksum);
      ReadTail(out.next, EndOffset(off, records[0]), records[1..], checksum);
      assert [records[0]] + records[1..] == records;
    }
  }

  /** The first records of a log are read, whatever comes behind them. */
  lemma {:induction false} ReadFirst(st: State, off: nat, records: seq<Record>, more: seq<byte>, checksum: bool)
      returns (st': State, off': nat)
    requires At(st, off) && st.Stream() == Tail(off, records) + more
    ensures At(st', off') && st'.Stream() == more && off' == EndOfAll(off, records)
    ensures ReadAll(st, checksum) == Joined(Replay(records, []), ReadAll(st', checksum))
    decreases |records|
  {
    hide NextRecord, Fragments, EndOffset;
    if records == [] {
      st', off' := st, off;
      assert [] + more == more;
      NothingJoined(ReadAll(st, checksum));
    } else {
      var f, rest := Fragments(off, records[0], true), Tail(EndOffset(off, records[0]), records[1..]);
      Append3(f, rest, more);
      AppendPrefix(f, rest + more, st.Stream());
      ReadWholeRecord(st, off, records[0], None, checksum);
      var out := NextRecord(st, None, checksum);
      st', off' := ReadFirst(out.next, EndOffset(off, records[0]), records[1..], more, checksum);
      OneMoreJoined(records, ReadAll(st', checksum));
    }
  }

  /** Where records leave the writer in its block. */
  function EndOfAll(off: nat, records: seq<Record>): (e: nat)
    requires off <= BLOCK
    ensures e <= BLOCK
    decreases |records|
  {
    if records == [] then off else EndOfAll(EndOffset(off, records[0]), records[1..])
  }

  lemma NothingJoined(all: Replay)
    ensures Joined(Replay([], []), all) == all
  {
    assert [] + all.records == all.records && [] + all.reports == all.reports;
  }

  lemma OneMoreJoined(records: seq<Record>, all: Replay)
    requires records != []
    ensures var more := Joined(Replay(records[1..], []), all);
            Joined(Replay(records, []), all) == Replay([records[0]] + more.records, [] + more.reports)
  {
    assert records + all.records == [records[0]] + (records[1..] + all.records);
  }

  // ---- A damaged fragment

  /** Data as found differs from data as written, but only within four consecutive bytes. */
  ghost predicate Differs(written: seq<byte>, found: seq<byte>) {
    exists before: seq<byte>, u: seq<byte>, v: seq<byte>, after: seq<byte> ::
      IsBurst(written, found, before, u, v, after)
  }

  ghost predicate IsBurst(written: seq<byte>, found: seq<byte>, before: seq<byte>, u: seq<byte>, v: seq<byte>,
      after: seq<byte>)
  {
    |u| == |v| <= 4 && u != v && written == before + u + after && found == before + v + after
  }

  /** The first fragment of what is left of a record, as found. */
  function FoundFragment(off: nat, data: seq<byte>, begin: bool, found: seq<byte>): seq<byte>
    requires off <= BLOCK
  {
    var n := Chunk(off, data);
    ZeroBytes(Padding(off)) + (Header(KindOf(begin, n == |data|), data[..n]) + found)
  }

  /** The fragments of what is left of a record, but that the data of fragment `k` is damaged. */
  ghost predicate IsDamaged(s: seq<byte>, off: nat, data: seq<byte>, begin: bool, k: nat)
    requires off <= BLOCK
    decreases k
  {
    var n := Chunk(off, data);
    var f := |Fragment(off, data, begin)|;
    && f <= |s|
    && if k == 0 then
         && Differs(data[..n], s[Padding(off) + HEADER..f])
         && s[..f] == FoundFragment(off, data, begin, s[Padding(off) + HEADER..f])
         && s[f..] == if n == |data| then [] else Fragments(BLOCK, data[n..], false)
       else
         n < |data| && s[..f] == Fragment(off, data, begin) && IsDamaged(s[f..], BLOCK, data[n..], false, k - 1)
  }

  /** The reader has dropped the rest of a block, of which `e` bytes were used before `more`. */
  predicate Resumed(d: State, e: nat, more: seq<byte>) {
    && e <= BLOCK && d.buffer == []
    && if d.eof then d.rest == [] && |more| < BLOCK - e else |more| >= BLOCK - e && d.rest == more[BLOCK - e..]
  }

  lemma DropRest(st: State, h: nat, body: seq<byte>, more: seq<byte>)
    requires At(st, h) && h + |body| <= BLOCK && st.Stream() == body + more
    ensures body <= st.buffer && Resumed(st.Dropped(), h + |body|, more)
  {
    AppendPrefix(body, more, st.Stream());
    TakeBody(st, h, body);
    if !st.eof {
      assert st.rest == st.Stream()[BLOCK - h..] == more[BLOCK - h - |body|..];
    }
  }

  lemma ReadDamagedFragment(st: State, off: nat, data: seq<byte>, begin: bool, found: seq<byte>, more: seq<byte>)
    requires At(st, off) && Differs(data[..Chunk(off, data)], found)
    requires st.Stream() == FoundFragment(off, data, begin, found) + more
    ensures var p := NextPhysical(st, true);
            && p.kind == BAD_RECORD && p.data == [] && p.reports != []
            && Resumed(p.next, HeaderOffset(off) + HEADER + Chunk(off, data), more)
  {
    hide Header, ParseFragment, Resumed, KindOf;
    var n, pad := Chunk(off, data), Padding(off);
    var header := Header(KindOf(begin, n == |data|), data[..n]);
    var before: seq<byte>, u: seq<byte>, v: seq<byte>, after: seq<byte> :|
      IsBurst(data[..n], found, before, u, v, after);
    SettledSkipsPadding(st, off, true);
    var st' := Settled(st, off);
    Append3(ZeroBytes(pad), header + found, more);
    assert st'.Stream() == header + found + more;
    DropRest(st', HeaderOffset(off), header + found, more);
    DamageIsReported(st', KindOf(begin, n == |data|), before, u, v, after);
  }

  /** A fragment that cannot be used ends the record that is being put together. */
  lemma BadFragment(st: State, scratch: Option<Record>) returns (reports: seq<Report>)
    requires NextPhysical(st, true).kind == BAD_RECORD && NextPhysical(st, true).reports != []
    ensures reports != [] && NextRecord(st, scratch, true) == NextRecord(NextPhysical(st, true).next, None,
              true).After(reports)
  {
    var p := NextPhysical(st, true);
    var turn := Handle(p.kind, p.data, scratch);
    reports := p.reports + turn.reports;
  }

  lemma SplitAt(s: seq<byte>, a: seq<byte>, more: seq<byte>)
    requires a <= s
    ensures s + more == a + (s[|a|..] + more) && a <= s + more && (s + more)[|a|..] == s[|a|..] + more
  {
    assert s == a + s[|a|..];
  }

  /**
   A record with a damaged fragment is not found: what was put together is given up, and reading
   goes on behind the block with the damage, perhaps with fragments `left` of the same record.
   */
  lemma {:induction false} ReadDamaged(st: State, off: nat, data: seq<byte>, scratch: Option<Record>, k: nat,
      s: seq<byte>, more: seq<byte>)
      returns (d: State, reports: seq<Report>, left: Option<Record>)
    requires At(st, off) && st.Stream() == s + more && IsDamaged(s, off, data, scratch.None?, k)
    ensures NextRecord(st, scratch, true) == NextRecord(d, None, true).After(reports) && reports != []
    ensures if left.Some? then
              && Resumed(d, BLOCK, Fragments(BLOCK, left.value, false) + more)
              && EndOffset(BLOCK, left.value) == EndOffset(off, data)
            else Resumed(d, EndOffset(off, data), more)
    decreases k
  {
    hide NextRecord, NextPhysical, Resumed, Fragment, FoundFragment, Fragments, Differs;
    var n, begin := Chunk(off, data), scratch.None?;
    var f := |Fragment(off, data, begin)|;
    SplitAt(s, s[..f], more);
    if k == 0 {
      ReadDamagedFragment(st, off, data, begin, s[Padding(off) + HEADER..f], s[f..] + more);
      d := NextPhysical(st, true).next;
      reports := BadFragment(st, scratch);
      left := if n == |data| then None else Some(data[n..]);
      if n == |data| {
        assert [] + more == more;
      }
    } else {
      ReadWholeFragment(st, off, data, begin, true);
      var p := NextPhysical(st, true);
      OneMoreFragment(st, scratch, true, p);
      d, reports, left := ReadDamaged(p.next, BLOCK, data[n..], Some(Collected(scratch, data[..n])), k - 1, s[f..],
                                      more);
    }
  }

  // ---- Going on behind the damage

  lemma StrayFragment(st: State, checksum: bool) returns (reports: seq<Report>)
    requires NextPhysical(st, checksum).kind == MIDDLE || NextPhysical(st, checksum).kind == LAST
    ensures NextRecord(st, None, checksum) == NextRecord(NextPhysical(st, checksum).next, None,
              checksum).After(reports)
  {
    var p := NextPhysical(st, checksum);
    reports := p.reports + Handle(p.kind, p.data, None).reports;
  }

  /** Fragments of a record that has no start are passed over. */
  lemma {:induction false} SkipRest(st: State, off: nat, data: seq<byte>, more: seq<byte>, checksum: bool)
      returns (st': State, reports: seq<Report>)
    requires At(st, off) && st.Stream() == Fragments(off, data, false) + more
    ensures At(st', EndOffset(off, data)) && st'.Stream() == more
    ensures NextRecord(st, None, checksum) == NextRecord(st', None, checksum).After(reports)
    decreases |data|, HeaderOffset(off)
  {
    hide NextRecord, NextPhysical, Fragment, At;
    var n, f := Chunk(off, data), Fragment(off, data, false);
    if n < |data| {
      Append3(f, Fragments(BLOCK, data[n..], false), more);
    }
    var rest := if n == |data| then more else Fragments(BLOCK, data[n..], false) + more;
    AppendPrefix(f, rest, st.Stream());
    ReadWholeFragment(st, off, data, false, checksum);
    var p := NextPhysical(st, checksum);
    var first := StrayFragment(st, checksum);
    assert p.next.Stream() == rest;
    if n == |data| {
      st', reports := p.next, first;
    } else {
      var later;
      st', later := SkipRest(p.next, BLOCK, data[n..], more, checksum);
      AfterTwice(NextRecord(st', None, checksum), first, later);
      reports := first + later;
    }
  }

  /** Where the header of the next record goes, from the beginning of the block on. */
  function NextHeader(off: nat, records: seq<Record>, i: nat): nat
    requires off <= BLOCK && i <= |records|
  {
    off + |Tail(off, records[..i])| + Padding(EndOfAll(off, records[..i]))
  }

  /** A record that is one fragment in this block. */
  lemma OneFragmentRecord(off: nat, data: seq<byte>)
    requires BLOCK - off >= HEADER && Chunk(off, data) == |data|
    ensures |Fragments(off, data, true)| == HEADER + |data| && EndOffset(off, data) == off + HEADER + |data|
  {
  }

  lemma NextHeaderOfRest(off: nat, records: seq<Record>, i: nat)
    requires BLOCK - off >= HEADER && 0 < i <= |records| && Chunk(off, records[0]) == |records[0]|
    ensures NextHeader(off, records, i) == NextHeader(EndOffset(off, records[0]), records[1..], i - 1)
  {
    hide Fragments, EndOffset, Chunk, Padding;
    OneFragmentRecord(off, records[0]);
    assert records[..i] != [] && records[..i][0] == records[0] && records[..i][1..] == records[1..][..i - 1];
  }

  lemma CutFragments(off: nat, data: seq<byte>, more: seq<byte>)
    requires off <= BLOCK && Chunk(off, data) < |data|
    ensures var f, g := Fragment(off, data, true), Fragments(BLOCK, data[Chunk(off, data)..], false);
            && |f| == Padding(off) + BLOCK - HeaderOffset(off)
            && (Fragments(off, data, true) + more)[|f|..] == g + more && |Fragments(off, data, true)| == |f| + |g|
            && EndOffset(off, data) == EndOffset(BLOCK, data[Chunk(off, data)..])
  {
    hide Fragment;
    var f, g := Fragment(off, data, true), Fragments(BLOCK, data[Chunk(off, data)..], false);
    Append3(f, g, more);
    assert (f + (g + more))[|f|..] == g + more;
  }

  lemma CutPadding(off: nat, data: seq<byte>, more: seq<byte>)
    requires off <= BLOCK && BLOCK - off < HEADER
    ensures |Fragments(off, data, true)| >= BLOCK - off
    ensures (Fragments(off, data, true) + more)[BLOCK - off..] == Fragments(BLOCK, data, true) + more
    ensures EndOffset(off, data) == EndOffset(BLOCK, data)
  {
    hide Fragment, Body;
    FragmentWithoutPadding(off, data);
    var f, f', n := Fragment(off, data, true), Fragment(BLOCK, data, true), Chunk(off, data);
    assert Chunk(BLOCK, data) == n;
    if n == |data| {
      DropFront(f, more, BLOCK - off);
    } else {
      var g := Fragments(BLOCK, data[n..], false);
      Append3(f, g, more);
      Append3(f', g, more);
      DropFront(f, g + more, BLOCK - off);
    }
  }

  lemma DropFront(a: seq<byte>, b: seq<byte>, n: nat)
    requires n <= |a|
    ensures (a + b)[n..] == a[n..] + b
  {
  }

  lemma FragmentWithoutPadding(off: nat, data: seq<byte>)
    requires off <= BLOCK && BLOCK - off < HEADER
    ensures |Fragment(off, data, true)| >= BLOCK - off
    ensures Fragment(off, data, true)[BLOCK - off..] == Fragment(BLOCK, data, true)
  {
    hide Fragment, Header;
    FragmentIsPaddedBody(off, data, true);
    FragmentIsPaddedBody(BLOCK, data, true);
    assert Fragment(BLOCK, data, true)[0..] == Fragment(BLOCK, data, true);
    assert Chunk(off, data) == Chunk(BLOCK, data);
  }

  /** The first `b` records have their first header in the block that is dropped, and the next has not. */
  ghost predicate HeadersInBlock(e: nat, records: seq<Record>, b: nat)
    requires e <= BLOCK
  {
    && b <= |records|
    && (forall i :: 0 <= i < b ==> NextHeader(e, records, i) < BLOCK)
    && (b < |records| ==> NextHeader(e, records, b) >= BLOCK)
  }

  lemma OneMoreHeader(e: nat, records: seq<Record>, b: nat)
    requires BLOCK - e >= HEADER && records != [] && Chunk(e, records[0]) == |records[0]|
    requires HeadersInBlock(EndOffset(e, records[0]), records[1..], b)
    ensures HeadersInBlock(e, records, b + 1)
  {
    hide NextHeader, EndOffset, Chunk;
    forall i | 0 <= i < b + 1
      ensures NextHeader(e, records, i) < BLOCK
    {
      if i == 0 {
        FirstHeader(e, records);
      } else {
        NextHeaderOfRest(e, records, i);
      }
    }
    if b + 1 < |records| {
      NextHeaderOfRest(e, records, b + 1);
    }
  }

  lemma FirstHeader(e: nat, records: seq<Record>)
    requires e <= BLOCK
    ensures NextHeader(e, records, 0) == e + Padding(e)
  {
    assert records[..0] == [];
  }

  lemma CutRecord(e: nat, records: seq<Record>)
    requires BLOCK - e >= HEADER && records != [] && Chunk(e, records[0]) < |records[0]|
    ensures HeadersInBlock(e, records, 1) && |Tail(e, records)| >= BLOCK - e
    ensures var left := records[0][Chunk(e, records[0])..];
            Tail(e, records)[BLOCK - e..] == Fragments(BLOCK, left, false) + Tail(EndOffset(BLOCK, left), records[1..])
  {
    hide Fragments, EndOffset;
    FirstHeader(e, records);
    CutFragments(e, records[0], Tail(EndOffset(e, records[0]), records[1..]));
    if |records| > 1 {
      assert records[..1][0] == records[0] && records[..1][1..] == [];
    }
  }

  /** What is left of a log when the rest of the block is dropped. */
  lemma {:induction false} CutTail(e: nat, records: seq<Record>) returns (b: nat, left: Option<Record>)
    requires e <= BLOCK
    ensures b <= |records| && HeadersInBlock(e, records, b)
    ensures if |Tail(e, records)| < BLOCK - e then b == |records|
            else Tail(e, records)[BLOCK - e..] ==
                 if left.Some? then
                   Fragments(BLOCK, left.value, false) + Tail(EndOffset(BLOCK, left.value), records[b..])
                 else Tail(BLOCK, records[b..])
    decreases |records|
  {
    hide Fragments, EndOffset, Chunk, HeadersInBlock;
    b, left := 0, None;
    if records == [] || BLOCK - e < HEADER {
      CutAtOnce(e, records);
    } else if Chunk(e, records[0]) == |records[0]| {
      OneFragmentRecord(e, records[0]);
      b, left := CutTail(EndOffset(e, records[0]), records[1..]);
      OneMoreHeader(e, records, b);
      b := b + 1;
      assert records[1..][b - 1..] == records[b..];
      var f, more := Fragments(e, records[0], true), Tail(EndOffset(e, records[0]), records[1..]);
      if |Tail(e, records)| >= BLOCK - e {
        assert (f + more)[BLOCK - e..] == more[BLOCK - EndOffset(e, records[0])..];
      }
    } else {
      CutRecord(e, records);
      b, left := 1, Some(records[0][Chunk(e, records[0])..]);
    }
  }

  lemma CutAtOnce(e: nat, records: seq<Record>)
    requires e <= BLOCK && (records == [] || BLOCK - e < HEADER)
    ensures HeadersInBlock(e, records, 0)
    ensures if |Tail(e, records)| < BLOCK - e then records == []
            else Tail(e, records)[BLOCK - e..] == Tail(BLOCK, records)
  {
    hide Fragments, EndOffset;
    FirstHeader(e, records);
    if records != [] {
      CutPadding(e, records[0], Tail(EndOffset(e, records[0]), records[1..]));
    }
  }

  lemma SameReplay(a: State, b: State, reports: seq<Report>, checksum: bool)
    requires NextRecord(a, None, checksum) == NextRecord(b, None, checksum).After(reports)
    ensures ReadAll(a, checksum) == Replay(ReadAll(b, checksum).records, reports + ReadAll(b, checksum).reports)
  {
    var out := NextRecord(b, None, checksum);
    if out.found {
      Append3(reports, out.reports, ReadAll(out.next, checksum).reports);
    }
  }

  /** Behind the damage all the records are read that have no fragment in the block. */
  lemma ReadBehind(d: State, e: nat, records: seq<Record>) returns (b: nat)
    requires e <= BLOCK && Resumed(d, e, Tail(e, records))
    ensures b <= |records| && HeadersInBlock(e, records, b) && ReadAll(d, true).records == records[b..]
  {
    hide ReadAll, NextRecord, Tail, Fragments, EndOffset, HeadersInBlock;
    var left;
    b, left := CutTail(e, records);
    if d.eof {
      NothingLeft(d);
    } else {
      assert d.Stream() == Tail(e, records)[BLOCK - e..];
      if left.None? {
        ReadTail(d, BLOCK, records[b..], true);
      } else {
        var off := EndOffset(BLOCK, left.value);
        var st', reports := SkipRest(d, BLOCK, left.value, Tail(off, records[b..]), true);
        ReadTail(st', off, records[b..], true);
        SameReplay(d, st', reports, true);
      }
    }
  }

  lemma NothingLeft(d: State)
    requires d.eof && d.buffer == [] && d.rest == []
    ensures ReadAll(d, true) == Replay([], [])
  {
  }

  /** A log of which one record is damaged, from its first fragment on. */
  lemma ReadWithDamage(st: State, off: nat, records: seq<Record>, k: nat, s: seq<byte>) returns (b: nat)
    requires At(st, off) && records != [] && IsDamaged(s, off, records[0], true, k)
    requires st.Stream() == s + Tail(EndOffset(off, records[0]), records[1..])
    ensures b <= |records[1..]| && ReadAll(st, true).records == records[1..][b..] && ReadAll(st, true).reports != []
    ensures b == 0 || HeadersInBlock(EndOffset(off, records[0]), records[1..], b)
  {
    hide ReadAll, NextRecord, NextHeader, Tail, Fragments, EndOffset, IsDamaged;
    var e, more := EndOffset(off, records[0]), Tail(EndOffset(off, records[0]), records[1..]);
    var d, reports, left := ReadDamaged(st, off, records[0], None, k, s, more);
    SameReplay(st, d, reports, true);
    if left.None? {
      b := ReadBehind(d, e, records[1..]);
    } else {
      b := 0;
      assert !d.eof;
      assert d.Stream() == Fragments(BLOCK, left.value, false) + more;
      var st', later := SkipRest(d, BLOCK, left.value, more, true);
      ReadTail(st', e, records[1..], true);
      SameReplay(d, st', later, true);
      assert records[1..][0..] == records[1..];
    }
  }

  // ---- A log with one damaged fragment

  /** The block that holds the first header of record `i`. */
  function HeaderBlock(records: seq<Record>, i: nat): nat
    requires i <= |records|
  {
    var n := |Image(records[..i])|;
    (n + Padding(n % 32768)) / 32768
  }

  /** The block that holds the last byte of record `i`. */
  function EndBlock(records: seq<Record>, i: nat): int
    requires i < |records|
  {
    (|Image(records[..i + 1])| - 1) / 32768
  }

  lemma DamagedAtNewBlock(s: seq<byte>, off: nat, off': nat, data: seq<byte>, k: nat)
    requires off <= BLOCK && off' <= BLOCK && IsSamePlace(off, off') && IsDamaged(s, off, data, true, k)
    ensures IsDamaged(s, off', data, true, k)
  {
    hide Differs, Fragments, Header;
    if off != off' {
      assert Chunk(BLOCK, data) == Chunk(0, data) && Padding(0) == Padding(BLOCK);
      assert Fragment(BLOCK, data, true) == Fragment(0, data, true);
    }
  }

  /** Where the writer stands in its block, told by the length of the log. */
  lemma {:induction false} EndOfAllOfLength(block: int, off: nat, records: seq<Record>) returns (block': int)
    requires off <= BLOCK
    ensures 32768 * block + off + |Tail(off, records)| == 32768 * block' + EndOfAll(off, records)
    decreases |records|
  {
    hide Fragments, EndOffset;
    block' := block;
    if records != [] {
      block' := EndOffsetOfLength(block, off, records[0], true);
      block' := EndOfAllOfLength(block', EndOffset(off, records[0]), records[1..]);
    }
  }

  /** A log is written from the end of a block that is not there. */
  lemma ImageFromStart(records: seq<Record>)
    ensures Image(records) == Tail(BLOCK, records)
    ensures IsSamePlace(|Image(records)| % 32768, EndOfAll(BLOCK, records))
  {
    hide Tail, EndOfAll, Fragments;
    var block, off := ImageIsTail(records, 0);
    assert records[..0] == [] && records[0..] == records;
    assert Image([]) == [];
    SamePlaceSameTail(off, BLOCK, records);
    var block' := EndOfAllOfLength(-1, BLOCK, records);
    var n := |Image(records)|;
    SamePlace(n / 32768, n % 32768, block', EndOfAll(BLOCK, records));
  }

  lemma TailFrom(records: seq<Record>, k: nat, off: nat)
    requires k <= |records| && off <= BLOCK && IsSamePlace(|Image(records[..k])| % 32768, off)
    ensures |Image(records[..k])| <= |Image(records)|
    ensures Image(records)[|Image(records[..k])|..] == Tail(off, records[k..])
  {
    hide Image, Tail;
    var block, off' := ImageIsTail(records, k);
    var n := |Image(records[..k])|;
    SamePlace(block, off', n / 32768, n % 32768);
    SamePlaceSameTail(off', off, records[k..]);
  }

  /** The log of records, with `s` in place of what was written for record `j`. */
  function WithRecord(records: seq<Record>, j: nat, s: seq<byte>): seq<byte>
    requires j < |records|
  {
    ImageIsPrefix(records, j + 1);
    Image(records[..j]) + s + Image(records)[|Image(records[..j + 1])|..]
  }

  /** The log in the form in which it is read. */
  lemma ReadInto(records: seq<Record>, j: nat, k: nat, s: seq<byte>) returns (st: State, off: nat)
    requires j < |records| && IsDamaged(s, |Image(records[..j])| % 32768, records[j], true, k)
    ensures off <= BLOCK && At(st, off) && IsDamaged(s, off, records[j], true, k)
    ensures IsSamePlace(|Image(records[..j])| % 32768, off)
            && IsSamePlace(|Image(records[..j + 1])| % 32768, EndOffset(off, records[j]))
    ensures st.Stream() == s + Tail(EndOffset(off, records[j]), records[j + 1..])
    ensures ReadAll(Start(WithRecord(records, j, s)), true) == Joined(Replay(records[..j], []), ReadAll(st, true))
  {
    hide Image, Tail, IsDamaged, Fragments, ReadAll, EndOffset, EndOfAll;
    var file, first := WithRecord(records, j, s), records[..j];
    ImageFromStart(first);
    off := EndOfAll(BLOCK, first);
    DamagedAtNewBlock(s, |Image(first)| % 32768, off, records[j], k);
    EndOfOneMore(records, j, off);
    TailFrom(records, j + 1, EndOffset(off, records[j]));
    var more := s + Tail(EndOffset(off, records[j]), records[j + 1..]);
    Append3(Image(first), s, Tail(EndOffset(off, records[j]), records[j + 1..]));
    assert Start(file).Stream() == Tail(BLOCK, first) + more;
    var off';
    st, off' := ReadFirst(Start(file), BLOCK, first, more, true);
  }

  lemma EndOfOneMore(records: seq<Record>, j: nat, off: nat)
    requires j < |records| && off <= BLOCK && IsSamePlace(|Image(records[..j])| % 32768, off)
    ensures IsSamePlace(|Image(records[..j + 1])| % 32768, EndOffset(off, records[j]))
  {
    hide Image, Fragments, EndOffset;
    var n, m := |Image(records[..j])|, |Image(records[..j + 1])|;
    ImageOneMore(records, j);
    var block := if off == BLOCK then n / 32768 - 1 else n / 32768;
    assert n == 32768 * block + off;
    SameOffset(n, block, off, records[j]);
    var block' := EndOffsetOfLength(block, off, records[j], true);
    SamePlace(m / 32768, m % 32768, block', EndOffset(off, records[j]));
  }

  /** Blocks are counted in the log as they are from where a record ends. */
  lemma BlockOfHeader(records: seq<Record>, j: nat, i: nat, e: nat)
    requires j + 1 <= i <= |records| && HEADER <= e <= BLOCK && IsSamePlace(|Image(records[..j + 1])| % 32768, e)
    ensures NextHeader(e, records[j + 1..], i - j - 1) < BLOCK <==> HeaderBlock(records, i) == EndBlock(records, j)
    ensures HeaderBlock(records, i) >= EndBlock(records, j)
  {
    hide Image, Tail, EndOfAll;
    var m, n := |Image(records[..j + 1])|, |Image(records[..i])|;
    assert records[..i][..j + 1] == records[..j + 1] && records[..i][j + 1..] == records[j + 1..][..i - j - 1];
    TailFrom(records[..i], j + 1, e);
    var more := records[j + 1..][..i - j - 1];
    assert n == m + |Tail(e, more)|;
    var block := EndBlock(records, j);
    assert m == 32768 * block + e;
    var block' := EndOfAllOfLength(block, e, more);
    SamePlace(n / 32768, n % 32768, block', EndOfAll(e, more));
    assert Padding(n % 32768) == Padding(EndOfAll(e, more));
    assert n + Padding(n % 32768) == 32768 * block + NextHeader(e, records[j + 1..], i - j - 1);
  }

  lemma EndIsPositive(off: nat, data: seq<byte>)
    requires off <= BLOCK
    ensures EndOffset(off, data) >= HEADER
    decreases |data|, HeaderOffset(off)
  {
    if Chunk(off, data) < |data| {
      EndIsPositive(BLOCK, data[Chunk(off, data)..]);
    }
  }

  /**
   When one fragment of a log, number `k` of record `j`, is damaged within four bytes of its data,
   something is reported and only records that were written are read: all but record `j` and
   those that begin in the block where it ends.
   */
  lemma DamagedLogReads(records: seq<Record>, j: nat, k: nat, s: seq<byte>) returns (b: nat)
    requires j < |records| && IsDamaged(s, |Image(records[..j])| % 32768, records[j], true, k)
    ensures j < b <= |records|
    ensures var all := ReadAll(Start(WithRecord(records, j, s)), true);
            all.records == records[..j] + records[b..] && all.reports != []
    ensures forall i :: j < i < b ==> HeaderBlock(records, i) == EndBlock(records, j)
  {
    hide Image, Tail, IsDamaged, Fragments, ReadAll, EndOffset, EndOfAll, At, IsSamePlace, HeaderBlock, EndBlock,
        NextHeader, WithRecord;
    var st, off := ReadInto(records, j, k, s);
    var e := EndOffset(off, records[j]);
    EndIsPositive(off, records[j]);
    assert records[j..][0] == records[j] && records[j..][1..] == records[j + 1..];
    b := ReadWithDamage(st, off, records[j..], k, s);
    forall i | j < i < j + 1 + b
      ensures HeaderBlock(records, i) == EndBlock(records, j)
    {
      BlockOfHeader(records, j, i, e);
    }
    assert records[j + 1..][b..] == records[j + 1 + b..];
    b := j + 1 + b;
  }
}
