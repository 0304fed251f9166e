/**
 Batches of updates (db/write_batch.cc): a header with a sequence number and a count, and
 then the updates, which are both what the log stores and what is applied to the memtable.
 Strings shorter than 2^32 bytes, as their length prefix demands.
 */
module WriteBatch {
  import opened Options
  import opened Words
  import opened Coding

  const HEADER: nat := 12
  const DELETION: byte := 0
  const VALUE: byte := 1

  type Text = s: seq<byte> | |s| < 0x1_0000_0000 witness []

  datatype Update = Put(key: Text, value: Text) | Delete(key: Text)

  datatype Status = Fine | Corruption(msg: string)

  // ---- The format

  function Record(u: Update): (s: seq<byte>)
    ensures s != []
  {
    match u
    case Put(key, value) => [VALUE] + EncodeString(key) + EncodeString(value)
    case Delete(key) => [DELETION] + EncodeString(key)
  }

  function Records(us: seq<Update>): seq<byte> {
    if us == [] then [] else Record(us[0]) + Records(us[1..])
  }

  /** The first update of a batch that holds some bytes beyond the header. */
  datatype Scanned = Got(update: Update, rest: seq<byte>) | Bad(msg: string)

  function ParsePut(s: seq<byte>): Scanned {
    var key := ParseString(s);
    if key.None? then Bad("bad WriteBatch Put") else
      var value := ParseString(key.value.rest);
      if value.None? then Bad("bad WriteBatch Put") else
        StringsAreShort(s);
        StringsAreShort(key.value.rest);
        Got(Put(key.value.value, value.value.value), value.value.rest)
  }

  function ParseDelete(s: seq<byte>): Scanned {
    var key := ParseString(s);
    if key.None? then Bad("bad WriteBatch Delete") else StringsAreShort(s); Got(Delete(key.value.value), key.value.rest)
  }

  function ParseUpdate(s: seq<byte>): (r: Scanned)
    requires s != []
    ensures r.Got? ==> |r.rest| < |s|
  {
    ParsersConsume(s[1..]);
    if s[0] == VALUE then
      (if ParseString(s[1..]).Some? then ParsersConsume(ParseString(s[1..]).value.rest); ParsePut(s[1..])
        else ParsePut(s[1..]))
    else if s[0] == DELETION then ParseDelete(s[1..])
    else Bad("unknown WriteBatch tag")
  }

  lemma StringsAreShort(s: seq<byte>)
    ensures ParseString(s).Some? ==> |ParseString(s).value.value| < 0x1_0000_0000
  {
  }

  /** The updates up to the end, or up to the first that cannot be read. */
  datatype Contents = Contents(updates: seq<Update>, status: Status)

  function Scan(s: seq<byte>): Contents
    decreases |s|
  {
    if s == [] then Contents([], Fine) else
      match ParseUpdate(s)
      case Bad(msg) => Contents([], Corruption(msg))
      case Got(u, rest) => var more := Scan(rest); Contents([u] + more.updates, more.status)
  }

  // ---- What is written is what is read

  lemma UpdateRoundTrip(u: Update, rest: seq<byte>)
    ensures ParseUpdate(Record(u) + rest) == Got(u, rest)
  {
    hide ParseString, EncodeString;
    var s := Record(u) + rest;
    match u
    case Put(key, value) =>
      Append3([VALUE], EncodeString(key), EncodeString(value));
      Append3([VALUE], EncodeString(key) + EncodeString(value), rest);
      Append3(EncodeString(key), EncodeString(value), rest);
      assert s[1..] == EncodeString(key) + (EncodeString(value) + rest);
      StringRoundTrip(key, EncodeString(value) + rest);
      StringRoundTrip(value, rest);
    case Delete(key) =>
      Append3([DELETION], EncodeString(key), rest);
      assert s[1..] == EncodeString(key) + rest;
      StringRoundTrip(key, rest);
  }

  /** Updates are read back in order, whatever follows, and then what follows is read. */
  lemma {:induction false} RecordsAreRead(us: seq<Update>, rest: seq<byte>)
    ensures Scan(Records(us) + rest) == Contents(us + Scan(rest).updates, Scan(rest).status)
    decreases |us|
  {
    hide Record, ParseUpdate;
    if us == [] {
      assert Records(us) + rest == rest && us + Scan(rest).updates == Scan(rest).updates;
    } else {
      var more := Records(us[1..]) + rest;
      Append3(Record(us[0]), Records(us[1..]), rest);
      UpdateRoundTrip(us[0], more);
      RecordsAreRead(us[1..], rest);
      assert us == [us[0]] + us[1..];
      Append3([us[0]], us[1..], Scan(rest).updates);
    }
  }

  /** An update of which the end is missing is not read. */
  lemma CutIsBad(u: Update, s: seq<byte>)
    requires s != [] && s < Record(u)
    ensures ParseUpdate(s).Bad?
  {
    hide ParseString, EncodeString;
    assert s[0] == Record(u)[0];
    match u
    case Put(key, value) =>
      CutPair(key, value, s);
    case Delete(key) =>
      assert s[1..] < EncodeString(key);
      CutString(key, s[1..]);
  }

  lemma CutPair(key: Text, value: Text, s: seq<byte>)
    requires s != [] && s < [VALUE] + EncodeString(key) + EncodeString(value)
    ensures ParseString(s[1..]).None? || ParseString(ParseString(s[1..]).value.rest).None?
  {
    hide ParseString, EncodeString;
    var t, k, v := s[1..], EncodeString(key), EncodeString(value);
    assert [VALUE] + k + v == [VALUE] + (k + v);
    assert t < k + v;
    if |t| < |k| {
      assert t == (k + v)[..|t|] == k[..|t|];
      CutString(key, t);
    } else {
      var rest := t[|k|..];
      assert t == k + rest && rest == (k + v)[|k|..][..|rest|] == v[..|rest|];
      StringRoundTrip(key, rest);
      CutString(value, rest);
    }
  }

  /** A batch cut off within an update hands over the updates before it, and is corrupt. */
  lemma CutBatchIsCorrupt(us: seq<Update>, u: Update, cut: seq<byte>)
    requires cut != [] && cut < Record(u)
    ensures Scan(Records(us) + cut).updates == us && Scan(Records(us) + cut).status.Corruption?
  {
    hide ParseUpdate, Record;
    CutIsBad(u, cut);
    RecordsAreRead(us, cut);
    assert us + [] == us;
  }

  /** So is one in which something else than a Put or a Delete comes up. */
  lemma UnknownTagIsCorrupt(us: seq<Update>, tag: byte, rest: seq<byte>)
    requires tag > 1
    ensures Scan(Records(us) + ([tag] + rest)) == Contents(us, Corruption("unknown WriteBatch tag"))
  {
    RecordsAreRead(us, [tag] + rest);
    assert us + [] == us;
  }

  lemma {:induction false} RecordsAppend(us: seq<Update>, vs: seq<Update>)
    ensures Records(us + vs) == Records(us) + Records(vs)
  {
    if us == [] {
      assert us + vs == vs;
    } else {
      assert (us + vs)[0] == us[0] && (us + vs)[1..] == us[1..] + vs;
      RecordsAppend(us[1..], vs);
      Append3(Record(us[0]), Records(us[1..]), Records(vs));
    }
  }

  // ---- Batches

  /** An int, which the count is read as. */
  function AsInt(count: uint32): int {
    if count < 0x8000_0000 then count else count - 0x1_0000_0000
  }

  ghost predicate Encodes(data: seq<byte>, count: uint32, us: seq<Update>) {
    data == Records(us) && count == |us|
  }

  /** Adding an update, and appending other updates, is doing so to what is encoded. */
  lemma EncodesMore(data: seq<byte>, count: uint32, us: seq<Update>, data': seq<byte>, count': uint32, vs: seq<Update>)
    requires Encodes(data, count, us) && Encodes(data', count', vs) && |us| + |vs| < 0x1_0000_0000
    ensures Encodes(data + data', (count + count') % 0x1_0000_0000, us + vs)
  {
    RecordsAppend(us, vs);
  }

  lemma EncodesOne(u: Update)
    ensures Encodes(Record(u), 1, [u])
  {
    assert Records([u]) == Record(u) + Records([]) == Record(u);
  }

  lemma BytesAre(s: seq<byte>)
    requires |s| >= HEADER
    ensures s == EncodeFixed64(DecodeFixed64(s)) + EncodeFixed32(DecodeFixed32(s[8..])) + s[HEADER..]
  {
    hide EncodeFixed32, DecodeFixed32, EncodeFixed64, DecodeFixed64;
    Fixed64OfFront(s);
    Fixed32OfFront(s[8..]);
    assert s == s[..8] + s[8..][..4] + s[HEADER..];
  }

  class WriteBatch {
    var rep: seq<byte>

    ghost predicate Valid()
      reads this
    {
      |rep| >= HEADER
    }

    /** What is stored beyond the header. */
    function Data(): seq<byte>
      requires Valid()
      reads this
    {
      rep[HEADER..]
    }

    function Sequence(): uint64
      requires Valid()
      reads this
    {
      DecodeFixed64(rep)
    }

    function Count(): uint32
      requires Valid()
      reads this
    {
      DecodeFixed32(rep[8..])
    }

    /** A batch is its sequence number in eight bytes, its count in four, and the updates. */
    lemma RepIs()
      requires Valid()
      ensures rep == EncodeFixed64(Sequence()) + EncodeFixed32(Count()) + Data()
    {
      BytesAre(rep);
    }

    /** The batch holds the updates `us`, as the operations below leave it. */
    ghost predicate Holds(us: seq<Update>)
      reads this
    {
      Valid() && Encodes(Data(), Count(), us)
    }

    constructor ()
      ensures Holds([]) && Sequence() == 0
    {
      rep := seq(HEADER, i => 0);
      new;
      assert rep[4..][0] == rep[4..][1] == rep[4..][2] == rep[4..][3] == 0;
    }

    method SetSequence(sequence: uint64)
      requires Valid()
      modifies this
      ensures Valid() && Sequence() == sequence && Count() == old(Count()) && Data() == old(Data())
    {
      ghost var tail := rep[8..];
      rep := EncodeFixed64(sequence) + rep[8..];
      Fixed64RoundTrip(sequence, tail);
      assert rep[8..] == tail && rep[HEADER..] == tail[4..] && tail[4..] == old(rep[HEADER..]);
    }

    method SetCount(count: uint32)
      requires Valid()
      modifies this
      ensures Valid() && Sequence() == old(Sequence()) && Count() == count && Data() == old(Data())
    {
      ghost var tail := rep[HEADER..];
      rep := rep[..8] + EncodeFixed32(count) + rep[HEADER..];
      assert rep[8..] == EncodeFixed32(count) + tail && rep[HEADER..] == tail;
      Fixed32RoundTrip(count, tail);
      assert rep[..8] == old(rep[..8]) && rep[4..][..4] == old(rep[4..][..4]);
      SameStart(old(rep), rep);
    }

    /** The sequence number is in the first eight bytes. */
    lemma SameStart(a: seq<byte>, b: seq<byte>)
      requires |a| >= 8 && |b| >= 8 && a[..8] == b[..8]
      ensures DecodeFixed64(a) == DecodeFixed64(b)
    {
      forall i | 0 <= i < 8 ensures a[i] == b[i] {
        assert a[..8][i] == b[..8][i];
      }
    }

    method AppendData(data: seq<byte>)
      requires Valid()
      modifies this
      ensures Valid() && Sequence() == old(Sequence()) && Count() == old(Count()) && Data() == old(Data()) + data
    {
      rep := rep + data;
      SameStart(old(rep), rep);
      assert rep[HEADER..] == old(rep[HEADER..]) + data;
    }

    /** WriteBatch::Put and WriteBatch::Delete. */
    method Add(u: Update)
      requires Valid()
      modifies this
      ensures Valid() && Sequence() == old(Sequence()) && Count() == (old(Count()) + 1) % 0x1_0000_0000
      ensures Data() == old(Data()) + Record(u)
    {
      SetCount((Count() + 1) % 0x1_0000_0000);
      AppendData(Record(u));
    }

    /** WriteBatchInternal::Append. */
    method Append(src: WriteBatch)
      requires Valid() && src.Valid() && src != this
      modifies this
      ensures Valid() && Sequence() == old(Sequence()) && Count() == (old(Count()) + src.Count()) % 0x1_0000_0000
      ensures Data() == old(Data()) + src.Data()
    {
      SetCount((Count() + src.Count()) % 0x1_0000_0000);
      AppendData(src.rep[HEADER..]);
    }

    /**
     Iterate hands the updates to a handler one by one; `handed` has those it was handed,
     also when the batch turns out to be corrupt only behind them.
     */
    method Iterate() returns (handed: seq<Update>, status: Status)
      ensures !Valid() ==> handed == [] && status == Corruption("malformed WriteBatch (too small)")
      ensures Valid() ==> handed == Scan(Data()).updates
      ensures Valid() && Scan(Data()).status.Corruption? ==> status == Scan(Data()).status
      ensures Valid() && Scan(Data()).status.Fine? ==>
                status == if |handed| == AsInt(Count()) then Fine else Corruption("WriteBatch has wrong count")
    {
      handed := [];
      if |rep| < HEADER {
        return handed, Corruption("malformed WriteBatch (too small)");
      }
      var input, found := rep[HEADER..], 0;
      while input != []
        invariant found == |handed|
        invariant Scan(Data()) == Contents(handed + Scan(input).updates, Scan(input).status)
        decreases |input|
      {
        found := found + 1;
        match ParseUpdate(input)
        case Bad(msg) =>
          return handed, Corruption(msg);
        case Got(u, rest) =>
          Append3(handed, [u], Scan(rest).updates);
          handed, input := handed + [u], rest;
      }
      status := if found != AsInt(Count()) then Corruption("WriteBatch has wrong count") else Fine;
    }
  }

  /** Operations one after the other leave a batch that holds them all. */
  method Build(us: seq<Update>) returns (b: WriteBatch)
    requires |us| < 0x1_0000_0000
    ensures fresh(b) && b.Holds(us)
  {
    hide Encodes, Records;
    b := new WriteBatch();
    assert us[..0] == [];
    for i := 0 to |us|
      invariant fresh(b) && b.Holds(us[..i])
    {
      EncodesOne(us[i]);
      EncodesMore(b.Data(), b.Count(), us[..i], Record(us[i]), 1, [us[i]]);
      assert us[..i + 1] == us[..i] + [us[i]];
      b.Add(us[i]);
    }
    assert us[..|us|] == us;
  }

  /** A batch that holds updates hands over just these, in order, and is not corrupt. */
  method ReadBack(b: WriteBatch, us: seq<Update>) returns (handed: seq<Update>, status: Status)
    requires b.Holds(us) && |us| < 0x8000_0000
    ensures handed == us && status == Fine
  {
    RecordsAreRead(us, []);
    assert Records(us) + [] == Records(us) && us + [] == us;
    handed, status := b.Iterate();
  }

  // ---- Groups of batches

  function AllOf(bs: seq<seq<Update>>): seq<Update> {
    if bs == [] then [] else AllOf(bs[..|bs| - 1]) + bs[|bs| - 1]
  }

  /** The group the leader of the write queue logs: the batches of the writers, one behind the other. */
  method Merge(batches: seq<WriteBatch>, ghost bs: seq<seq<Update>>) returns (group: WriteBatch)
    requires |batches| == |bs| && |AllOf(bs)| < 0x1_0000_0000
    requires forall i :: 0 <= i < |bs| ==> batches[i].Holds(bs[i])
    ensures fresh(group) && group.Holds(AllOf(bs))
  {
    hide Encodes, Records;
    group := new WriteBatch();
    assert AllOf(bs[..0]) == [];
    for i := 0 to |batches|
      invariant fresh(group) && group.Holds(AllOf(bs[..i])) && |AllOf(bs[..i])| <= |AllOf(bs)|
      invariant forall j :: 0 <= j < |bs| ==> batches[j].Holds(bs[j])
    {
      assert bs[..i + 1][..i] == bs[..i];
      AllOfGrows(bs, i + 1);
      EncodesMore(group.Data(), group.Count(), AllOf(bs[..i]), batches[i].Data(), batches[i].Count(), bs[i]);
      group.Append(batches[i]);
    }
    assert bs[..|bs|] == bs;
  }

  lemma {:induction false} AllOfGrows(bs: seq<seq<Update>>, i: nat)
    requires i <= |bs|
    ensures |AllOf(bs[..i])| <= |AllOf(bs)|
    decreases |bs| - i
  {
    if i < |bs| {
      assert bs[..i + 1][..i] == bs[..i];
      AllOfGrows(bs, i + 1);
    } else {
      assert bs[..i] == bs;
    }
  }
}
