/**
 What any bytes mean as a message, told field by field: the bytes are a list of records, and
 each field is made from the records with its tag and those of its oneof. pb_decode_noinit
 takes one record after the other instead, with all the fields at hand.
 */
module PbRecords {
  import opened Options
  import opened Words
  import opened Coding
  import opened PbTypes
  import opened PbEncoding
  import opened PbDecoding
  import opened PbRoundTrip

  // ---- Records

  /** A tag with its wire type, and the bytes from the item on. */
  datatype Record = Record(tag: nat, wire: nat, item: seq<byte>)

  /**
   Where an item ends: a field that is known is as long as its own wire type says, whatever the
   wire type with the tag, but for packed arrays.
   */
  function AfterItem(fields: seq<Field>, r: Record): (rest: Option<seq<byte>>)
    ensures rest.Some? ==> |rest.value| <= |r.item|
  {
    var i := IndexOf(fields, r.tag);
    if i.None? then Skip(r.wire, r.item)
    else
      var f := fields[i.value];
      if f.rule.Repeated? && r.wire == WT_STRING && f.kind.Packable() then Skip(WT_STRING, r.item)
      else Skip(WireType(f.kind), r.item)
  }

  function Records(fields: seq<Field>, s: seq<byte>): seq<Record>
    decreases |s|
  {
    match ReadTag(s)
    case Tag(tag, wire, rest) =>
      var r := Record(tag, wire, rest);
      var after := AfterItem(fields, r);
      [r] + if after.None? then [] else Records(fields, after.value)
    case _ => []
  }

  /** The records come to an end where a message may end. */
  predicate Ends(fields: seq<Field>, s: seq<byte>)
    decreases |s|
  {
    match ReadTag(s)
    case End => true
    case Broken => false
    case Tag(tag, wire, rest) =>
      var after := AfterItem(fields, Record(tag, wire, rest));
      !(fields == [] && tag == 0) && after.Some? && Ends(fields, after.value)
  }

  /** A record whose tag is that of another member of the same oneof. */
  predicate IsRival(fields: seq<Field>, i: nat, r: Record)
    requires i < |fields|
  {
    exists j :: 0 <= j < |fields| && j != i && fields[j].tag == r.tag && SameGroup(fields[j], fields[i])
  }

  predicate Touches(fields: seq<Field>, i: nat, r: Record)
    requires i < |fields|
  {
    r.tag == fields[i].tag || IsRival(fields, i, r)
  }

  /** What records leave in field `i`, which held `vs`. */
  ghost function Left(fields: seq<Field>, i: nat, vs: seq<Value>, records: seq<Record>): Option<seq<Value>>
    requires i < |fields| && GoodField(fields[i])
    decreases |records|
  {
    if records == [] then Some(vs)
    else
      var r := records[0];
      if r.tag == fields[i].tag then
        var v := DecodeField(fields[i], vs, r.wire, r.item);
        if v.None? then None else Left(fields, i, v.value.value, records[1..])
      else Left(fields, i, if IsRival(fields, i, r) then [] else vs, records[1..])
  }

  // ---- Numbers

  /** A signed number is the one in range that agrees with the varint in the low bits. */
  lemma CastIsResidue(v: uint64, size: nat, n: int)
    requires IsWidth(size)
    ensures CheckedVarint(v, size) == Some(n) <==>
              && -(Half(size) as int) <= n < Half(size)
              && (v - n) % (if size == 8 then 0x1_0000_0000_0000_0000 else 0x1_0000_0000) == 0
  {
    hide Signed;
    var wide := if size == 8 then 8 else 4;
    var m := 2 * Half(wide);
    SignedInRange(v, size);
    if CheckedVarint(v, size) == Some(n) {
      var q := SignedAgrees(v, wide);
      RemainderOf(v - n, m, q, 0);
    }
    if -(Half(size) as int) <= n < Half(size) && (v - n) % m == 0 {
      var q := (v - n) / m;
      assert v == n + q * m;
      SameResidue(v, wide, n, q);
      NarrowResidue(v, size, wide, n, q);
    }
  }

  lemma SignedInRange(v: nat, size: nat)
    requires IsWidth(size)
    ensures -(Half(size) as int) <= Signed(v, size) < Half(size)
  {
  }

  lemma SignedAgrees(v: nat, size: nat) returns (q: int)
    requires IsWidth(size)
    ensures v == Signed(v, size) + q * (2 * Half(size)) && Signed(v, size) <= v
  {
    var m := 2 * Half(size);
    var r := v % m;
    q := v / m;
    assert v == r + q * m && r <= v;
    if r >= Half(size) {
      q := q + 1;
      assert q * m == (q - 1) * m + m;
    }
  }

  lemma SameResidue(v: nat, size: nat, n: int, q: int)
    requires IsWidth(size) && -(Half(size) as int) <= n < Half(size) && v == n + q * (2 * Half(size))
    ensures Signed(v, size) == n
  {
    var m := 2 * Half(size);
    if n < 0 {
      assert v == (n + m) + (q - 1) * m;
      RemainderOf(v, m, q - 1, n + m);
    } else {
      RemainderOf(v, m, q, n);
    }
  }

  lemma RemainderOf(v: nat, m: nat, q: int, r: nat)
    requires r < m && v == r + q * m
    ensures v % m == r
  {
    Multiples(q, m);
    RemainderIs(v, m, q, r);
  }

  lemma NarrowResidue(v: nat, size: nat, wide: nat, n: int, q: int)
    requires IsWidth(size) && wide == (if size == 8 then 8 else 4)
    requires -(Half(size) as int) <= n < Half(size) && v == n + q * (2 * Half(wide))
    ensures Signed(v, size) == n
  {
    var factor := if size == 1 then 0x100_0000 else if size == 2 then 0x1_0000 else 1;
    assert 2 * Half(wide) == factor * (2 * Half(size));
    assert q * (factor * (2 * Half(size))) == q * factor * (2 * Half(size));
    SameResidue(v, size, n, q * factor);
  }

  /** Numbers are counted up in the order 0, -1, 1, -2, 2 and so on. */
  lemma ZigZagCounts(n: nat)
    ensures ZigZag(0) == 0 && ZigZag(-1 - n) == ZigZag(n) + 1 && ZigZag(n + 1) == ZigZag(-1 - n) + 1
  {
  }

  /** The bytes begin with a value of the kind, as the encoding has it, and `rest` is behind it. */
  ghost predicate StandsFor(k: Kind, s: seq<byte>, v: Value, rest: seq<byte>)
    requires GoodKind(k) && !k.Submessage?
  {
    match k
    case Varint(size) =>
      && v.Number? && -(Half(size) as int) <= v.n < Half(size)
      && ParseVarint64(s).Some? && ParseVarint64(s).value.rest == rest
      && (ParseVarint64(s).value.value - v.n) % (if size == 8 then 0x1_0000_0000_0000_0000 else 0x1_0000_0000) == 0
    case UVarint(size) => v.Number? && 0 <= v.n < 2 * Half(size) && ParseVarint64(s) == Some(Parsed(v.n, rest))
    case SVarint(size) =>
      v.Number? && -(Half(size) as int) <= v.n < Half(size) && ParseVarint64(s) == Some(Parsed(ZigZag(v.n), rest))
    case Fixed32 => v.Number? && 0 <= v.n < 0x1_0000_0000 && s == EncodeFixed32(v.n) + rest
    case Fixed64 => v.Number? && 0 <= v.n < 0x1_0000_0000_0000_0000 && s == EncodeFixed64(v.n) + rest
    case Bytes(max) => v.Data? && |v.bytes| <= max && ParseString(s) == Some(Parsed(v.bytes, rest))
    case Text(size) =>
      && v.Data? && ParseString(s).Some? && ParseString(s).value.rest == rest && |ParseString(s).value.value| < size
      && IsUpToNul(ParseString(s).value.value, v.bytes)
    case FixedBytes(size) =>
      && v.Data? && |v.bytes| == size
      && (|| ParseString(s) == Some(Parsed(v.bytes, rest))
          || (ParseString(s) == Some(Parsed([], rest)) && forall i :: 0 <= i < size ==> v.bytes[i] == 0))
  }

  /** The first part of a string up to a NUL, or all of it if there is none. */
  predicate IsUpToNul(s: seq<byte>, t: seq<byte>) {
    t <= s && 0 !in t && (|t| < |s| ==> s[|t|] == 0)
  }

  lemma {:induction false} UpToNulIff(s: seq<byte>, t: seq<byte>)
    ensures IsUpToNul(s, t) <==> t == UpToNul(s)
  {
    if s != [] && s[0] != 0 {
      if t == [] {
        assert UpToNul(s) != [];
      } else {
        UpToNulIff(s[1..], t[1..]);
        assert s == [s[0]] + s[1..] && t == [t[0]] + t[1..];
        assert t <= s <==> t[0] == s[0] && t[1..] <= s[1..];
        assert 0 in t <==> t[0] == 0 || 0 in t[1..];
      }
    } else if t != [] {
      assert t[0] in t;
    }
  }

  lemma UnZigZagIff(v: nat, n: int)
    ensures UnZigZag(v) == n <==> ZigZag(n) == v
  {
  }

  lemma Fixed32Iff(s: seq<byte>, n: uint32, rest: seq<byte>)
    ensures s == EncodeFixed32(n) + rest <==> |s| >= 4 && DecodeFixed32(s) == n && s[4..] == rest
  {
    hide EncodeFixed32, DecodeFixed32;
    if s == EncodeFixed32(n) + rest {
      Fixed32RoundTrip(n, rest);
    } else if |s| >= 4 {
      Fixed32OfFront(s);
      assert s == s[..4] + s[4..];
    }
  }

  lemma Fixed64Iff(s: seq<byte>, n: uint64, rest: seq<byte>)
    ensures s == EncodeFixed64(n) + rest <==> |s| >= 8 && DecodeFixed64(s) == n && s[8..] == rest
  {
    hide EncodeFixed64, DecodeFixed64;
    if s == EncodeFixed64(n) + rest {
      Fixed64RoundTrip(n, rest);
    } else if |s| >= 8 {
      Fixed64OfFront(s);
      assert s == s[..8] + s[8..];
    }
  }

  /** For any bytes: an item that is no message is decoded to a value exactly if they stand for it. */
  lemma ScalarIff(k: Kind, s: seq<byte>, v: Value, rest: seq<byte>)
    requires GoodKind(k) && !k.Submessage?
    ensures DecodeScalar(k, s) == Some(Parsed(v, rest)) <==> StandsFor(k, s, v, rest)
  {
    hide ParseVarint64, ParseString, EncodeFixed32, DecodeFixed32, EncodeFixed64, DecodeFixed64, CheckedVarint, UpToNul,
        UnZigZag, ZigZag, IsUpToNul;
    match k
    case Varint(size) =>
      if ParseVarint64(s).Some? && v.Number? {
        CastIsResidue(ParseVarint64(s).value.value, size, v.n);
      }
    case UVarint(size) =>
    case SVarint(size) =>
      if ParseVarint64(s).Some? && v.Number? {
        UnZigZagIff(ParseVarint64(s).value.value, v.n);
      }
    case Fixed32 =>
      if v.Number? && 0 <= v.n < 0x1_0000_0000 {
        Fixed32Iff(s, v.n, rest);
      }
    case Fixed64 =>
      if v.Number? && 0 <= v.n < 0x1_0000_0000_0000_0000 {
        Fixed64Iff(s, v.n, rest);
      }
    case Bytes(max) =>
    case Text(size) =>
      if ParseString(s).Some? && v.Data? {
        UpToNulIff(ParseString(s).value.value, v.bytes);
      }
    case FixedBytes(size) =>
      if v.Data? && |v.bytes| == size && forall i :: 0 <= i < size ==> v.bytes[i] == 0 {
        assert v.bytes == PbDecoding.Zeros(size);
      }
  }

  // ---- A record is taken by one turn of the loop

  lemma {:induction false} VarintIsPassed(s: seq<byte>, n: nat)
    requires ParseVarint(s, n).Some?
    ensures SkipVarint(s) == Some(ParseVarint(s, n).value.rest)
    decreases n
  {
    if s[0] >= 128 {
      VarintIsPassed(s[1..], n - 1);
    }
  }

  lemma {:induction false} ItemIsPassed(k: Kind, base: Value, s: seq<byte>)
    requires GoodKind(k) && DecodeItem(k, base, s).Some?
    ensures Skip(WireType(k), s) == Some(DecodeItem(k, base, s).value.rest)
  {
    hide ParseVarint, DecodeMessage, CheckedVarint, CheckedUVarint, CheckedSVarint, UpToNul, SkipVarint;
    if k.Varint? || k.UVarint? || k.SVarint? {
      VarintIsPassed(s, 10);
    }
  }

  lemma FieldIsPassed(fields: seq<Field>, i: nat, vs: seq<Value>, r: Record)
    requires i < |fields| && GoodField(fields[i]) && IndexOf(fields, r.tag) == Some(i)
    requires DecodeField(fields[i], vs, r.wire, r.item).Some?
    ensures AfterItem(fields, r) == Some(DecodeField(fields[i], vs, r.wire, r.item).value.rest)
  {
    hide DecodeItem, DecodePacked, ParseString;
    var f := fields[i];
    if !(f.rule.Repeated? && r.wire == WT_STRING && f.kind.Packable()) {
      ItemIsPassed(f.kind, Base(f, vs), r.item);
    }
  }

  // ---- Decoding is all fields at once

  ghost predicate EachLeft(d: Descriptor, m: seq<seq<Value>>, records: seq<Record>)
    requires Good(d) && |m| == |d.fields|
  {
    forall i :: 0 <= i < |d.fields| ==> Left(d.fields, i, m[i], records).Some?
  }

  predicate ComesUp(tag: nat, records: seq<Record>) {
    exists k :: 0 <= k < |records| && records[k].tag == tag
  }

  /** Every required field has come up before, or does so in these records. */
  ghost predicate AllComeUp(fields: seq<Field>, seen: set<nat>, records: seq<Record>) {
    forall i :: 0 <= i < |fields| && fields[i].rule.Required? ==> i in seen || ComesUp(fields[i].tag, records)
  }

  lemma OneMoreSeen(fields: seq<Field>, seen: set<nat>, i: nat, r: Record, more: seq<Record>)
    requires DistinctTags(fields) && i < |fields| && r.tag == fields[i].tag
    ensures AllComeUp(fields, seen, [r] + more) <==> AllComeUp(fields, seen + {i}, more)
  {
    forall j | 0 <= j < |fields|
      ensures j in seen || ComesUp(fields[j].tag, [r] + more) <==> j in seen + {i} || ComesUp(fields[j].tag, more)
    {
      OneMoreUp(fields[j].tag, r, more);
      assert fields[j].tag == fields[i].tag <==> i == j;
    }
  }

  lemma OneMoreUp(tag: nat, r: Record, more: seq<Record>)
    ensures ComesUp(tag, [r] + more) <==> r.tag == tag || ComesUp(tag, more)
  {
    var all := [r] + more;
    assert all[0] == r && all[1..] == more;
    if ComesUp(tag, more) {
      var k :| 0 <= k < |more| && more[k].tag == tag;
      assert all[k + 1] == more[k];
    }
    if r.tag == tag {
      assert all[0].tag == tag;
    }
  }

  lemma UnknownSeen(fields: seq<Field>, seen: set<nat>, r: Record, more: seq<Record>)
    requires forall i :: 0 <= i < |fields| ==> fields[i].tag != r.tag
    ensures AllComeUp(fields, seen, [r] + more) <==> AllComeUp(fields, seen, more)
  {
    forall j | 0 <= j < |fields|
      ensures ComesUp(fields[j].tag, [r] + more) <==> ComesUp(fields[j].tag, more)
    {
      OneMoreUp(fields[j].tag, r, more);
    }
  }

  /** What the first record does to each field. */
  lemma FirstRecord(d: Descriptor, m: seq<seq<Value>>, i: nat, vs: seq<Value>, r: Record, more: seq<Record>, j: nat)
    requires Good(d) && |m| == |d.fields| && i < |m| && j < |m| && r.tag == d.fields[i].tag
    requires DecodeField(d.fields[i], m[i], r.wire, r.item).Some?
             && DecodeField(d.fields[i], m[i], r.wire, r.item).value.value == vs
    ensures Left(d.fields, j, m[j], [r] + more) == Left(d.fields, j, WithField(d.fields, m, i, vs)[j], more)
  {
    hide DecodeField, GoodField;
    assert ([r] + more)[0] == r && ([r] + more)[1..] == more;
    assert d.fields[j].tag == d.fields[i].tag <==> i == j;
    assert IsRival(d.fields, j, r) <==> i != j && SameGroup(d.fields[i], d.fields[j]);
  }

  lemma UnknownRecord(d: Descriptor, i: nat, vs: seq<Value>, r: Record, more: seq<Record>)
    requires Good(d) && i < |d.fields|
    requires forall j :: 0 <= j < |d.fields| ==> d.fields[j].tag != r.tag
    ensures Left(d.fields, i, vs, [r] + more) == Left(d.fields, i, vs, more)
  {
    assert ([r] + more)[0] == r && ([r] + more)[1..] == more;
  }

  /** The message of which each field is what the records leave in it. */
  ghost function AllLeft(d: Descriptor, m: seq<seq<Value>>, records: seq<Record>): (r: seq<seq<Value>>)
    requires Good(d) && |m| == |d.fields| && EachLeft(d, m, records)
    ensures |r| == |m|
  {
    seq(|m|, i requires 0 <= i < |m| => Left(d.fields, i, m[i], records).value)
  }

  /** What becomes of a message, told by the records and field by field. */
  ghost function Meant(d: Descriptor, m: seq<seq<Value>>, seen: set<nat>, s: seq<byte>): Option<seq<seq<Value>>>
    requires Good(d) && |m| == |d.fields|
  {
    var records := Records(d.fields, s);
    if Ends(d.fields, s) && AllComeUp(d.fields, seen, records) && EachLeft(d, m, records) then
      Some(AllLeft(d, m, records))
    else None
  }

  lemma MeantAtEnd(d: Descriptor, m: seq<seq<Value>>, seen: set<nat>, s: seq<byte>)
    requires Good(d) && |m| == |d.fields| && !ReadTag(s).Tag?
    ensures Meant(d, m, seen, s) == if ReadTag(s).End? && Complete(d.fields, seen) then Some(m) else None
  {
    assert AllComeUp(d.fields, seen, []) <==> Complete(d.fields, seen);
    assert EachLeft(d, m, []);
    assert AllLeft(d, m, []) == m;
  }

  lemma MeantOfUnknown(d: Descriptor, m: seq<seq<Value>>, seen: set<nat>, s: seq<byte>)
    requires Good(d) && |m| == |d.fields| && ReadTag(s).Tag? && IndexOf(d.fields, ReadTag(s).tag).None?
    requires !(d.fields == [] && ReadTag(s).tag == 0) && Skip(ReadTag(s).wire, ReadTag(s).rest).Some?
    ensures Meant(d, m, seen, s) == Meant(d, m, seen, Skip(ReadTag(s).wire, ReadTag(s).rest).value)
  {
    hide Left, ReadTag, Skip, AllComeUp, IndexOf;
    var t := ReadTag(s);
    var r, more := Record(t.tag, t.wire, t.rest), Records(d.fields, Skip(t.wire, t.rest).value);
    UnknownSeen(d.fields, seen, r, more);
    forall i | 0 <= i < |d.fields|
      ensures Left(d.fields, i, m[i], [r] + more) == Left(d.fields, i, m[i], more)
    {
      UnknownRecord(d, i, m[i], r, more);
    }
    SameLeft(d, m, m, [r] + more, more);
  }

  lemma SameLeft(d: Descriptor, m: seq<seq<Value>>, m': seq<seq<Value>>, a: seq<Record>, b: seq<Record>)
    requires Good(d) && |m| == |m'| == |d.fields|
    requires forall i :: 0 <= i < |d.fields| ==> Left(d.fields, i, m[i], a) == Left(d.fields, i, m'[i], b)
    ensures EachLeft(d, m, a) <==> EachLeft(d, m', b)
    ensures EachLeft(d, m, a) ==> AllLeft(d, m, a) == AllLeft(d, m', b)
  {
    hide Left;
  }

  lemma MeantOfField(d: Descriptor, m: seq<seq<Value>>, seen: set<nat>, s: seq<byte>, i: nat)
    requires Good(d) && |m| == |d.fields| && ReadTag(s).Tag? && IndexOf(d.fields, ReadTag(s).tag) == Some(i)
    requires DecodeField(d.fields[i], m[i], ReadTag(s).wire, ReadTag(s).rest).Some?
    ensures var v := DecodeField(d.fields[i], m[i], ReadTag(s).wire, ReadTag(s).rest).value;
            Meant(d, m, seen, s) == Meant(d, WithField(d.fields, m, i, v.value), seen + {i}, v.rest)
  {
    hide Left, ReadTag, AllComeUp, IndexOf, AfterItem, DecodeField, WithField;
    var t := ReadTag(s);
    var v := DecodeField(d.fields[i], m[i], t.wire, t.rest).value;
    var r, more := Record(t.tag, t.wire, t.rest), Records(d.fields, v.rest);
    FieldIsPassed(d.fields, i, m[i], r);
    OneMoreSeen(d.fields, seen, i, r, more);
    var m' := WithField(d.fields, m, i, v.value);
    forall j | 0 <= j < |d.fields|
      ensures Left(d.fields, j, m[j], [r] + more) == Left(d.fields, j, m'[j], more)
    {
      FirstRecord(d, m, i, v.value, r, more, j);
    }
    SameLeft(d, m, m', [r] + more, more);
  }

  lemma NotMeant(d: Descriptor, m: seq<seq<Value>>, seen: set<nat>, s: seq<byte>)
    requires Good(d) && |m| == |d.fields| && ReadTag(s).Tag?
    requires var t := ReadTag(s);
             var i := IndexOf(d.fields, t.tag);
             || (d.fields == [] && t.tag == 0)
             || if i.None? then Skip(t.wire, t.rest).None?
                else DecodeField(d.fields[i.value], m[i.value], t.wire, t.rest).None?
    ensures Meant(d, m, seen, s).None?
  {
    hide DecodeField, ReadTag, Skip, IndexOf;
    var t := ReadTag(s);
    var i := IndexOf(d.fields, t.tag);
    if i.Some? {
      assert Left(d.fields, i.value, m[i.value], Records(d.fields, s)).None?;
    }
  }

  /**
   For any bytes: decoding succeeds just if the records end where a message may end, every
   required field comes up, and every record of a field can be decoded; and each field is then
   what the records leave in it.
   */
  lemma {:induction false} DecodedIsMeant(d: Descriptor, m: seq<seq<Value>>, seen: set<nat>, s: seq<byte>)
    requires Good(d) && |m| == |d.fields|
    ensures DecodeMessage(d, m, seen, s) == Meant(d, m, seen, s)
    decreases |s|
  {
    hide DecodeField, Meant, Skip, WithField;
    var t := ReadTag(s);
    if !t.Tag? {
      MeantAtEnd(d, m, seen, s);
    } else {
      NoBytesNoTag(s);
      var i := IndexOf(d.fields, t.tag);
      if d.fields == [] && t.tag == 0 {
        NotMeant(d, m, seen, s);
      } else if i.None? {
        if Skip(t.wire, t.rest).None? {
          NotMeant(d, m, seen, s);
        } else {
          MeantOfUnknown(d, m, seen, s);
          DecodedIsMeant(d, m, seen, Skip(t.wire, t.rest).value);
        }
      } else if DecodeField(d.fields[i.value], m[i.value], t.wire, t.rest).None? {
        NotMeant(d, m, seen, s);
      } else {
        var v := DecodeField(d.fields[i.value], m[i.value], t.wire, t.rest).value;
        MeantOfField(d, m, seen, s, i.value);
        DecodedIsMeant(d, WithField(d.fields, m, i.value, v.value), seen + {i.value}, v.rest);
      }
    }
  }

  /** A required field that does not come up is missed, whatever else the bytes hold. */
  lemma RequiredComesUp(d: Descriptor, s: seq<byte>, i: nat)
    requires Good(d) && i < |d.fields| && d.fields[i].rule.Required? && Decode(d, s).Some?
    ensures ComesUp(d.fields[i].tag, Records(d.fields, s))
  {
    hide DecodeMessage, ComesUp, Ends, EachLeft, Records, Good;
    DecodedIsMeant(d, Defaults(d), {}, s);
  }

  lemma NothingIsDecoded(d: Descriptor)
    requires Good(d)
    ensures Decode(d, []).Some? <==> forall i :: 0 <= i < |d.fields| ==> !d.fields[i].rule.Required?
  {
    hide Good, DecodeField;
    assert ReadTag([]).End?;
  }

  // ---- What is left in a field

  lemma {:induction false} UntouchedIsLeft(fields: seq<Field>, i: nat, vs: seq<Value>, records: seq<Record>)
    requires i < |fields| && GoodField(fields[i])
    requires forall k :: 0 <= k < |records| ==> !Touches(fields, i, records[k])
    ensures Left(fields, i, vs, records) == Some(vs)
    decreases |records|
  {
    hide GoodField, IsRival;
    if records != [] {
      assert !Touches(fields, i, records[0]);
      UntouchedIsLeft(fields, i, vs, records[1..]);
    }
  }

  /** Nothing behind record `k` touches field `i`. */
  predicate IsLast(fields: seq<Field>, i: nat, records: seq<Record>, k: nat)
    requires i < |fields|
  {
    k < |records| && Touches(fields, i, records[k])
    && forall l :: k < l < |records| ==> !Touches(fields, i, records[l])
  }

  lemma LastOfRest(fields: seq<Field>, i: nat, records: seq<Record>, k: nat)
    requires i < |fields| && k > 0 && IsLast(fields, i, records, k)
    ensures IsLast(fields, i, records[1..], k - 1) && records[1..][k - 1] == records[k]
  {
    hide Touches;
    forall l | k - 1 < l < |records[1..]|
      ensures !Touches(fields, i, records[1..][l])
    {
      assert records[1..][l] == records[l + 1];
    }
  }

  /** The item of a field that is neither an array nor merged. */
  predicate TakesLast(f: Field) {
    f.rule.OneOf? || ((f.rule.Required? || f.rule.Optional?) && !f.kind.Submessage?)
  }

  lemma LastAlone(f: Field, vs: seq<Value>, r: Record)
    requires GoodField(f) && TakesLast(f) && DecodeField(f, vs, r.wire, r.item).Some?
    ensures DecodeItem(f.kind, DefaultItem(f.kind), r.item).Some?
    ensures DecodeField(f, vs, r.wire, r.item).value.value
            == [DecodeItem(f.kind, DefaultItem(f.kind), r.item).value.value]
  {
    hide DecodeMessage, DecodeScalar;
  }

  /** Of several items of a field the last counts, and it is as if it had come alone. */
  lemma {:induction false} LastWins(fields: seq<Field>, i: nat, vs: seq<Value>, records: seq<Record>, k: nat)
    requires i < |fields| && GoodField(fields[i]) && TakesLast(fields[i]) && IsLast(fields, i, records, k)
    requires records[k].tag == fields[i].tag && Left(fields, i, vs, records).Some?
    ensures DecodeItem(fields[i].kind, DefaultItem(fields[i].kind), records[k].item).Some?
    ensures Left(fields, i, vs, records).value
            == [DecodeItem(fields[i].kind, DefaultItem(fields[i].kind), records[k].item).value.value]
    decreases |records|
  {
    var r := records[0];
    if k == 0 {
      hide GoodField, Touches, IsRival, DecodeField, DecodeItem, TakesLast;
      LastAlone(fields[i], vs, r);
      var v := DecodeField(fields[i], vs, r.wire, r.item).value;
      BehindLast(fields, i, records);
      UntouchedIsLeft(fields, i, v.value, records[1..]);
    } else {
      hide GoodField, Touches, IsRival, DecodeField, DecodeItem, IsLast, TakesLast;
      LastOfRest(fields, i, records, k);
      var vs' := if r.tag == fields[i].tag then DecodeField(fields[i], vs, r.wire, r.item).value.value
                 else if IsRival(fields, i, r) then [] else vs;
      LastWins(fields, i, vs', records[1..], k - 1);
    }
  }

  lemma BehindLast(fields: seq<Field>, i: nat, records: seq<Record>)
    requires i < |fields| && IsLast(fields, i, records, 0)
    ensures forall l :: 0 <= l < |records[1..]| ==> !Touches(fields, i, records[1..][l])
  {
    hide Touches;
    forall l | 0 <= l < |records[1..]|
      ensures !Touches(fields, i, records[1..][l])
    {
      assert records[1..][l] == records[l + 1];
    }
  }

  /** A member of a oneof is gone once another member has come up. */
  lemma {:induction false} RivalClears(fields: seq<Field>, i: nat, vs: seq<Value>, records: seq<Record>, k: nat)
    requires i < |fields| && GoodField(fields[i]) && IsLast(fields, i, records, k)
    requires records[k].tag != fields[i].tag && Left(fields, i, vs, records).Some?
    ensures Left(fields, i, vs, records).value == []
    decreases |records|
  {
    hide GoodField, IsRival, DecodeField;
    var r := records[0];
    if k == 0 {
      BehindLast(fields, i, records);
      UntouchedIsLeft(fields, i, [], records[1..]);
    } else {
      LastOfRest(fields, i, records, k);
      var vs' := if r.tag == fields[i].tag then DecodeField(fields[i], vs, r.wire, r.item).value.value
                 else if IsRival(fields, i, r) then [] else vs;
      RivalClears(fields, i, vs', records[1..], k - 1);
    }
  }

  /** The items of a packed array, one after the other to the end. */
  ghost function PackedItems(k: Kind, s: seq<byte>): Option<seq<Value>>
    requires GoodKind(k) && !k.Submessage?
    decreases |s|
  {
    if s == [] then Some([])
    else
      ScalarsConsume(k, s);
      var v := DecodeScalar(k, s);
      if v.None? then None
      else
        var more := PackedItems(k, v.value.rest);
        if more.None? then None else Some([v.value.value] + more.value)
  }

  lemma {:induction false} PackedAreItems(k: Kind, vs: seq<Value>, max: nat, s: seq<byte>)
    requires GoodKind(k) && !k.Submessage? && DecodePacked(k, vs, max, s).Some?
    ensures PackedItems(k, s).Some? && DecodePacked(k, vs, max, s).value == vs + PackedItems(k, s).value
    decreases |s|
  {
    hide DecodeScalar;
    if s == [] {
      assert vs + [] == vs;
    } else {
      ScalarsConsume(k, s);
      var v := DecodeScalar(k, s).value;
      PackedAreItems(k, vs + [v.value], max, v.rest);
      Append3(vs, [v.value], PackedItems(k, v.rest).value);
    }
  }

  /** The items of an array that one record has: any number if they are packed, and else one. */
  ghost function ItemsOf(f: Field, r: Record): Option<seq<Value>>
    requires GoodField(f)
  {
    if r.wire == WT_STRING && f.kind.Packable() then
      var b := ParseString(r.item);
      if b.None? then None else PackedItems(f.kind, b.value.value)
    else
      var v := DecodeItem(f.kind, DefaultItem(f.kind), r.item);
      if v.None? then None else Some([v.value.value])
  }

  /** The items of an array in all the records that have its tag. */
  ghost function AllItems(f: Field, records: seq<Record>): seq<Value>
    requires GoodField(f)
  {
    if records == [] then []
    else (if records[0].tag == f.tag && ItemsOf(f, records[0]).Some? then ItemsOf(f, records[0]).value else [])
         + AllItems(f, records[1..])
  }

  lemma RecordAddsItems(f: Field, vs: seq<Value>, r: Record)
    requires GoodField(f) && f.rule.Repeated? && DecodeField(f, vs, r.wire, r.item).Some?
    ensures ItemsOf(f, r).Some? && DecodeField(f, vs, r.wire, r.item).value.value == vs + ItemsOf(f, r).value
  {
    hide DecodePacked, PackedItems, DecodeItem, ParseString, GoodKind;
    if r.wire == WT_STRING && f.kind.Packable() {
      PackedAreItems(f.kind, vs, f.rule.max, ParseString(r.item).value.value);
    }
  }

  /** An array has all the items, in order, packed or not. */
  lemma {:induction false} ItemsAreGathered(fields: seq<Field>, i: nat, vs: seq<Value>, records: seq<Record>)
    requires i < |fields| && GoodField(fields[i]) && fields[i].rule.Repeated?
    requires Left(fields, i, vs, records).Some?
    ensures Left(fields, i, vs, records).value == vs + AllItems(fields[i], records)
    decreases |records|
  {
    hide GoodField, DecodeField, ItemsOf, IsRival;
    if records == [] {
      assert vs + [] == vs;
    } else {
      var f, r, more := fields[i], records[0], records[1..];
      NoRival(fields, i, r);
      if r.tag == f.tag {
        RecordAddsItems(f, vs, r);
        ItemsAreGathered(fields, i, vs + ItemsOf(f, r).value, more);
        Append3(vs, ItemsOf(f, r).value, AllItems(f, more));
      } else {
        ItemsAreGathered(fields, i, vs, more);
        assert [] + AllItems(f, more) == AllItems(f, more);
      }
    }
  }

  lemma NoRival(fields: seq<Field>, i: nat, r: Record)
    requires i < |fields| && !fields[i].rule.OneOf?
    ensures !IsRival(fields, i, r)
  {
  }

  /** What a message is decoded on top of: the one that is there, or defaults. */
  function Below(desc: Descriptor, before: seq<Value>): (m: seq<seq<Value>>)
    ensures |m| == |desc.fields|
  {
    if before != [] && before[0].Message? && |before[0].items| == |desc.fields| then before[0].items
    else Defaults(desc)
  }

  /** A message that comes up again is decoded on top of what is there, field by field. */
  lemma {:induction false} MessagesMerge(fields: seq<Field>, i: nat, vs: seq<Value>, records: seq<Record>, r: Record)
    requires i < |fields| && GoodField(fields[i]) && fields[i].kind.Submessage? && r.tag == fields[i].tag
    requires fields[i].rule.Required? || fields[i].rule.Optional?
    requires Left(fields, i, vs, records).Some?
    ensures var desc, bytes := fields[i].kind.desc, ParseString(r.item);
            && GoodKind(fields[i].kind)
            && Left(fields, i, vs, records + [r]) ==
                 if bytes.None? then None
                 else
                   var m := Meant(desc, Below(desc, Left(fields, i, vs, records).value), {}, bytes.value.value);
                   if m.None? then None else Some([Message(m.value)])
    decreases |records|
  {
    hide Meant, IsRival, ParseString, Defaults;
    NoRival(fields, i, r);
    if records == [] {
      assert records + [r] == [r];
      MessageOnTop(fields[i], vs, r);
    } else {
      hide DecodeField, Typed, Good;
      var x, more := records[0], records[1..];
      NoRival(fields, i, x);
      assert (records + [r])[0] == x && (records + [r])[1..] == more + [r];
      MessagesMerge(fields, i, if x.tag == fields[i].tag then DecodeField(fields[i], vs, x.wire, x.item).value.value
                    else vs, more, r);
    }
  }

  lemma MessageOnTop(f: Field, vs: seq<Value>, r: Record)
    requires GoodField(f) && f.kind.Submessage? && (f.rule.Required? || f.rule.Optional?)
    ensures GoodKind(f.kind)
    ensures var v, bytes := DecodeField(f, vs, r.wire, r.item), ParseString(r.item);
            if bytes.None? then v == None
            else
              var m := Meant(f.kind.desc, Below(f.kind.desc, vs), {}, bytes.value.value);
              if m.None? then v == None else v.Some? && v.value.value == [Message(m.value)]
  {
    hide Meant, ParseString, DecodeMessage;
    var bytes := ParseString(r.item);
    if bytes.Some? {
      DecodedIsMeant(f.kind.desc, Below(f.kind.desc, vs), {}, bytes.value.value);
    }
  }
}
