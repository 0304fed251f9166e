/**
 The decoder of nanopb (pb_decode.c) over a stream, proved to compute what PbDecoding says.
 A substream takes its bytes from the stream when it is made.
 */
module PbDecoder {
  import opened Options
  import opened Words
  import opened Coding
  import opened PbTypes
  import opened PbDecoding
  import opened PbFieldIter

  class IStream {
    var rest: seq<byte>  // bytes_left of them

    constructor (bytes: seq<byte>)
      ensures rest == bytes
    {
      rest := bytes;
    }

    /** pb_readbyte. */
    method ReadByte() returns (byte_: Option<byte>)
      modifies this
      ensures old(rest) == [] ==> byte_ == None && rest == []
      ensures old(rest) != [] ==> byte_ == Some(old(rest)[0]) && rest == old(rest)[1..]
    {
      if rest == [] {
        return None;
      }
      byte_ := Some(rest[0]);
      rest := rest[1..];
    }

    /** pb_read. */
    method Read(count: nat) returns (bytes: Option<seq<byte>>)
      modifies this
      ensures |old(rest)| < count ==> bytes == None
      ensures |old(rest)| >= count ==> bytes == Some(old(rest)[..count]) && rest == old(rest)[count..]
    {
      if |rest| < count {
        return None;
      }
      bytes := Some(rest[..count]);
      rest := rest[count..];
    }

    /**
     The loop of pb_decode_varint, and of pb_decode_varint32, which does its first turn ahead;
     bits beyond the width are lost. If it fails it has read up to the end or to the last byte it would read.
     */
    method ReadVarint(width: nat) returns (value: Option<nat>)
      requires width == 32 || width == 64
      modifies this
      ensures var s, n := old(rest), if width == 32 then 5 else 10;
              match ParseVarint(s, n)
              case Some(p) => value == Some(p.value) && rest == p.rest
              case None => value == None && rest == s[if |s| < n then |s| else n..]
    {
      ghost var s, n := rest, if width == 32 then 5 else 10;
      ghost var p: nat := 0;
      var bitpos, result: nat, place: nat, more := 0, 0, 1, true;
      assert s[0..] == s;
      while more
        invariant p <= n && p <= |s| && rest == s[p..] && bitpos == 7 * p
        invariant more ==> ParseVarint(s, n) == Coding.Rest(s, p, n, result, place)
        invariant !more ==> ParseVarint(s, n) == Some(Parsed(result, rest))
        decreases more, n - p
      {
        if bitpos >= width {
          return None;  // varint overflow
        }
        var b := ReadByte();
        if b.None? {
          return None;
        }
        RestOfMore(s, p, n, result, place);
        assert s[p..][1..] == s[p + 1..];
        p := p + 1;
        result := AtPlace(result, place, b.value % 128);
        bitpos, place, more := bitpos + 7, place * 128, b.value >= 128;
      }
      value := Some(result);
    }

    method DecodeVarint32() returns (value: Option<uint32>)
      modifies this
      ensures match ParseVarint32(old(rest))
              case Some(p) => value == Some(p.value) && rest == p.rest
              case None => value == None && rest == old(rest)[if |old(rest)| < 5 then |old(rest)| else 5..]
    {
      var v := ReadVarint(32);
      value := if v.None? then None else Some(v.value % 0x1_0000_0000);
    }

    method DecodeVarint() returns (value: Option<uint64>)
      modifies this
      ensures match ParseVarint64(old(rest))
              case Some(p) => value == Some(p.value) && rest == p.rest
              case None => value == None
    {
      var v := ReadVarint(64);
      value := if v.None? then None else Some(v.value % 0x1_0000_0000_0000_0000);
    }

    /** pb_decode_tag. */
    method DecodeTag() returns (ok: bool, eof: bool, wire: nat, tag: nat)
      modifies this
      ensures match ReadTag(old(rest))
              case End => !ok && eof
              case Broken => !ok && !eof
              case Tag(t, w, after) => ok && tag == t && wire == w && rest == after
    {
      eof, wire, tag := false, 0, 0;
      var temp := DecodeVarint32();
      if temp.None? {
        return false, rest == [], 0, 0;
      }
      if temp.value == 0 {
        return false, true, 0, 0;
      }
      ok, tag, wire := true, temp.value / 8, temp.value % 8;
    }

    /** pb_make_string_substream, and pb_close_string_substream once it has been used. */
    method StringSubstream() returns (substream: Option<IStream>)
      modifies this
      ensures match ParseString(old(rest))
              case Some(p) => substream.Some? && fresh(substream.value) && substream.value.rest == p.value
                && rest == p.rest
              case None => substream == None
    {
      var size := DecodeVarint32();
      if size.None? || |rest| < size.value {
        return None;
      }
      var stream := new IStream(rest[..size.value]);
      substream := Some(stream);
      rest := rest[size.value..];
    }

    method SkipVarint() returns (ok: bool)
      modifies this
      ensures ok == PbDecoding.SkipVarint(old(rest)).Some?
      ensures ok ==> rest == PbDecoding.SkipVarint(old(rest)).value
    {
      while true
        invariant PbDecoding.SkipVarint(rest) == PbDecoding.SkipVarint(old(rest))
        decreases |rest|
      {
        var b := ReadByte();
        if b.None? {
          return false;
        }
        if b.value < 128 {
          return true;
        }
      }
    }

    /** pb_skip_field. */
    method SkipField(wire: nat) returns (ok: bool)
      modifies this
      ensures ok == Skip(wire, old(rest)).Some?
      ensures ok ==> rest == Skip(wire, old(rest)).value
    {
      if wire == WT_VARINT {
        ok := SkipVarint();
      } else if wire == WT_64BIT {
        var b := Read(8);
        ok := b.Some?;
      } else if wire == WT_STRING {
        var length := DecodeVarint32();
        if length.None? {
          return false;
        }
        var b := Read(length.value);
        ok := b.Some?;
      } else if wire == WT_32BIT {
        var b := Read(4);
        ok := b.Some?;
      } else {
        ok := false;
      }
    }
  }

  // ---- Items

  method DecodeScalar(s: IStream, k: Kind) returns (v: Option<Value>)
    requires GoodKind(k) && !k.Submessage?
    modifies s
    ensures match PbDecoding.DecodeScalar(k, old(s.rest))
            case Some(p) => v == Some(p.value) && s.rest == p.rest
            case None => v == None
  {
    match k
    case Varint(size) =>
      var n := s.DecodeVarint();
      v := if n.None? || CheckedVarint(n.value, size).None? then None
        else Some(Number(CheckedVarint(n.value, size).value));
    case UVarint(size) =>
      var n := s.DecodeVarint();
      v := if n.None? || CheckedUVarint(n.value, size).None? then None
        else Some(Number(CheckedUVarint(n.value, size).value));
    case SVarint(size) =>
      var n := s.DecodeVarint();
      v := if n.None? || CheckedSVarint(n.value, size).None? then None
        else Some(Number(CheckedSVarint(n.value, size).value));
    case Fixed32 =>
      ghost var all := s.rest;
      var b := s.Read(4);
      assert b.Some? ==> all == b.value + s.rest;
      v := if b.None? then None else Some(Number(DecodeFixed32(b.value)));
    case Fixed64 =>
      ghost var all := s.rest;
      var b := s.Read(8);
      assert b.Some? ==> b.value[4..] == all[4..8];
      v := if b.None? then None else Some(Number(DecodeFixed64(b.value)));
    case Bytes(max) =>
      var size := s.DecodeVarint32();
      if size.None? || size.value > max {
        return None;
      }
      var b := s.Read(size.value);
      v := if b.None? then None else Some(Data(b.value));
    case Text(max) =>
      var size := s.DecodeVarint32();
      if size.None? || size.value + 1 > max {
        return None;
      }
      var b := s.Read(size.value);
      v := if b.None? then None else Some(Data(UpToNul(b.value)));
    case FixedBytes(length) =>
      var size := s.DecodeVarint32();
      if size.None? {
        return None;
      }
      if size.value == 0 {
        return Some(Data(PbDecoding.Zeros(length)));
      }
      if size.value != length {
        return None;
      }
      var b := s.Read(length);
      v := if b.None? then None else Some(Data(b.value));
  }

  /** The decoder of an item of any type; `base` is what is in its place already. */
  method DecodeItem(s: IStream, k: Kind, base: Value) returns (v: Option<Value>)
    requires GoodKind(k)
    modifies s
    ensures match PbDecoding.DecodeItem(k, base, old(s.rest))
            case Some(p) => v == Some(p.value) && s.rest == p.rest
            case None => v == None
    decreases k, 1
  {
    if !k.Submessage? {
      v := DecodeScalar(s, k);
      return;
    }
    var substream := s.StringSubstream();
    if substream.None? {
      return None;
    }
    var start := if base.Message? && |base.items| == |k.desc.fields| then base.items else Defaults(k.desc);
    var m := DecodeNoInit(substream.value, k.desc, start);
    v := if m.None? then None else Some(Message(m.value));
  }

  /** The loop over a packed array: no room for another item, or an item that cannot be read, leaves bytes over. */
  method DecodePacked(s: IStream, k: Kind, before: seq<Value>, max: nat) returns (all: Option<seq<Value>>)
    requires GoodKind(k) && !k.Submessage?
    modifies s
    ensures all == PbDecoding.DecodePacked(k, before, max, old(s.rest))
  {
    var items, status := before, true;
    while status && s.rest != [] && |items| < max
      invariant status ==> PbDecoding.DecodePacked(k, before, max, old(s.rest)) == PbDecoding.DecodePacked(k, items,
                max, s.rest)
      invariant !status ==> PbDecoding.DecodePacked(k, before, max, old(s.rest)) == None
      decreases status, |s.rest|
    {
      ScalarsConsume(k, s.rest);
      var v := DecodeScalar(s, k);
      if v.None? {
        status := false;
      } else {
        items := items + [v.value];
      }
    }
    all := if status && s.rest == [] then Some(items) else None;
  }

  /** decode_static_field. */
  method DecodeField(s: IStream, f: Field, vs: seq<Value>, wire: nat) returns (r: Option<seq<Value>>)
    requires GoodField(f)
    modifies s
    ensures match PbDecoding.DecodeField(f, vs, wire, old(s.rest))
            case Some(p) => r == Some(p.value) && s.rest == p.rest
            case None => r == None
    decreases f
  {
    if f.rule.Repeated? && wire == WT_STRING && f.kind.Packable() {
      var substream := s.StringSubstream();
      if substream.None? {
        return None;
      }
      r := DecodePacked(substream.value, f.kind, vs, f.rule.max);
      return;
    }
    if f.rule.Repeated? && |vs| >= f.rule.max {
      return None;  // array overflow
    }
    var v := DecodeItem(s, f.kind, Base(f, vs));
    r := if v.None? then None else Some(if f.rule.Repeated? then vs + [v.value] else [v.value]);
  }

  // ---- Required fields

  /** Bit `b` of the words that tell which required fields have been seen. */
  predicate Bit(words: seq<seq<bool>>, b: nat)
    requires |words| == 2 && |words[0]| == |words[1]| == 32 && b < MAX_REQUIRED
  {
    words[b / 32][b % 32]
  }

  ghost predicate Marked(fields: seq<Field>, words: seq<seq<bool>>, seen: set<nat>) {
    && |words| == 2 && |words[0]| == |words[1]| == 32 && RequiredBefore(fields, |fields|) < MAX_REQUIRED
    && (forall i :: 0 <= i < |fields| && fields[i].rule.Required? ==>
          RequiredBefore(fields, i) < MAX_REQUIRED && (Bit(words, RequiredBefore(fields, i)) <==> i in seen))
    && forall b :: RequiredBefore(fields, |fields|) <= b < MAX_REQUIRED ==> !Bit(words, b)
  }

  /** Required fields are numbered in order. */
  lemma {:induction false} RequiredAscend(fields: seq<Field>, i: nat, j: nat)
    requires i < j <= |fields|
    ensures RequiredBefore(fields, i) <= RequiredBefore(fields, j)
    ensures fields[i].rule.Required? ==> RequiredBefore(fields, i) < RequiredBefore(fields, j)
    decreases j
  {
    if i < j - 1 {
      RequiredAscend(fields, i, j - 1);
    }
  }

  /** Every number is that of a required field. */
  lemma {:induction false} NumberedField(fields: seq<Field>, n: nat, b: nat) returns (i: nat)
    requires n <= |fields| && b < RequiredBefore(fields, n)
    ensures i < n && fields[i].rule.Required? && RequiredBefore(fields, i) == b
    decreases n
  {
    if b < RequiredBefore(fields, n - 1) {
      i := NumberedField(fields, n - 1, b);
    } else {
      i := n - 1;
    }
  }

  function SetBit(words: seq<seq<bool>>, b: nat): (r: seq<seq<bool>>)
    requires |words| == 2 && |words[0]| == |words[1]| == 32 && b < MAX_REQUIRED
    ensures |r| == 2 && |r[0]| == |r[1]| == 32
  {
    words[b / 32 := words[b / 32][b % 32 := true]]
  }

  lemma OneBitIsSet(words: seq<seq<bool>>, b: nat, c: nat)
    requires |words| == 2 && |words[0]| == |words[1]| == 32 && b < MAX_REQUIRED && c < MAX_REQUIRED
    ensures Bit(SetBit(words, b), c) <==> c == b || Bit(words, c)
  {
    assert c / 32 == b / 32 && c % 32 == b % 32 ==> c == b;
  }

  /** Marking a field that comes up, if it is required. */
  function MarkField(fields: seq<Field>, words: seq<seq<bool>>, i: nat): seq<seq<bool>>
    requires |words| == 2 && |words[0]| == |words[1]| == 32 && i < |fields| && RequiredBefore(fields, i) < MAX_REQUIRED
  {
    if fields[i].rule.Required? then SetBit(words, RequiredBefore(fields, i)) else words
  }

  lemma OtherNumber(fields: seq<Field>, i: nat, j: nat)
    requires i < |fields| && j < |fields| && i != j && fields[i].rule.Required? && fields[j].rule.Required?
    ensures RequiredBefore(fields, i) != RequiredBefore(fields, j)
  {
    if i < j {
      RequiredAscend(fields, i, j);
    } else {
      RequiredAscend(fields, j, i);
    }
  }

  lemma MarkOne(fields: seq<Field>, words: seq<seq<bool>>, seen: set<nat>, i: nat)
    requires Marked(fields, words, seen) && i < |fields|
    ensures RequiredBefore(fields, i) < MAX_REQUIRED && Marked(fields, MarkField(fields, words, i), seen + {i})
  {
    hide Bit, SetBit, RequiredBefore;
    var b := RequiredBefore(fields, i);
    RequiredAscend(fields, i, |fields|);
    if fields[i].rule.Required? {
      forall c: nat | c < MAX_REQUIRED ensures Bit(SetBit(words, b), c) <==> c == b || Bit(words, c) {
        OneBitIsSet(words, b, c);
      }
      forall j | 0 <= j < |fields| && fields[j].rule.Required? && j != i ensures RequiredBefore(fields, j) != b {
        OtherNumber(fields, i, j);
      }
    }
  }

  /** All bits below the number of required fields are set just if every required field has been seen. */
  lemma AllMarked(fields: seq<Field>, words: seq<seq<bool>>, seen: set<nat>)
    requires Marked(fields, words, seen)
    ensures (forall b :: 0 <= b < RequiredBefore(fields, |fields|) ==> Bit(words, b)) <==> Complete(fields, seen)
  {
    forall b | 0 <= b < RequiredBefore(fields, |fields|) && Complete(fields, seen) ensures Bit(words, b) {
      var i := NumberedField(fields, |fields|, b);
    }
    forall i | 0 <= i < |fields| && fields[i].rule.Required?
      ensures RequiredBefore(fields, i) < RequiredBefore(fields, |fields|)
    {
      RequiredAscend(fields, i, |fields|);
    }
  }

  /** The words a message with `required` required fields must have: whole words, and the low bits of the next. */
  lemma WordsAreFull(words: seq<seq<bool>>, required: nat)
    requires |words| == 2 && |words[0]| == |words[1]| == 32 && required < MAX_REQUIRED
    requires forall b :: required <= b < MAX_REQUIRED ==> !Bit(words, b)
    ensures (forall b :: 0 <= b < required ==> Bit(words, b)) <==>
            (forall w :: 0 <= w < required / 32 ==> words[w] == LowBits(32))
              && words[required / 32] == LowBits(required % 32)
  {
    var last := required / 32;
    if forall b :: 0 <= b < required ==> Bit(words, b) {
      forall w, i | 0 <= w <= last && 0 <= i < 32 ensures words[w][i] == (w < last || i < required % 32) {
        assert Bit(words, 32 * w + i) == words[w][i];
      }
      assert words[last] == LowBits(required % 32);
    }
    if (forall w :: 0 <= w < last ==> words[w] == LowBits(32)) && words[last] == LowBits(required % 32) {
      forall b | 0 <= b < required ensures Bit(words, b) {
        assert b / 32 < last || (b / 32 == last && b % 32 < required % 32);
      }
    }
  }

  /** A word with its lowest `n` bits set. */
  function LowBits(n: nat): (w: seq<bool>)
    ensures |w| == 32
  {
    seq(32, i => i < n)
  }

  // ---- Messages

  /** The end of pb_decode_noinit: the iterator goes on to the last field to count the required ones. */
  method AllSeen(iter: FieldIter, words: seq<seq<bool>>, ghost seen: set<nat>) returns (all: bool)
    requires iter.Valid() && Marked(iter.fields, words, seen)
             && CanBeCounted(RequiredBefore(iter.fields, |iter.fields|))
    modifies iter
    ensures all == Complete(iter.fields, seen)
  {
    var count, last, more := 0, false, true;
    while more
      invariant iter.Valid()
      invariant !more && iter.fields != [] ==>
                  count == RequiredBefore(iter.fields, |iter.fields| - 1)
                    && last == iter.fields[|iter.fields| - 1].rule.Required?
      invariant !more && iter.fields == [] ==> count == 0 && !last
      decreases more, |iter.fields| - iter.pos
    {
      count, last := iter.requiredIndex, iter.pos < |iter.fields| && iter.fields[iter.pos].rule.Required?;
      more := iter.Next();
    }
    if last {
      count := count + 1;
    }
    AllMarked(iter.fields, words, seen);
    WordsAreFull(words, count);
    if count > 0 {
      for w := 0 to count / 32
        invariant forall v :: 0 <= v < w ==> words[v] == LowBits(32)
      {
        if words[w] != LowBits(32) {
          return false;
        }
      }
      if words[count / 32] != LowBits(count % 32) {
        return false;
      }
    }
    all := true;
  }

  /** pb_decode_noinit. */
  method DecodeNoInit(s: IStream, d: Descriptor, start: seq<seq<Value>>) returns (r: Option<seq<seq<Value>>>)
    requires Good(d) && |start| == |d.fields|
    modifies s
    ensures r == DecodeMessage(d, start, {}, old(s.rest))
    decreases d, 0
  {
    var words := [LowBits(0), LowBits(0)];
    var iter := new FieldIter(d.fields);
    var m := start;
    ghost var seen: set<nat> := {};
    StartsUnmarked(d);
    while s.rest != []
      invariant iter.Valid() && fresh(iter) && iter.fields == d.fields && |m| == |d.fields|
      invariant Marked(d.fields, words, seen)
      invariant DecodeMessage(d, start, {}, old(s.rest)) == DecodeMessage(d, m, seen, s.rest)
      decreases |s.rest|
    {
      ghost var left := s.rest;
      var ok, eof, wire, tag := s.DecodeTag();
      if !ok && eof {
        break;
      }
      if !ok {
        return None;
      }
      var found := iter.Find(tag);
      if !found {
        TurnOfOther(d, m, seen, left);
        var skipped := s.SkipField(wire);
        if !skipped {
          return None;
        }
      } else if d.fields == [] {
        TurnOfOther(d, m, seen, left);
        return None;  // the terminator: a number of no valid size
      } else {
        var i := iter.pos;
        TurnOfField(d, m, seen, left, i);
        MarkOne(d.fields, words, seen, i);
        if d.fields[i].rule.Required? && iter.requiredIndex < MAX_REQUIRED {
          var b := iter.requiredIndex;
          words := SetBit(words, b);
        }
        var vs := DecodeField(s, d.fields[i], m[i], wire);
        if vs.None? {
          return None;
        }
        m := WithField(d.fields, m, i, vs.value);
        seen := seen + {i};
      }
    }
    var all := AllSeen(iter, words, seen);
    r := if all then Some(m) else None;
  }

  lemma StartsUnmarked(d: Descriptor)
    requires Good(d)
    ensures Marked(d.fields, [LowBits(0), LowBits(0)], {}) && CanBeCounted(RequiredBefore(d.fields, |d.fields|))
  {
    forall i | 0 <= i < |d.fields| ensures RequiredBefore(d.fields, i) <= RequiredBefore(d.fields, |d.fields|) {
      RequiredAscend(d.fields, i, |d.fields|);
    }
  }

  /** pb_decode. */
  method Decode(s: IStream, d: Descriptor) returns (r: Option<seq<seq<Value>>>)
    requires Good(d)
    modifies s
    ensures r == PbDecoding.Decode(d, old(s.rest))
  {
    r := DecodeNoInit(s, d, Defaults(d));
  }
}
