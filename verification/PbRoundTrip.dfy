/**
 Decoding what was encoded: the same fields are present with the same items, just if every
 string that is present has a NUL within its bounds. The encoder writes a string without
 one; the decoder has no room for it.
 */
module PbRoundTrip {
  import opened Options
  import opened Words
  import opened Coding
  import opened PbTypes
  import opened PbEncoding
  import opened PbDecoding

  const SIZE_LIMIT: nat := 0x1_0000_0000  // sizes are read as 32-bit numbers

  // ---- Numbers

  lemma ByteIsKept(n: int)
    requires -0x80 <= n < 0x80
    ensures Signed(Unsigned(n), 1) == n
  {
    assert n < 0 ==> Unsigned(n) == 0xff_ffff_ffff_ffff * 0x100 + (n + 0x100);
  }

  lemma ShortIsKept(n: int)
    requires -0x8000 <= n < 0x8000
    ensures Signed(Unsigned(n), 2) == n
  {
    assert n < 0 ==> Unsigned(n) == 0xffff_ffff_ffff * 0x1_0000 + (n + 0x1_0000);
  }

  lemma IntIsKept(n: int)
    requires -0x8000_0000 <= n < 0x8000_0000
    ensures Signed(Unsigned(n), 4) == n
  {
    assert n < 0 ==> Unsigned(n) == 0xffff_ffff * 0x1_0000_0000 + (n + 0x1_0000_0000);
  }

  lemma LongIsKept(n: int)
    requires -0x8000_0000_0000_0000 <= n < 0x8000_0000_0000_0000
    ensures Signed(Unsigned(n), 8) == n
  {
  }

  /** A number of any width comes back from its 64-bit form, through the casts of the decoder. */
  lemma SignedIsUndone(n: int, size: nat)
    requires IsWidth(size) && -(Half(size) as int) <= n < Half(size)
    ensures 0 <= Unsigned(n) < 0x1_0000_0000_0000_0000 && CheckedVarint(Unsigned(n), size) == Some(n)
  {
    hide Signed;
    if size == 8 {
      LongIsKept(n);
    } else {
      IntIsKept(n);
      if size == 1 {
        ByteIsKept(n);
      } else if size == 2 {
        ShortIsKept(n);
      }
    }
  }

  lemma ZigZagIsUndone(n: int, size: nat)
    requires IsWidth(size) && -(Half(size) as int) <= n < Half(size)
    ensures ZigZag(n) < 0x1_0000_0000_0000_0000 && UnZigZag(ZigZag(n)) == n
            && CheckedSVarint(ZigZag(n), size) == Some(n)
  {
  }

  lemma {:induction false} NoNul(s: seq<byte>)
    requires 0 !in s
    ensures UpToNul(s) == s
  {
    if s != [] {
      NoNul(s[1..]);
    }
  }

  lemma NumberIsRead(k: Kind, v: Value, rest: seq<byte>)
    requires GoodKind(k) && ItemTyped(k, v) && k.Packable()
    ensures DecodeScalar(k, ItemBytes(k, v) + rest) == Some(Parsed(v, rest))
  {
    hide EncodeVarint, ParseVarint64, EncodeFixed32, DecodeFixed32, EncodeFixed64, DecodeFixed64, CheckedVarint,
        CheckedSVarint, Unsigned;
    match k
    case Varint(size) =>
      SignedIsUndone(v.n, size);
      Varint64RoundTrip(Unsigned(v.n), rest);
    case UVarint(size) =>
      Varint64RoundTrip(v.n, rest);
    case SVarint(size) =>
      ZigZagIsUndone(v.n, size);
      Varint64RoundTrip(ZigZag(v.n), rest);
    case Fixed32 =>
      Fixed32RoundTrip(v.n, rest);
      assert (EncodeFixed32(v.n) + rest)[4..] == rest;
    case Fixed64 =>
      Fixed64RoundTrip(v.n, rest);
      assert (EncodeFixed64(v.n) + rest)[8..] == rest;
  }

  lemma ScalarIsRead(k: Kind, v: Value, rest: seq<byte>)
    requires GoodKind(k) && ItemTyped(k, v) && ItemFits(k, v) && !k.Submessage? && |ItemBytes(k, v)| < SIZE_LIMIT
    ensures DecodeScalar(k, ItemBytes(k, v) + rest) == if ItemTerminated(k, v) then Some(Parsed(v, rest)) else None
  {
    if k.Packable() {
      NumberIsRead(k, v, rest);
    } else {
      hide ParseString;
      StringRoundTrip(v.bytes, rest);
      if k.Text? {
        NoNul(v.bytes);
      }
    }
  }

  lemma StringIsLonger(data: seq<byte>)
    ensures |data| < |EncodeString(data)|
  {
  }

  // ---- Items

  lemma {:induction false} PackedAreRead(k: Kind, vs: seq<Value>, max: nat, done: seq<Value>)
    requires GoodKind(k) && AllTyped(k, vs) && k.Packable() && |done| + |vs| <= max
    ensures DecodePacked(k, done, max, ItemsBytes(k, vs)) == Some(done + vs)
    decreases |vs|
  {
    hide DecodeScalar, ItemBytes;
    if vs == [] {
      assert done + vs == done;
    } else {
      NumberIsRead(k, vs[0], ItemsBytes(k, vs[1..]));
      NotEmpty(k, vs[0]);
      PackedAreRead(k, vs[1..], max, done + [vs[0]]);
      assert done + [vs[0]] + vs[1..] == done + vs;
    }
  }

  lemma NotEmpty(k: Kind, v: Value)
    requires GoodKind(k) && ItemTyped(k, v)
    ensures ItemBytes(k, v) != []
  {
  }

  /** An item of any type, read into defaults. */
  lemma {:induction false} ItemIsRead(k: Kind, v: Value, rest: seq<byte>)
    requires GoodKind(k) && ItemTyped(k, v) && ItemFits(k, v) && |ItemBytes(k, v)| < SIZE_LIMIT
    ensures DecodeItem(k, DefaultItem(k), ItemBytes(k, v) + rest) == if ItemTerminated(k, v) then Some(Parsed(v, rest))
            else None
    decreases k, 0
  {
    if k.Submessage? {
      hide ParseString, EncodeString;
      StringRoundTrip(MessageBytes(k.desc, v.items, 0), rest);
      MixedStarts(k.desc, v.items);
      FieldsAreRead(k.desc, v.items, 0, {});
    } else {
      ScalarIsRead(k, v, rest);
    }
  }

  // ---- Fields

  lemma TagIsRead(tag: nat, wire: nat, rest: seq<byte>)
    requires 0 < tag < TAG_LIMIT && wire < 8
    ensures ReadTag(TagBytes(tag, wire) + rest) == Tag(tag, wire, rest) && TagBytes(tag, wire) + rest != []
  {
    Varint32RoundTrip(tag * 8 + wire, rest);
  }

  /** One turn of the decoder's loop, for a field with the given tag. */
  lemma OneTurn(d: Descriptor, m: seq<seq<Value>>, seen: set<nat>, i: nat, wire: nat, s: seq<byte>)
    requires Good(d) && |m| == |d.fields| && i < |d.fields| && wire < 8
    ensures GoodField(d.fields[i])
    ensures var vs := DecodeField(d.fields[i], m[i], wire, s);
            DecodeMessage(d, m, seen, TagBytes(d.fields[i].tag, wire) + s) ==
              if vs.None? then None else DecodeMessage(d, WithField(d.fields, m, i, vs.value.value), seen + {i},
                  vs.value.rest)
  {
    hide DecodeField, ReadTag, TagBytes, WithField, IndexOf;
    TagIsRead(d.fields[i].tag, wire, s);
    TagIsFound(d.fields, i);
  }

  /** The first `i` fields of a message, and defaults for the rest. */
  ghost function Mixed(d: Descriptor, m: seq<seq<Value>>, i: nat): (r: seq<seq<Value>>)
    requires |m| == |d.fields| && i <= |m|
    ensures |r| == |m|
  {
    seq(|m|, j requires 0 <= j < |m| => if j < i then m[j] else DefaultField(d.fields[j]))
  }

  lemma MixedStarts(d: Descriptor, m: seq<seq<Value>>)
    requires |m| == |d.fields|
    ensures Mixed(d, m, 0) == Defaults(d) && Mixed(d, m, |m|) == m
  {
  }

  /** With field `i` the oneof it belongs to is as in the message. */
  lemma MixedGrows(d: Descriptor, m: seq<seq<Value>>, i: nat)
    requires Good(d) && Typed(d, m) && i < |m|
    ensures Mixed(d, m, i + 1) == if m[i] == [] then Mixed(d, m, i) else WithField(d.fields, Mixed(d, m, i), i, m[i])
  {
    assert FieldTyped(d.fields[i], m[i]);
    hide FieldTyped;
    forall j | 0 <= j < |m| && m[i] != []
      ensures Mixed(d, m, i + 1)[j] == WithField(d.fields, Mixed(d, m, i), i, m[i])[j]
    {
      if j < i {
        assert SameGroup(d.fields[j], d.fields[i]) <==> SameGroup(d.fields[i], d.fields[j]);
      }
    }
  }

  /** Items of one field, the later ones into what the earlier ones left. */
  function After(f: Field, before: seq<Value>, vs: seq<Value>): seq<Value> {
    if f.rule.Repeated? then before + vs else vs
  }

  ghost predicate AllTerminated(k: Kind, vs: seq<Value>)
    requires GoodKind(k) && AllTyped(k, vs)
  {
    forall j :: 0 <= j < |vs| ==> ItemTerminated(k, vs[j])
  }

  ghost predicate AllFit(k: Kind, vs: seq<Value>)
    requires GoodKind(k) && AllTyped(k, vs)
  {
    forall j :: 0 <= j < |vs| ==> ItemFits(k, vs[j])
  }

  lemma {:induction false} ItemTurn(d: Descriptor, m: seq<seq<Value>>, seen: set<nat>, i: nat, v: Value,
      rest: seq<byte>)
    requires Good(d) && |m| == |d.fields| && i < |d.fields| && GoodField(d.fields[i])
    requires var f := d.fields[i];
             && ItemTyped(f.kind, v) && ItemFits(f.kind, v) && |ItemBytes(f.kind, v)| < SIZE_LIMIT
             && if f.rule.Repeated? then |m[i]| < f.rule.max else m[i] == DefaultField(f)
    ensures var f := d.fields[i];
            DecodeMessage(d, m, seen, TagBytes(f.tag, WireType(f.kind)) + (ItemBytes(f.kind, v) + rest)) ==
              if ItemTerminated(f.kind, v) then DecodeMessage(d, WithField(d.fields, m, i, After(f, m[i], [v])),
                  seen + {i}, rest)
              else None
    decreases d.fields[i].kind, 1
  {
    hide DecodeMessage, TagBytes, ItemBytes, WithField, DecodeItem;
    var f := d.fields[i];
    OneTurn(d, m, seen, i, WireType(f.kind), ItemBytes(f.kind, v) + rest);
    ItemIsRead(f.kind, v, rest);
    assert Base(f, m[i]) == DefaultItem(f.kind);
  }

  lemma FieldTwice(fields: seq<Field>, m: seq<seq<Value>>, i: nat, a: seq<Value>, b: seq<Value>)
    requires |m| == |fields| && i < |fields|
    ensures WithField(fields, WithField(fields, m, i, a), i, b) == WithField(fields, m, i, b)
            && WithField(fields, m, i, a)[i] == a
  {
  }

  lemma {:induction false} TaggedAreRead(d: Descriptor, m: seq<seq<Value>>, seen: set<nat>, i: nat, vs: seq<Value>,
      rest: seq<byte>)
    requires Good(d) && |m| == |d.fields| && i < |d.fields| && GoodField(d.fields[i]) && vs != []
    requires var f := d.fields[i];
             && AllTyped(f.kind, vs) && AllFit(f.kind, vs) && |TaggedBytes(f.tag, f.kind, vs)| < SIZE_LIMIT
             && if f.rule.Repeated? then |m[i]| + |vs| <= f.rule.max else |vs| == 1 && m[i] == DefaultField(f)
    ensures var f := d.fields[i];
            DecodeMessage(d, m, seen, TaggedBytes(f.tag, f.kind, vs) + rest) ==
              if AllTerminated(f.kind, vs) then DecodeMessage(d, WithField(d.fields, m, i, After(f, m[i], vs)),
                  seen + {i}, rest)
              else None
    decreases d.fields[i].kind, 2, |vs|
  {
    hide DecodeMessage, TagBytes, ItemBytes, WithField, ItemTyped, ItemFits, ItemTerminated, GoodKind;
    var f := d.fields[i];
    var tag, item, more := TagBytes(f.tag, WireType(f.kind)), ItemBytes(f.kind, vs[0]),
        TaggedBytes(f.tag, f.kind, vs[1..]);
    Append3(tag, item + more, rest);
    Append3(item, more, rest);
    ItemTurn(d, m, seen, i, vs[0], more + rest);
    if |vs| == 1 {
      assert vs == [vs[0]] && more + rest == rest;
    } else {
      var m' := WithField(d.fields, m, i, After(f, m[i], [vs[0]]));
      FieldTwice(d.fields, m, i, m[i] + [vs[0]], m[i] + vs);
      assert m[i] + [vs[0]] + vs[1..] == m[i] + vs && seen + {i} + {i} == seen + {i};
      TaggedAreRead(d, m', seen + {i}, i, vs[1..], rest);
      assert AllTerminated(f.kind, vs) <==> ItemTerminated(f.kind, vs[0]) && AllTerminated(f.kind, vs[1..]);
    }
  }

  lemma {:induction false} FieldIsRead(d: Descriptor, m: seq<seq<Value>>, seen: set<nat>, i: nat, vs: seq<Value>,
      rest: seq<byte>)
    requires Good(d) && |m| == |d.fields| && i < |d.fields| && GoodField(d.fields[i]) && vs != []
             && m[i] == DefaultField(d.fields[i])
    requires FieldTyped(d.fields[i], vs) && FieldFits(d.fields[i], vs) && |FieldBytes(d.fields[i], vs)| < SIZE_LIMIT
    ensures DecodeMessage(d, m, seen, FieldBytes(d.fields[i], vs) + rest) ==
              if FieldTerminated(d.fields[i], vs) then DecodeMessage(d, WithField(d.fields, m, i, vs), seen + {i},
                  rest) else None
    decreases d.fields[i].kind, 3
  {
    hide DecodeMessage, TagBytes, ItemBytes, WithField, ParseString, EncodeString, ItemTyped, ItemFits, GoodKind;
    var f := d.fields[i];
    if f.rule.Repeated? && f.kind.Packable() {
      var items := ItemsBytes(f.kind, vs);
      StringIsLonger(items);
      Append3(TagBytes(f.tag, WT_STRING), EncodeString(items), rest);
      OneTurn(d, m, seen, i, WT_STRING, EncodeString(items) + rest);
      StringRoundTrip(items, rest);
      PackedAreRead(f.kind, vs, f.rule.max, []);
      assert [] + vs == vs;
    } else {
      TaggedAreRead(d, m, seen, i, vs, rest);
      assert [] + vs == vs;
    }
  }

  ghost predicate TerminatedFrom(d: Descriptor, m: seq<seq<Value>>, i: nat)
    requires Good(d) && Typed(d, m)
  {
    forall j :: i <= j < |d.fields| ==> FieldTerminated(d.fields[j], m[j])
  }

  /** Once the first `i` fields have been read, reading the rest completes the message. */
  lemma {:induction false} FieldsAreRead(d: Descriptor, m: seq<seq<Value>>, i: nat, seen: set<nat>)
    requires Good(d) && Typed(d, m) && Fits(d, m) && i <= |d.fields| && |MessageBytes(d, m, i)| < SIZE_LIMIT
    requires forall j :: 0 <= j < i && d.fields[j].rule.Required? ==> j in seen
    ensures DecodeMessage(d, Mixed(d, m, i), seen, MessageBytes(d, m, i)) ==
              if TerminatedFrom(d, m, i) then Some(m) else None
    decreases d, |d.fields| - i
  {
    if i == |d.fields| {
      MixedStarts(d, m);
    } else {
      FieldOf(d, m, i);
      hide DecodeMessage, FieldBytes, WithField, FieldTyped, FieldFits, FieldTerminated, GoodField, Mixed, Typed,
          Fits, Good;
      var f, rest := d.fields[i], MessageBytes(d, m, i + 1);
      MixedGrows(d, m, i);
      if m[i] == [] {
        AbsentField(f);
        FieldsAreRead(d, m, i + 1, seen);
        assert FieldBytes(f, m[i]) + rest == rest;
      } else {
        MixedAt(d, m, i);
        FieldIsRead(d, Mixed(d, m, i), seen, i, m[i], rest);
        FieldsAreRead(d, m, i + 1, seen + {i});
      }
    }
  }

  lemma FieldOf(d: Descriptor, m: seq<seq<Value>>, i: nat)
    requires Good(d) && Typed(d, m) && Fits(d, m) && i < |d.fields|
    ensures |m| == |d.fields| && GoodField(d.fields[i]) && FieldTyped(d.fields[i], m[i]) && FieldFits(d.fields[i], m[i])
    ensures MessageBytes(d, m, i) == FieldBytes(d.fields[i], m[i]) + MessageBytes(d, m, i + 1)
  {
  }

  lemma MixedAt(d: Descriptor, m: seq<seq<Value>>, i: nat)
    requires |m| == |d.fields| && i < |m|
    ensures Mixed(d, m, i)[i] == DefaultField(d.fields[i])
  {
  }

  lemma AbsentField(f: Field)
    requires GoodField(f) && FieldTyped(f, [])
    ensures FieldBytes(f, []) == [] && FieldTerminated(f, []) && !f.rule.Required?
  {
  }

  /**
   For every message of every type: what the encoder writes, the decoder makes into the same
   message just if all its strings are terminated, and else it fails.
   */
  lemma MessageRoundTrip(d: Descriptor, m: seq<seq<Value>>)
    requires Good(d) && Typed(d, m) && Fits(d, m) && |MessageBytes(d, m, 0)| < SIZE_LIMIT
    ensures Decode(d, MessageBytes(d, m, 0)) == if Terminated(d, m) then Some(m) else None
  {
    MixedStarts(d, m);
    FieldsAreRead(d, m, 0, {});
  }

  /** A message type with one string, in a buffer of one character. */
  const TEXT_TYPE: Descriptor := Descriptor([Field(1, Optional, Text(1))])

  /** The buffer holds the character A and no NUL. */
  const FULL_BUFFER: seq<seq<Value>> := [[Data([65])]]

  /** Tag 1 with wire type 2, length 1, and the A: the encoder writes it and the decoder refuses it. */
  lemma FullBufferIsNotReadBack()
    ensures Good(TEXT_TYPE) && Typed(TEXT_TYPE, FULL_BUFFER) && Fits(TEXT_TYPE, FULL_BUFFER)
    ensures MessageBytes(TEXT_TYPE, FULL_BUFFER, 0) == [10, 1, 65]
    ensures Decode(TEXT_TYPE, [10, 1, 65]) == None
  {
    hide Decode;
    var f := TEXT_TYPE.fields[0];
    assert RequiredBefore(TEXT_TYPE.fields, 1) == 0;
    assert GoodField(f) && FieldTyped(f, FULL_BUFFER[0]) && FieldFits(f, FULL_BUFFER[0]);
    var item := ItemBytes(f.kind, Data([65]));
    assert item == [1, 65];
    assert TaggedBytes(1, f.kind, [Data([65])]) == [10] + (item + []);
    assert !ItemTerminated(f.kind, FULL_BUFFER[0][0]);
    assert !FieldTerminated(f, FULL_BUFFER[0]);
    MessageRoundTrip(TEXT_TYPE, FULL_BUFFER);
  }

  // ---- Fields the reader does not know

  lemma {:induction false} VarintIsSkipped(v: nat, rest: seq<byte>)
    ensures SkipVarint(EncodeVarint(v) + rest) == Some(rest)
    decreases v
  {
    var s := EncodeVarint(v) + rest;
    if v < 128 {
      assert s[1..] == rest;
    } else {
      assert s[1..] == EncodeVarint(v / 128) + rest;
      VarintIsSkipped(v / 128, rest);
    }
  }

  lemma ItemIsSkipped(k: Kind, v: Value, rest: seq<byte>)
    requires GoodKind(k) && ItemTyped(k, v) && |ItemBytes(k, v)| < SIZE_LIMIT
    ensures Skip(WireType(k), ItemBytes(k, v) + rest) == Some(rest)
  {
    hide ParseString, EncodeVarint, SkipVarint, MessageBytes;
    match k
    case Varint(_) => VarintIsSkipped(Unsigned(v.n), rest);
    case UVarint(_) => VarintIsSkipped(v.n, rest);
    case SVarint(_) => VarintIsSkipped(ZigZag(v.n), rest);
    case Fixed32 => assert (EncodeFixed32(v.n) + rest)[4..] == rest;
    case Fixed64 => assert (EncodeFixed64(v.n) + rest)[8..] == rest;
    case Submessage(desc) => StringRoundTrip(MessageBytes(desc, v.items, 0), rest);
    case _ => StringRoundTrip(v.bytes, rest);
  }

  /** One turn of the decoder's loop, for a tag it does not know. */
  lemma SkippingTurn(d: Descriptor, m: seq<seq<Value>>, seen: set<nat>, tag: nat, wire: nat, s: seq<byte>,
      rest: seq<byte>)
    requires Good(d) && |m| == |d.fields| && 0 < tag < TAG_LIMIT && wire < 8
    requires forall i :: 0 <= i < |d.fields| ==> d.fields[i].tag != tag
    requires Skip(wire, s) == Some(rest)
    ensures DecodeMessage(d, m, seen, TagBytes(tag, wire) + s) == DecodeMessage(d, m, seen, rest)
  {
    hide Skip, ReadTag, TagBytes, IndexOf, DecodeField;
    TagIsRead(tag, wire, s);
  }

  lemma {:induction false} TaggedAreSkipped(d: Descriptor, m: seq<seq<Value>>, seen: set<nat>, tag: nat, k: Kind,
      vs: seq<Value>, rest: seq<byte>)
    requires Good(d) && |m| == |d.fields| && 0 < tag < TAG_LIMIT
    requires forall i :: 0 <= i < |d.fields| ==> d.fields[i].tag != tag
    requires GoodKind(k) && AllTyped(k, vs) && |TaggedBytes(tag, k, vs)| < SIZE_LIMIT
    ensures DecodeMessage(d, m, seen, TaggedBytes(tag, k, vs) + rest) == DecodeMessage(d, m, seen, rest)
    decreases |vs|
  {
    if vs == [] {
      assert TaggedBytes(tag, k, vs) + rest == rest;
    } else {
      hide DecodeMessage, TagBytes, ItemBytes, Skip, ItemTyped, Good, GoodKind;
      var head, item, more := TagBytes(tag, WireType(k)), ItemBytes(k, vs[0]), TaggedBytes(tag, k, vs[1..]);
      Append3(head, item + more, rest);
      Append3(item, more, rest);
      ItemIsSkipped(k, vs[0], more + rest);
      SkippingTurn(d, m, seen, tag, WireType(k), item + (more + rest), more + rest);
      TaggedAreSkipped(d, m, seen, tag, k, vs[1..], rest);
    }
  }

  /** A reader of another message type passes over fields whose tags it does not know, of any type. */
  lemma UnknownFieldIsSkipped(d: Descriptor, m: seq<seq<Value>>, seen: set<nat>, f: Field, vs: seq<Value>,
      rest: seq<byte>)
    requires Good(d) && |m| == |d.fields| && GoodField(f) && FieldTyped(f, vs) && |FieldBytes(f, vs)| < SIZE_LIMIT
    requires forall i :: 0 <= i < |d.fields| ==> d.fields[i].tag != f.tag
    ensures DecodeMessage(d, m, seen, FieldBytes(f, vs) + rest) == DecodeMessage(d, m, seen, rest)
  {
    hide DecodeMessage, TagBytes, ItemBytes, Skip, Good, ItemTyped, GoodKind, EncodeString, ParseString;
    if vs != [] && f.rule.Repeated? && f.kind.Packable() {
      var items := ItemsBytes(f.kind, vs);
      StringIsLonger(items);
      Append3(TagBytes(f.tag, WT_STRING), EncodeString(items), rest);
      StringIsSkipped(items, rest);
      SkippingTurn(d, m, seen, f.tag, WT_STRING, EncodeString(items) + rest, rest);
    } else {
      TaggedAreSkipped(d, m, seen, f.tag, f.kind, vs, rest);
    }
  }

  lemma StringIsSkipped(data: seq<byte>, rest: seq<byte>)
    requires |data| < SIZE_LIMIT
    ensures Skip(WT_STRING, EncodeString(data) + rest) == Some(rest)
  {
    hide ParseString, EncodeString;
    StringRoundTrip(data, rest);
  }
}
