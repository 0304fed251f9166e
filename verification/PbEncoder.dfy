/**
 The encoder of nanopb (pb_encode.c). A stream that only counts and one that writes run the
 same code; a submessage is counted first and then written.
 */
module PbEncoder {
  import opened Words
  import opened Coding
  import opened PbTypes
  import opened PbEncoding
  import opened PbFieldIter

  class OStream {
    const sizing: bool     // callback == NULL
    const maxSize: nat
    var state: seq<byte>   // what has been written to the buffer
    var bytesWritten: nat

    constructor (sizing: bool, maxSize: nat, state: seq<byte>)
      ensures Valid() && this.sizing == sizing && this.maxSize == maxSize && this.state == state && bytesWritten == 0
    {
      this.sizing, this.maxSize, this.state, this.bytesWritten := sizing, maxSize, state, 0;
    }

    /** A stream never holds more than there is room for. */
    ghost predicate Valid()
      reads this
    {
      sizing || bytesWritten <= maxSize
    }

    ghost predicate Room(n: nat)
      reads this
    {
      sizing || bytesWritten + n <= maxSize
    }

    /** What has become of the stream when `b` was written to it as it was. */
    twostate predicate Wrote(b: seq<byte>)
      reads this
    {
      bytesWritten == old(bytesWritten) + |b| && state == old(state) + if sizing then [] else b
    }

    /** With `b` still to be written, the stream will end with `n` bytes and the buffer as `end`. */
    ghost predicate Ends(b: seq<byte>, n: nat, end: seq<byte>)
      reads this
    {
      bytesWritten + |b| == n && state + (if sizing then [] else b) == end
    }

    /** pb_write. */
    method Write(buf: seq<byte>) returns (ok: bool)
      requires Valid()
      modifies this
      ensures Valid() && ok == old(Room(|buf|))
      ensures ok ==> Wrote(buf)
    {
      if !sizing {
        if bytesWritten + |buf| > maxSize {
          return false;
        }
        state := state + buf;
      }
      bytesWritten := bytesWritten + |buf|;
      return true;
    }

    /** pb_write with no buffer, when just sizing. */
    method Count(n: nat)
      requires sizing
      modifies this
      ensures Valid() && bytesWritten == old(bytesWritten) + n && state == old(state)
    {
      bytesWritten := bytesWritten + n;
    }

    /** pb_encode_varint. */
    method EncodeVarint(value: nat) returns (ok: bool)
      requires Valid()
      modifies this
      ensures Valid() && ok == old(Room(|Coding.EncodeVarint(value)|))
      ensures ok ==> Wrote(Coding.EncodeVarint(value))
    {
      if value <= 0x7f {
        assert [value] == Coding.EncodeVarint(value);
        ok := Write([value]);
        return;
      }
      var buffer: seq<byte>, v: nat := [], value;
      while v != 0
        invariant unchanged(this)
        invariant v > 0 ==> buffer + Coding.EncodeVarint(v) == Coding.EncodeVarint(value)
        invariant v == 0 ==> buffer != [] && buffer[|buffer| - 1] >= 0x80
        invariant v == 0 ==> buffer[|buffer| - 1 := buffer[|buffer| - 1] - 0x80] == Coding.EncodeVarint(value)
      {
        LastOrMore(buffer, v);
        buffer := buffer + [v % 0x80 + 0x80];
        v := v / 0x80;
      }
      buffer := buffer[|buffer| - 1 := buffer[|buffer| - 1] - 0x80];
      assert buffer == Coding.EncodeVarint(value);
      ok := Write(buffer);
    }

    method EncodeTag(wire: nat, tag: nat) returns (ok: bool)
      requires tag < TAG_LIMIT && wire < 8
      requires Valid()
      modifies this
      ensures Valid() && ok == old(Room(|TagBytes(tag, wire)|))
      ensures ok ==> Wrote(TagBytes(tag, wire))
    {
      ok := EncodeVarint(tag * 8 + wire);
    }

    /** pb_encode_string. */
    method EncodeString(buffer: seq<byte>) returns (ok: bool)
      requires Valid()
      modifies this
      ensures Valid() && ok == old(Room(|Coding.EncodeString(buffer)|))
      ensures ok ==> Wrote(Coding.EncodeString(buffer))
    {
      ok := EncodeVarint(|buffer|);
      if ok {
        Append3(old(state), Coding.EncodeVarint(|buffer|), buffer);
        ok := Write(buffer);
      }
    }
  }

  /** One more byte of a number: all of what is left with the top bit, or the next seven bits. */
  lemma LastOrMore(buffer: seq<byte>, v: nat)
    requires v > 0
    ensures var b := buffer + [v % 0x80 + 0x80];
            if v / 0x80 == 0 then b[|b| - 1 := b[|b| - 1] - 0x80] == buffer + Coding.EncodeVarint(v)
            else b + Coding.EncodeVarint(v / 0x80) == buffer + Coding.EncodeVarint(v)
  {
    if v < 0x80 {
      assert Coding.EncodeVarint(v) == [v];
    } else {
      assert Coding.EncodeVarint(v) == [v % 0x80 + 0x80] + Coding.EncodeVarint(v / 0x80);
      Append3(buffer, [v % 0x80 + 0x80], Coding.EncodeVarint(v / 0x80));
    }
  }

  /** Of what is still to be written, the first part may be written by itself. */
  lemma EndsLater(s: OStream, a: seq<byte>, b: seq<byte>, n: nat, end: seq<byte>)
    requires s.Ends(a + b, n, end)
    ensures s.bytesWritten + |a| + |b| == n
    ensures s.state + (if s.sizing then [] else a) + (if s.sizing then [] else b) == end
  {
    Append3(s.state, a, b);
  }

  // ---- Fields

  lemma ItemsSplit(k: Kind, vs: seq<Value>, i: nat)
    requires GoodKind(k) && AllTyped(k, vs) && i < |vs|
    ensures ItemTyped(k, vs[i]) && ItemsBytes(k, vs[i..]) == ItemBytes(k, vs[i]) + ItemsBytes(k, vs[i + 1..])
  {
    assert vs[i..][0] == vs[i] && vs[i..][1..] == vs[i + 1..];
  }

  lemma TaggedSplit(tag: nat, k: Kind, vs: seq<Value>, i: nat)
    requires GoodKind(k) && AllTyped(k, vs) && i < |vs|
    ensures ItemTyped(k, vs[i])
    ensures TaggedBytes(tag, k, vs[i..]) == TagBytes(tag, WireType(k)) + ItemBytes(k, vs[i]) +
            TaggedBytes(tag, k, vs[i + 1..])
  {
    hide TagBytes, ItemBytes;
    assert vs[i..][0] == vs[i] && vs[i..][1..] == vs[i + 1..];
    Append3(TagBytes(tag, WireType(k)), ItemBytes(k, vs[i]), TaggedBytes(tag, k, vs[i + 1..]));
  }

  lemma NothingLeft(tag: nat, k: Kind, vs: seq<Value>)
    requires GoodKind(k) && AllTyped(k, vs)
    ensures ItemsBytes(k, vs[|vs|..]) == [] && TaggedBytes(tag, k, vs[|vs|..]) == []
    ensures vs[0..] == vs
  {
  }

  lemma PackableFits(k: Kind, v: Value)
    requires GoodKind(k) && k.Packable() && ItemTyped(k, v)
    ensures ItemFits(k, v)
  {
  }

  /** Fixed-width items have the size the encoder multiplies with. */
  lemma {:induction false} FixedSize(k: Kind, vs: seq<Value>)
    requires GoodKind(k) && AllTyped(k, vs)
    ensures k.Fixed32? ==> |ItemsBytes(k, vs)| == 4 * |vs|
    ensures k.Fixed64? ==> |ItemsBytes(k, vs)| == 8 * |vs|
    decreases |vs|
  {
    if vs != [] {
      FixedSize(k, vs[1..]);
    }
  }

  /** The encoder of an item of any type. */
  method EncodeItem(s: OStream, k: Kind, v: Value) returns (ok: bool)
    requires GoodKind(k) && ItemTyped(k, v)
    requires s.Valid()
    modifies s
    ensures s.Valid() && ok == (ItemFits(k, v) && old(s.Room(|ItemBytes(k, v)|)))
    ensures ok ==> s.Wrote(ItemBytes(k, v))
    decreases k, 0
  {
    match k
    case Varint(_) => ok := s.EncodeVarint(Unsigned(v.n));
    case UVarint(_) => ok := s.EncodeVarint(v.n);
    case SVarint(_) => ok := s.EncodeVarint(ZigZag(v.n));
    case Fixed32 => ok := s.Write(EncodeFixed32(v.n));
    case Fixed64 => ok := s.Write(EncodeFixed64(v.n));
    case Bytes(max) =>
      if |v.bytes| > max {
        return false;  // bytes size exceeded
      }
      ok := s.EncodeString(v.bytes);
    case Submessage(desc) => ok := EncodeSubmessage(s, desc, v.items);
    case _ => ok := s.EncodeString(v.bytes);
  }

  /** The bytes of a packed array, on a stream that counts. */
  method PackedSize(k: Kind, vs: seq<Value>) returns (size: nat)
    requires GoodKind(k) && AllTyped(k, vs) && k.Packable()
    ensures size == |ItemsBytes(k, vs)|
    decreases k, 1
  {
    FixedSize(k, vs);
    if k.Fixed32? {
      return 4 * |vs|;
    } else if k.Fixed64? {
      return 8 * |vs|;
    }
    var sizestream := new OStream(true, 0, []);
    assert vs[0..] == vs;
    for i := 0 to |vs|
      invariant fresh(sizestream) && sizestream.sizing && sizestream.bytesWritten + |ItemsBytes(k, vs[i..])| ==
                |ItemsBytes(k, vs)|
    {
      ItemsSplit(k, vs, i);
      var ok := EncodeItem(sizestream, k, vs[i]);
      assert ok;
    }
    size := sizestream.bytesWritten;
  }

  method EncodePackedItems(s: OStream, k: Kind, vs: seq<Value>) returns (ok: bool)
    requires GoodKind(k) && AllTyped(k, vs) && k.Packable()
    requires s.Valid()
    modifies s
    ensures s.Valid() && ok == old(s.Room(|ItemsBytes(k, vs)|))
    ensures ok ==> s.Wrote(ItemsBytes(k, vs))
    decreases k, 1
  {
    hide ItemBytes, ItemsBytes, ItemTyped, ItemFits, GoodKind;
    ghost var n, end := s.bytesWritten + |ItemsBytes(k, vs)|, s.state + if s.sizing then [] else ItemsBytes(k, vs);
    NothingLeft(0, k, vs);
    for i := 0 to |vs|
      invariant s.Valid() && s.Ends(ItemsBytes(k, vs[i..]), n, end)
    {
      ItemsSplit(k, vs, i);
      PackableFits(k, vs[i]);
      EndsLater(s, ItemBytes(k, vs[i]), ItemsBytes(k, vs[i + 1..]), n, end);
      ok := EncodeItem(s, k, vs[i]);
      if !ok {
        return;
      }
    }
    ok := true;
  }

  /** pb_encode_tag_for_field and the item. */
  method EncodeTagged(s: OStream, tag: nat, k: Kind, v: Value) returns (ok: bool)
    requires tag < TAG_LIMIT && GoodKind(k) && ItemTyped(k, v)
    requires s.Valid()
    modifies s
    ensures s.Valid() && ok == (ItemFits(k, v) && old(s.Room(|TagBytes(tag, WireType(k)) + ItemBytes(k, v)|)))
    ensures ok ==> s.Wrote(TagBytes(tag, WireType(k)) + ItemBytes(k, v))
    decreases k, 1
  {
    hide ItemBytes, TagBytes, ItemTyped, ItemFits, GoodKind;
    Append3(s.state, TagBytes(tag, WireType(k)), ItemBytes(k, v));
    ok := s.EncodeTag(WireType(k), tag);
    if ok {
      ok := EncodeItem(s, k, v);
    }
  }

  method EncodeTaggedItems(s: OStream, tag: nat, k: Kind, vs: seq<Value>) returns (ok: bool)
    requires tag < TAG_LIMIT && GoodKind(k) && AllTyped(k, vs)
    requires s.Valid()
    modifies s
    ensures s.Valid() && ok == ((forall j :: 0 <= j < |vs| ==> ItemFits(k, vs[j]))
            && old(s.Room(|TaggedBytes(tag, k, vs)|)))
    ensures ok ==> s.Wrote(TaggedBytes(tag, k, vs))
    decreases k, 2
  {
    hide ItemBytes, TaggedBytes, ItemTyped, ItemFits, GoodKind, TagBytes;
    ghost var all := TaggedBytes(tag, k, vs);
    ghost var n, end := s.bytesWritten + |all|, s.state + if s.sizing then [] else all;
    NothingLeft(tag, k, vs);
    for i := 0 to |vs|
      invariant s.Valid() && s.Ends(TaggedBytes(tag, k, vs[i..]), n, end)
      invariant forall j :: 0 <= j < i ==> ItemFits(k, vs[j])
    {
      TaggedSplit(tag, k, vs, i);
      EndsLater(s, TagBytes(tag, WireType(k)) + ItemBytes(k, vs[i]), TaggedBytes(tag, k, vs[i + 1..]), n, end);
      ok := EncodeTagged(s, tag, k, vs[i]);
      if !ok {
        return;
      }
    }
    ok := true;
  }

  /** encode_array. */
  method EncodeArray(s: OStream, f: Field, vs: seq<Value>) returns (ok: bool)
    requires GoodField(f) && FieldTyped(f, vs) && f.rule.Repeated?
    requires s.Valid()
    modifies s
    ensures s.Valid() && ok == (FieldFits(f, vs) && old(s.Room(|FieldBytes(f, vs)|)))
    ensures ok ==> s.Wrote(FieldBytes(f, vs))
    decreases f, 0
  {
    hide ItemBytes, ItemsBytes, ItemTyped, GoodKind, TagBytes, ItemFits, EncodeVarint;
    if vs == [] {
      return true;
    }
    if |vs| > f.rule.max {
      return false;  // array max size exceeded
    }
    if !f.kind.Packable() {
      ok := EncodeTaggedItems(s, f.tag, f.kind, vs);
      return;
    }
    forall j | 0 <= j < |vs| ensures ItemFits(f.kind, vs[j]) {
      PackableFits(f.kind, vs[j]);
    }
    ghost var tag, items := TagBytes(f.tag, WT_STRING), ItemsBytes(f.kind, vs);
    ghost var length := Coding.EncodeVarint(|items|);
    ghost var n, end := s.bytesWritten + |FieldBytes(f, vs)|, s.state + if s.sizing then [] else FieldBytes(f, vs);
    EndsLater(s, tag, length + items, n, end);
    ok := s.EncodeTag(WT_STRING, f.tag);
    if !ok {
      return;
    }
    var size := PackedSize(f.kind, vs);
    EndsLater(s, length, items, n, end);
    ok := s.EncodeVarint(size);
    if !ok {
      return;
    }
    if s.sizing {
      s.Count(size);
    } else {
      ok := EncodePackedItems(s, f.kind, vs);
    }
  }

  /** encode_basic_field. */
  method EncodeField(s: OStream, f: Field, vs: seq<Value>) returns (ok: bool)
    requires GoodField(f) && FieldTyped(f, vs)
    requires s.Valid()
    modifies s
    ensures s.Valid() && ok == (FieldFits(f, vs) && old(s.Room(|FieldBytes(f, vs)|)))
    ensures ok ==> s.Wrote(FieldBytes(f, vs))
    decreases f, 1
  {
    hide ItemBytes, ItemsBytes, ItemTyped, GoodKind, ItemFits;
    if f.rule.Repeated? {
      ok := EncodeArray(s, f, vs);
    } else if vs == [] {
      ok := true;
    } else {
      assert vs == [vs[0]];
      ok := EncodeTaggedItems(s, f.tag, f.kind, vs);
    }
  }

  /** pb_encode: whether it succeeds depends on the values and the room, not on whether the stream counts or writes. */
  method Encode(s: OStream, d: Descriptor, m: seq<seq<Value>>) returns (ok: bool)
    requires Good(d) && Typed(d, m)
    requires s.Valid()
    modifies s
    ensures s.Valid() && ok == (Fits(d, m) && old(s.Room(|MessageBytes(d, m, 0)|)))
    ensures ok ==> s.Wrote(MessageBytes(d, m, 0))
    decreases d, 0
  {
    hide FieldBytes, FieldTyped, FieldFits, GoodField;
    if d.fields == [] {
      return true;
    }
    ghost var all := MessageBytes(d, m, 0);
    ghost var n, end := s.bytesWritten + |all|, s.state + if s.sizing then [] else all;
    var iter := new FieldIter(d.fields);
    var more := true;
    while more
      invariant iter.Valid() && fresh(iter) && iter.fields == d.fields
      invariant s.Valid() && s.Ends(MessageBytes(d, m, if more then iter.pos else |d.fields|), n, end)
      invariant forall i :: 0 <= i < (if more then iter.pos else |d.fields|) ==> FieldFits(d.fields[i], m[i])
      decreases if more then |d.fields| - iter.pos else -1
    {
      ghost var i := iter.pos;
      EndsLater(s, FieldBytes(d.fields[i], m[i]), MessageBytes(d, m, i + 1), n, end);
      ok := EncodeField(s, iter.fields[iter.pos], m[iter.pos]);
      if !ok {
        return;
      }
      more := iter.Next();
    }
    ok := true;
  }

  /**
   pb_encode_submessage: counts the message, and then writes its size and the message itself.
   That the second pass takes as many bytes as the first is why the result is never false
   because of the last check.
   */
  method EncodeSubmessage(s: OStream, d: Descriptor, m: seq<seq<Value>>) returns (ok: bool)
    requires Good(d) && Typed(d, m)
    requires s.Valid()
    modifies s
    ensures s.Valid() && ok == (Fits(d, m) && old(s.Room(|Coding.EncodeString(MessageBytes(d, m, 0))|)))
    ensures ok ==> s.Wrote(Coding.EncodeString(MessageBytes(d, m, 0)))
    decreases d, 1
  {
    ghost var message := MessageBytes(d, m, 0);
    var substream := new OStream(true, 0, []);
    ok := Encode(substream, d, m);
    if !ok {
      return;
    }
    var size := substream.bytesWritten;
    ghost var length := Coding.EncodeVarint(size);
    Append3(s.state, length, message);
    ok := s.EncodeVarint(size);
    if !ok {
      return;
    }
    if s.sizing {
      s.Count(size);
      return;
    }
    if s.bytesWritten + size > s.maxSize {
      return false;  // stream full
    }
    substream := new OStream(false, size, s.state);
    ok := Encode(substream, d, m);
    s.bytesWritten := s.bytesWritten + substream.bytesWritten;
    s.state := substream.state;
    if substream.bytesWritten != size {
      assert false;  // submsg size changed
    }
  }

  /** pb_get_encoded_size: the bytes that encoding takes. */
  method GetEncodedSize(d: Descriptor, m: seq<seq<Value>>) returns (ok: bool, size: nat)
    requires Good(d) && Typed(d, m)
    ensures ok == Fits(d, m) && (ok ==> size == |MessageBytes(d, m, 0)|)
  {
    var stream := new OStream(true, 0, []);
    ok := Encode(stream, d, m);
    size := stream.bytesWritten;
  }
}
