/** The bytes of a message (pb_encode.c), given outright; module PbEncoder writes them in two passes. */
module PbEncoding {
  import opened Words
  import opened Coding
  import opened PbTypes

  function WireType(k: Kind): (w: nat)
    ensures w < 8
  {
    match k
    case Varint(_) => WT_VARINT
    case UVarint(_) => WT_VARINT
    case SVarint(_) => WT_VARINT
    case Fixed32 => WT_32BIT
    case Fixed64 => WT_64BIT
    case _ => WT_STRING
  }

  function TagBytes(tag: nat, wire: nat): seq<byte> {
    EncodeVarint(tag * 8 + wire)
  }

  /** A signed 64-bit number as an unsigned one. */
  function Unsigned(n: int): nat
    requires -0x8000_0000_0000_0000 <= n < 0x8000_0000_0000_0000
  {
    if n < 0 then n + 0x1_0000_0000_0000_0000 else n
  }

  /** Numbers near zero, of either sign, are small: 0, -1, 1, -2 become 0, 1, 2, 3. */
  function ZigZag(n: int): nat {
    if n < 0 then -2 * n - 1 else 2 * n
  }

  ghost function ItemBytes(k: Kind, v: Value): seq<byte>
    requires GoodKind(k) && ItemTyped(k, v)
    decreases k, 0
  {
    match k
    case Varint(_) => EncodeVarint(Unsigned(v.n))
    case UVarint(_) => EncodeVarint(v.n)
    case SVarint(_) => EncodeVarint(ZigZag(v.n))
    case Fixed32 => EncodeFixed32(v.n)
    case Fixed64 => EncodeFixed64(v.n)
    case Submessage(desc) => EncodeString(MessageBytes(desc, v.items, 0))
    case _ => EncodeString(v.bytes)
  }

  ghost predicate AllTyped(k: Kind, vs: seq<Value>)
    requires GoodKind(k)
  {
    forall j :: 0 <= j < |vs| ==> ItemTyped(k, vs[j])
  }

  /** Items one after the other. */
  ghost function ItemsBytes(k: Kind, vs: seq<Value>): seq<byte>
    requires GoodKind(k) && AllTyped(k, vs)
    decreases k, 1, |vs|
  {
    if vs == [] then [] else ItemBytes(k, vs[0]) + ItemsBytes(k, vs[1..])
  }

  /** Items one after the other, each behind the tag. */
  ghost function TaggedBytes(tag: nat, k: Kind, vs: seq<Value>): seq<byte>
    requires GoodKind(k) && AllTyped(k, vs)
    decreases k, 1, |vs|
  {
    if vs == [] then [] else TagBytes(tag, WireType(k)) + (ItemBytes(k, vs[0]) + TaggedBytes(tag, k, vs[1..]))
  }

  /** Arrays of numbers are packed; other items have a tag each. */
  ghost function FieldBytes(f: Field, vs: seq<Value>): seq<byte>
    requires GoodField(f) && FieldTyped(f, vs)
    decreases f
  {
    if vs != [] && f.rule.Repeated? && f.kind.Packable() then
      TagBytes(f.tag, WT_STRING) + EncodeString(ItemsBytes(f.kind, vs))
    else
      TaggedBytes(f.tag, f.kind, vs)
  }

  /** The fields from `i` on. */
  ghost function MessageBytes(d: Descriptor, m: seq<seq<Value>>, i: nat): seq<byte>
    requires Good(d) && Typed(d, m) && i <= |d.fields|
    decreases d, |d.fields| - i
  {
    if i == |d.fields| then [] else FieldBytes(d.fields[i], m[i]) + MessageBytes(d, m, i + 1)
  }
}
