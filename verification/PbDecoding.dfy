/**
 What the decoder of nanopb (pb_decode.c) makes of any bytes, as functions of the bytes that
 are left; module PbDecoder decodes with loops over a stream.
 */
module PbDecoding {
  import opened Options
  import opened Words
  import opened Coding
  import opened PbTypes

  // ---- Tags

  datatype TagRead = End | Broken | Tag(tag: nat, wire: nat, rest: seq<byte>)

  /** pb_decode_tag: nothing is amiss if the bytes end within the tag, and a zero ends the message. */
  function ReadTag(s: seq<byte>): (t: TagRead)
    ensures t.Tag? ==> |t.rest| < |s| && t.wire < 8
  {
    var v := ParseVarint32(s);
    ParsersConsume(s);
    if v.None? then (if |s| <= 5 then End else Broken)
    else if v.value.value == 0 then End
    else Tag(v.value.value / 8, v.value.value % 8, v.value.rest)
  }

  // ---- Skipping

  function SkipVarint(s: seq<byte>): (r: Option<seq<byte>>)
    ensures r.Some? ==> |r.value| <= |s|
  {
    if s == [] then None else if s[0] < 128 then Some(s[1..]) else SkipVarint(s[1..])
  }

  function SkipBytes(s: seq<byte>, n: nat): (r: Option<seq<byte>>)
    ensures r.Some? ==> |r.value| <= |s|
  {
    if |s| < n then None else Some(s[n..])
  }

  /** pb_skip_field. */
  function Skip(wire: nat, s: seq<byte>): (r: Option<seq<byte>>)
    ensures r.Some? ==> |r.value| <= |s|
  {
    ParsersConsume(s);
    if wire == WT_VARINT then SkipVarint(s)
    else if wire == WT_64BIT then SkipBytes(s, 8)
    else if wire == WT_STRING then (if ParseString(s).None? then None else Some(ParseString(s).value.rest))
    else if wire == WT_32BIT then SkipBytes(s, 4)
    else None
  }

  // ---- Items

  /** Numbers as they are cast to fewer bytes. */
  function Signed(v: nat, size: nat): int
    requires IsWidth(size)
  {
    var r := v % (2 * Half(size));
    if r < Half(size) then r else r - 2 * Half(size)
  }

  function UnZigZag(v: nat): int {
    if v % 2 == 1 then -(v / 2) - 1 else v / 2
  }

  /** pb_dec_varint: at most 32 bits are cast to 32 bits first, and then have to fit. */
  function CheckedVarint(v: uint64, size: nat): Option<int>
    requires IsWidth(size)
  {
    var n := Signed(v, if size == 8 then 8 else 4);
    if Signed(v, size) == n then Some(n) else None
  }

  function CheckedUVarint(v: uint64, size: nat): Option<int>
    requires IsWidth(size)
  {
    if v < 2 * Half(size) then Some(v) else None
  }

  function CheckedSVarint(v: uint64, size: nat): Option<int>
    requires IsWidth(size)
  {
    if -(Half(size) as int) <= UnZigZag(v) < Half(size) then Some(UnZigZag(v)) else None
  }

  /** What a string of bytes is up to its first NUL. */
  function UpToNul(s: seq<byte>): seq<byte> {
    if s == [] || s[0] == 0 then [] else [s[0]] + UpToNul(s[1..])
  }

  function Zeros(n: nat): seq<byte> {
    seq(n, i => 0)
  }

  function NumberRead(n: Option<int>, rest: seq<byte>): Option<Parsed<Value>> {
    if n.None? then None else Some(Parsed(Number(n.value), rest))
  }

  /** An item that is not a message. */
  ghost function DecodeScalar(k: Kind, s: seq<byte>): Option<Parsed<Value>>
    requires GoodKind(k) && !k.Submessage?
  {
    match k
    case Varint(size) =>
      var v := ParseVarint64(s); if v.None? then None else NumberRead(CheckedVarint(v.value.value, size), v.value.rest)
    case UVarint(size) =>
      var v := ParseVarint64(s); if v.None? then None else NumberRead(CheckedUVarint(v.value.value, size), v.value.rest)
    case SVarint(size) =>
      var v := ParseVarint64(s); if v.None? then None else NumberRead(CheckedSVarint(v.value.value, size), v.value.rest)
    case Fixed32 => if |s| < 4 then None else Some(Parsed(Number(DecodeFixed32(s)), s[4..]))
    case Fixed64 => if |s| < 8 then None else Some(Parsed(Number(DecodeFixed64(s)), s[8..]))
    case Bytes(max) =>
      var b := ParseString(s); if b.None? || |b.value.value| > max then None
          else Some(Parsed(Data(b.value.value), b.value.rest))
    case Text(size) =>
      var b := ParseString(s);
      if b.None? || |b.value.value| + 1 > size then None else Some(Parsed(Data(UpToNul(b.value.value)), b.value.rest))
    case FixedBytes(size) =>
      var b := ParseString(s);
      if b.None? then None
      else if b.value.value == [] then Some(Parsed(Data(Zeros(size)), b.value.rest))
      else if |b.value.value| != size then None
      else Some(Parsed(Data(b.value.value), b.value.rest))
  }

  lemma ScalarsConsume(k: Kind, s: seq<byte>)
    requires GoodKind(k) && !k.Submessage?
    ensures DecodeScalar(k, s).Some? ==> |DecodeScalar(k, s).value.rest| < |s|
  {
    ParsersConsume(s);
  }

  // ---- Defaults

  /** What pb_message_set_to_defaults leaves in an item. */
  function DefaultItem(k: Kind): Value
    decreases k
  {
    match k
    case Bytes(_) => Data([])
    case Text(_) => Data([])
    case FixedBytes(size) => Data(Zeros(size))
    case Submessage(desc) => Message(Defaults(desc))
    case _ => Number(0)
  }

  function DefaultField(f: Field): seq<Value>
    decreases f
  {
    if f.rule.Required? then [DefaultItem(f.kind)] else []
  }

  /** Nothing is present, but required fields, which are always there. */
  function Defaults(d: Descriptor): (m: seq<seq<Value>>)
    ensures |m| == |d.fields|
    decreases d
  {
    seq(|d.fields|, i requires 0 <= i < |d.fields| => DefaultField(d.fields[i]))
  }

  // ---- Messages

  /** The field with a tag. */
  function IndexOf(fields: seq<Field>, tag: nat): (i: Option<nat>)
    ensures i.Some? ==> i.value < |fields| && fields[i.value].tag == tag
    ensures i.None? ==> forall j :: 0 <= j < |fields| ==> fields[j].tag != tag
  {
    if fields == [] then None
    else if fields[|fields| - 1].tag == tag then Some(|fields| - 1)
    else IndexOf(fields[..|fields| - 1], tag)
  }

  lemma {:induction false} TagIsFound(fields: seq<Field>, i: nat)
    requires DistinctTags(fields) && i < |fields|
    ensures IndexOf(fields, fields[i].tag) == Some(i)
  {
    if i < |fields| - 1 {
      TagIsFound(fields[..|fields| - 1], i);
    }
  }

  /** The message once field `i` holds `vs`: other members of its oneof are gone. */
  function WithField(fields: seq<Field>, m: seq<seq<Value>>, i: nat, vs: seq<Value>): (r: seq<seq<Value>>)
    requires |m| == |fields| && i < |fields|
    ensures |r| == |m|
  {
    seq(|m|, j requires 0 <= j < |m| => if j == i then vs else if SameGroup(fields[i], fields[j]) then [] else m[j])
  }

  /** Every required field has been seen, as told by its position. */
  ghost predicate Complete(fields: seq<Field>, seen: set<nat>) {
    forall i :: 0 <= i < |fields| && fields[i].rule.Required? ==> i in seen
  }

  /**
   What the item of a field that comes up is decoded into: a message that is there already, but not
   an array entry or a member of a oneof.
   */
  function Base(f: Field, vs: seq<Value>): Value {
    if (f.rule.Required? || f.rule.Optional?) && vs != [] then vs[0] else DefaultItem(f.kind)
  }

  ghost function DecodeItem(k: Kind, base: Value, s: seq<byte>): (r: Option<Parsed<Value>>)
    requires GoodKind(k)
    ensures r.Some? ==> |r.value.rest| < |s|
    decreases k, 1
  {
    if k.Submessage? then
      var b := ParseString(s);
      ParsersConsume(s);
      if b.None? then None else
        var start := if base.Message? && |base.items| == |k.desc.fields| then base.items else Defaults(k.desc);
        var m := DecodeMessage(k.desc, start, {}, b.value.value);
        if m.None? then None else Some(Parsed(Message(m.value), b.value.rest))
    else
      ScalarsConsume(k, s);
      DecodeScalar(k, s)
  }

  /** The items of a packed array, of which there is room for `max`. */
  ghost function DecodePacked(k: Kind, vs: seq<Value>, max: nat, s: seq<byte>): Option<seq<Value>>
    requires GoodKind(k) && !k.Submessage?
    decreases |s|
  {
    if s == [] then Some(vs)
    else if |vs| >= max then None
    else
      ScalarsConsume(k, s);
      var v := DecodeScalar(k, s);
      if v.None? then None else DecodePacked(k, vs + [v.value.value], max, v.value.rest)
  }

  /** decode_static_field: the wire type only tells packed arrays. */
  ghost function DecodeField(f: Field, vs: seq<Value>, wire: nat, s: seq<byte>): (r: Option<Parsed<seq<Value>>>)
    requires GoodField(f)
    ensures r.Some? ==> |r.value.rest| < |s|
    decreases f
  {
    if f.rule.Repeated? && wire == WT_STRING && f.kind.Packable() then
      var b := ParseString(s);
      ParsersConsume(s);
      if b.None? then None else
        var all := DecodePacked(f.kind, vs, f.rule.max, b.value.value);
        if all.None? then None else Some(Parsed(all.value, b.value.rest))
    else if f.rule.Repeated? && |vs| >= f.rule.max then None
    else
      var v := DecodeItem(f.kind, Base(f, vs), s);
      if v.None? then None
      else Some(Parsed(if f.rule.Repeated? then vs + [v.value.value] else [v.value.value], v.value.rest))
  }

  /** pb_decode_noinit: `seen` has the positions of the required fields that have come up. */
  ghost function DecodeMessage(d: Descriptor, m: seq<seq<Value>>, seen: set<nat>, s: seq<byte>)
    : (r: Option<seq<seq<Value>>>)
    requires Good(d) && |m| == |d.fields|
    ensures r.Some? ==> |r.value| == |m|
    decreases d, |s|
  {
    if s == [] || ReadTag(s).End? then
      if Complete(d.fields, seen) then Some(m) else None
    else
      match ReadTag(s)
      case Broken => None
      case Tag(tag, wire, rest) =>
        var i := IndexOf(d.fields, tag);
        if d.fields == [] && tag == 0 then None  // the terminator is taken for a field, of no valid size
        else if i.None? then
          var after := Skip(wire, rest);
          if after.None? then None else DecodeMessage(d, m, seen, after.value)
        else
          var vs := DecodeField(d.fields[i.value], m[i.value], wire, rest);
          if vs.None? then None
          else DecodeMessage(d, WithField(d.fields, m, i.value, vs.value.value), seen + {i.value}, vs.value.rest)
  }

  /** One turn of the loop, for a tag that belongs to field `i`. */
  lemma TurnOfField(d: Descriptor, m: seq<seq<Value>>, seen: set<nat>, s: seq<byte>, i: nat)
    requires Good(d) && |m| == |d.fields| && i < |d.fields| && ReadTag(s).Tag? && ReadTag(s).tag == d.fields[i].tag
    ensures GoodField(d.fields[i])
    ensures var t := ReadTag(s);
            var vs := DecodeField(d.fields[i], m[i], t.wire, t.rest);
            DecodeMessage(d, m, seen, s) ==
              if vs.None? then None else DecodeMessage(d, WithField(d.fields, m, i, vs.value.value), seen + {i},
                  vs.value.rest)
  {
    hide DecodeField, WithField, ReadTag, IndexOf;
    TagIsFound(d.fields, i);
    NoBytesNoTag(s);
  }

  /** One turn of the loop, for a tag that belongs to no field. */
  lemma TurnOfOther(d: Descriptor, m: seq<seq<Value>>, seen: set<nat>, s: seq<byte>)
    requires Good(d) && |m| == |d.fields| && ReadTag(s).Tag?
    requires forall i :: 0 <= i < |d.fields| ==> d.fields[i].tag != ReadTag(s).tag
    ensures var t := ReadTag(s);
            DecodeMessage(d, m, seen, s) ==
              if (d.fields == [] && t.tag == 0) || Skip(t.wire, t.rest).None? then None
              else DecodeMessage(d, m, seen, Skip(t.wire, t.rest).value)
  {
    hide DecodeField, ReadTag, Skip;
    NoBytesNoTag(s);
  }

  lemma NoBytesNoTag(s: seq<byte>)
    requires ReadTag(s).Tag?
    ensures s != []
  {
  }

  /** pb_decode. */
  ghost function Decode(d: Descriptor, s: seq<byte>): Option<seq<seq<Value>>>
    requires Good(d)
  {
    DecodeMessage(d, Defaults(d), {}, s)
  }
}
