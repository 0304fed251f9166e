/**
 Message types of nanopb (pb.h) and their values. A message type is a list of field
 descriptors; a value has, for each field, the items that are present: one for a required
 field, at most one for an optional field or a member of a oneof, and any number for an array.
 */
module PbTypes {
  import opened Words
  import opened Coding

  /** The LTYPE of a field, with the size of the item in memory where it matters. */
  datatype Kind =
    | Varint(size: nat)
    | UVarint(size: nat)
    | SVarint(size: nat)
    | Fixed32
    | Fixed64
    | Bytes(max: nat)
    | Text(size: nat)
    | Submessage(desc: Descriptor)
    | FixedBytes(size: nat)
  {
    /** LTYPE at most PB_LTYPE_LAST_PACKABLE. */
    predicate Packable() {
      Varint? || UVarint? || SVarint? || Fixed32? || Fixed64?
    }
  }

  /** The HTYPE of a field: members of one oneof share the number `group`. */
  datatype Rule = Required | Optional | Repeated(max: nat) | OneOf(group: nat)

  datatype Field = Field(tag: nat, rule: Rule, kind: Kind)

  datatype Descriptor = Descriptor(fields: seq<Field>)

  datatype Value = Number(n: int) | Data(bytes: seq<byte>) | Message(items: seq<seq<Value>>)

  const WT_VARINT: nat := 0
  const WT_64BIT: nat := 1
  const WT_STRING: nat := 2
  const WT_32BIT: nat := 5
  const MAX_REQUIRED: nat := 64  // PB_MAX_REQUIRED_FIELDS
  const TAG_LIMIT: nat := 0x2000_0000

  // ---- Descriptors that the code can work with

  predicate IsWidth(size: nat) {
    size == 1 || size == 2 || size == 4 || size == 8
  }

  /** How many values fit in half the range of an integer of `size` bytes. */
  function Half(size: nat): (h: nat)
    requires IsWidth(size)
    ensures 0x80 <= h <= 0x8000_0000_0000_0000
  {
    if size == 1 then 0x80 else if size == 2 then 0x8000 else if size == 4 then 0x8000_0000 else 0x8000_0000_0000_0000
  }

  /** The number of required fields among the first `n`. */
  function RequiredBefore(fields: seq<Field>, n: nat): (r: nat)
    requires n <= |fields|
    ensures r <= n
  {
    if n == 0 then 0 else RequiredBefore(fields, n - 1) + if fields[n - 1].rule.Required? then 1 else 0
  }

  /**
   The check for missing fields has room for 64 bits, and it shifts a word by the number of
   its unused bits, which C leaves undefined when that is all 32 of them.
   */
  predicate CanBeCounted(required: nat) {
    required == 0 || (required < MAX_REQUIRED && required % 32 != 0)
  }

  ghost predicate DistinctTags(fields: seq<Field>) {
    forall i, j :: 0 <= i < j < |fields| ==> fields[i].tag != fields[j].tag
  }

  ghost predicate GoodKind(k: Kind)
    decreases k
  {
    match k
    case Varint(size) => IsWidth(size)
    case UVarint(size) => IsWidth(size)
    case SVarint(size) => IsWidth(size)
    case Submessage(desc) => Good(desc)
    case _ => true
  }

  ghost predicate GoodField(f: Field)
    decreases f
  {
    0 < f.tag < TAG_LIMIT && GoodKind(f.kind)
  }

  ghost predicate Good(d: Descriptor)
    decreases d
  {
    && (forall i :: 0 <= i < |d.fields| ==> GoodField(d.fields[i]))
    && DistinctTags(d.fields) && CanBeCounted(RequiredBefore(d.fields, |d.fields|))
  }

  // ---- Values that memory can hold

  /**
   Strings are given up to the first NUL, or whole if there is none. Sizes of byte arrays and
   counts of arrays are variables, which may be more than there is room for.
   */
  ghost predicate ItemTyped(k: Kind, v: Value)
    requires GoodKind(k)
    decreases k
  {
    match k
    case Varint(size) => v.Number? && -(Half(size) as int) <= v.n < Half(size)
    case UVarint(size) => v.Number? && 0 <= v.n < 2 * Half(size)
    case SVarint(size) => v.Number? && -(Half(size) as int) <= v.n < Half(size)
    case Fixed32 => v.Number? && 0 <= v.n < 0x1_0000_0000
    case Fixed64 => v.Number? && 0 <= v.n < 0x1_0000_0000_0000_0000
    case Bytes(max) => v.Data?
    case Text(size) => v.Data? && |v.bytes| <= size && 0 !in v.bytes
    case Submessage(desc) => v.Message? && Typed(desc, v.items)
    case FixedBytes(size) => v.Data? && |v.bytes| == size
  }

  ghost predicate FieldTyped(f: Field, vs: seq<Value>)
    requires GoodField(f)
    decreases f
  {
    && (forall j :: 0 <= j < |vs| ==> ItemTyped(f.kind, vs[j]))
    && (f.rule.Required? ==> |vs| == 1)
    && (f.rule.Optional? || f.rule.OneOf? ==> |vs| <= 1)
  }

  predicate SameGroup(f: Field, g: Field) {
    f.rule.OneOf? && f.rule == g.rule
  }

  /** At most one member of each oneof is present. */
  ghost predicate OnePerGroup(fields: seq<Field>, m: seq<seq<Value>>)
    requires |m| == |fields|
  {
    forall i, j :: 0 <= i < j < |fields| && SameGroup(fields[i], fields[j]) ==> m[i] == [] || m[j] == []
  }

  ghost predicate Typed(d: Descriptor, m: seq<seq<Value>>)
    requires Good(d)
    decreases d
  {
    && |m| == |d.fields| && OnePerGroup(d.fields, m)
    && forall i :: 0 <= i < |d.fields| ==> FieldTyped(d.fields[i], m[i])
  }

  // ---- Values that can be encoded, and read back

  /** Sizes and counts are within bounds, which the encoder checks. */
  ghost predicate ItemFits(k: Kind, v: Value)
    requires GoodKind(k) && ItemTyped(k, v)
    decreases k
  {
    match k
    case Bytes(max) => |v.bytes| <= max
    case Submessage(desc) => Fits(desc, v.items)
    case _ => true
  }

  ghost predicate FieldFits(f: Field, vs: seq<Value>)
    requires GoodField(f) && FieldTyped(f, vs)
    decreases f
  {
    && (f.rule.Repeated? ==> |vs| <= f.rule.max)
    && forall j :: 0 <= j < |vs| ==> ItemFits(f.kind, vs[j])
  }

  ghost predicate Fits(d: Descriptor, m: seq<seq<Value>>)
    requires Good(d) && Typed(d, m)
    decreases d
  {
    forall i :: 0 <= i < |d.fields| ==> FieldFits(d.fields[i], m[i])
  }

  /** Strings have a NUL within their bounds, which the encoder does not demand and the decoder needs. */
  ghost predicate ItemTerminated(k: Kind, v: Value)
    requires GoodKind(k) && ItemTyped(k, v)
    decreases k
  {
    match k
    case Text(size) => |v.bytes| < size
    case Submessage(desc) => Terminated(desc, v.items)
    case _ => true
  }

  ghost predicate FieldTerminated(f: Field, vs: seq<Value>)
    requires GoodField(f) && FieldTyped(f, vs)
    decreases f
  {
    forall j :: 0 <= j < |vs| ==> ItemTerminated(f.kind, vs[j])
  }

  ghost predicate Terminated(d: Descriptor, m: seq<seq<Value>>)
    requires Good(d) && Typed(d, m)
    decreases d
  {
    forall i :: 0 <= i < |d.fields| ==> FieldTerminated(d.fields[i], m[i])
  }
}
