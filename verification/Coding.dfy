/** Little-endian and variable-length integers (util/coding.cc). */
module Coding {
  import opened Options
  import opened Words

  type uint64 = x: int | 0 <= x < 0x1_0000_0000_0000_0000 witness 0

  // ---- Fixed width

  function EncodeFixed32(v: uint32): (s: seq<byte>)
    ensures |s| == 4
  {
    [v % 0x100, v / 0x100 % 0x100, v / 0x1_0000 % 0x100, v / 0x100_0000]
  }

  function DecodeFixed32(s: seq<byte>): uint32
    requires |s| >= 4
  {
    s[0] as int + 0x100 * s[1] as int + 0x1_0000 * s[2] as int + 0x100_0000 * s[3] as int
  }

  lemma Fixed32RoundTrip(v: uint32, rest: seq<byte>)
    ensures DecodeFixed32(EncodeFixed32(v) + rest) == v
  {
    var a, b, c := v / 0x100, v / 0x1_0000, v / 0x100_0000;
    assert v == 0x100 * a + v % 0x100 && a == 0x100 * b + a % 0x100 && b == 0x100 * c + b % 0x100;
  }

  function EncodeFixed64(v: uint64): (s: seq<byte>)
    ensures |s| == 8
  {
    EncodeFixed32(v % 0x1_0000_0000) + EncodeFixed32(v / 0x1_0000_0000)
  }

  function DecodeFixed64(s: seq<byte>): uint64
    requires |s| >= 8
  {
    DecodeFixed32(s) as int + 0x1_0000_0000 * DecodeFixed32(s[4..]) as int
  }

  lemma Fixed64RoundTrip(v: uint64, rest: seq<byte>)
    ensures DecodeFixed64(EncodeFixed64(v) + rest) == v
  {
    var low, high := v % 0x1_0000_0000, v / 0x1_0000_0000;
    var s := EncodeFixed64(v) + rest;
    assert s == EncodeFixed32(low) + (EncodeFixed32(high) + rest) && s[4..] == EncodeFixed32(high) + rest;
    Fixed32RoundTrip(low, EncodeFixed32(high) + rest);
    Fixed32RoundTrip(high, rest);
  }

  lemma Fixed32Decoded(s: seq<byte>)
    requires |s| == 4
    ensures EncodeFixed32(DecodeFixed32(s)) == s
  {
    var v := DecodeFixed32(s);
    assert v / 0x100 == s[1] as int + 0x100 * s[2] as int + 0x1_0000 * s[3] as int;
    assert v / 0x1_0000 == s[2] as int + 0x100 * s[3] as int;
    assert v / 0x100_0000 == s[3];
  }

  lemma Fixed32OfFront(s: seq<byte>)
    requires |s| >= 4
    ensures EncodeFixed32(DecodeFixed32(s)) == s[..4]
  {
    Fixed32Decoded(s[..4]);
    assert DecodeFixed32(s) == DecodeFixed32(s[..4]);
  }

  lemma Fixed64OfFront(s: seq<byte>)
    requires |s| >= 8
    ensures EncodeFixed64(DecodeFixed64(s)) == s[..8]
  {
    hide EncodeFixed32, DecodeFixed32;
    Fixed32OfFront(s);
    Fixed32OfFront(s[4..]);
    assert s[..8] == s[..4] + s[4..][..4];
  }

  lemma Fixed32At(s: seq<byte>, i: nat, v: uint32)
    requires i + 4 <= |s| && s[i..i + 4] == EncodeFixed32(v)
    ensures DecodeFixed32(s[i..]) == v
  {
    assert s[i..] == EncodeFixed32(v) + s[i + 4..];
    Fixed32RoundTrip(v, s[i + 4..]);
  }

  /** Offsets one after another. */
  function EncodeOffsets(offsets: seq<uint32>): (s: seq<byte>)
    ensures |s| == 4 * |offsets|
  {
    if offsets == [] then [] else EncodeOffsets(offsets[..|offsets| - 1]) + EncodeFixed32(offsets[|offsets| - 1])
  }

  lemma {:induction false} OffsetEncoded(offsets: seq<uint32>, i: nat)
    requires i < |offsets|
    ensures EncodeOffsets(offsets)[4 * i..4 * i + 4] == EncodeFixed32(offsets[i])
  {
    var last := |offsets| - 1;
    var before, t := EncodeOffsets(offsets[..last]), EncodeFixed32(offsets[last]);
    if i < last {
      OffsetEncoded(offsets[..last], i);
      assert (before + t)[4 * i..4 * i + 4] == before[4 * i..4 * i + 4];
    } else {
      assert (before + t)[4 * i..4 * i + 4] == t;
    }
  }

  /** An offset is read back from where it is in a block. */
  lemma OffsetAt(data: seq<byte>, offsets: seq<uint32>, tail: seq<byte>, i: nat)
    requires i < |offsets|
    ensures var block := data + EncodeOffsets(offsets) + tail;
            |data| + 4 * i + 4 <= |block| && DecodeFixed32(block[|data| + 4 * i..]) == offsets[i]
  {
    var offs := EncodeOffsets(offsets);
    var block := data + offs + tail;
    OffsetEncoded(offsets, i);
    assert block[|data| + 4 * i..|data| + 4 * i + 4] == offs[4 * i..4 * i + 4];
    Fixed32At(block, |data| + 4 * i, offsets[i]);
  }

  /** Appends the offsets one by one. */
  method PutOffsets(data: seq<byte>, offsets: seq<uint32>) returns (buffer: seq<byte>)
    ensures buffer == data + EncodeOffsets(offsets)
  {
    buffer := data;
    for i := 0 to |offsets|
      invariant buffer == data + EncodeOffsets(offsets[..i])
    {
      assert offsets[..i + 1][..i] == offsets[..i];
      Append3(data, EncodeOffsets(offsets[..i]), EncodeFixed32(offsets[i]));
      buffer := buffer + EncodeFixed32(offsets[i]);
    }
    assert offsets[..|offsets|] == offsets;
  }

  // ---- Variable length: seven bits a byte, the top bit set on all but the last

  function EncodeVarint(v: nat): (s: seq<byte>)
    ensures s != []
  {
    if v < 128 then [v] else [v % 128 + 128] + EncodeVarint(v / 128)
  }

  /** A value and the bytes behind it. */
  datatype Parsed<+T> = Parsed(value: T, rest: seq<byte>)

  /** A varint of at most `n` bytes. */
  function ParseVarint(s: seq<byte>, n: nat): Option<Parsed<nat>>
    decreases n, s
  {
    if n == 0 || s == [] then None
    else if s[0] < 128 then Some(Parsed(s[0], s[1..]))
    else
      var more := ParseVarint(s[1..], n - 1);
      if more.None? then None else Some(Parsed(s[0] - 128 + 128 * more.value.value, more.value.rest))
  }

  function Pow128(n: nat): (p: nat)
    ensures p > 0
  {
    if n == 0 then 1 else 128 * Pow128(n - 1)
  }

  /** Each byte counts 128 times as much as the one before, without its top bit. */
  function SumOf(s: seq<byte>, k: nat): nat
    requires k <= |s|
  {
    if k == 0 then 0 else SumOf(s, k - 1) + s[k - 1] % 128 * Pow128(k - 1)
  }

  lemma {:induction false} SumFromFront(s: seq<byte>, k: nat)
    requires k < |s|
    ensures SumOf(s, k + 1) == s[0] % 128 + 128 * SumOf(s[1..], k)
  {
    if k > 0 {
      SumFromFront(s, k - 1);
      TimesMore(s[k] % 128, k - 1);
    }
  }

  lemma TimesMore(digit: nat, k: nat)
    ensures digit * Pow128(k + 1) == 128 * (digit * Pow128(k))
  {
  }

  /** A varint ends with the first byte below 128, which has to be among the first `n`, and is the sum up to there. */
  lemma {:induction false} VarintEnds(s: seq<byte>, n: nat, k: nat)
    requires k < |s| && s[k] < 128 && forall i :: 0 <= i < k ==> s[i] >= 128
    ensures ParseVarint(s, n).Some? <==> k < n
    ensures k < n ==> ParseVarint(s, n).value == Parsed(SumOf(s, k + 1), s[k + 1..])
    decreases n
  {
    SumFromFront(s, k);
    if n > 0 && k > 0 {
      VarintEnds(s[1..], n - 1, k - 1);
    }
  }

  lemma {:induction false} NoVarint(s: seq<byte>, n: nat)
    requires forall i :: 0 <= i < |s| ==> s[i] >= 128
    ensures ParseVarint(s, n).None?
    decreases n
  {
    if n > 0 && s != [] {
      NoVarint(s[1..], n - 1);
    }
  }

  /** A varint is read back, whatever follows it. */
  lemma {:induction false} VarintRoundTrip(v: nat, n: nat, rest: seq<byte>)
    requires n > 0 && v < Pow128(n)
    ensures ParseVarint(EncodeVarint(v) + rest, n) == Some(Parsed(v, rest))
    decreases n
  {
    var s := EncodeVarint(v) + rest;
    if v < 128 {
      assert s[1..] == rest;
    } else {
      assert s[1..] == EncodeVarint(v / 128) + rest;
      VarintRoundTrip(v / 128, n - 1, rest);
    }
  }

  lemma {:induction false} VarintLength(v: nat, n: nat)
    requires n > 0 && v < Pow128(n)
    ensures |EncodeVarint(v)| <= n
    decreases n
  {
    if v >= 128 {
      VarintLength(v / 128, n - 1);
    }
  }

  /** What is left after a varint is shorter. */
  lemma {:induction false} VarintConsumes(s: seq<byte>, n: nat)
    requires ParseVarint(s, n).Some?
    ensures |ParseVarint(s, n).value.rest| < |s| && ParseVarint(s, n).value.rest ==
            s[|s| - |ParseVarint(s, n).value.rest|..]
    decreases n
  {
    if s[0] >= 128 {
      VarintConsumes(s[1..], n - 1);
    }
  }

  // GetVarint32 and GetVarint64: bits beyond the width are lost.

  function ParseVarint32(s: seq<byte>): Option<Parsed<uint32>> {
    var r := ParseVarint(s, 5);
    if r.None? then None else
      var v: uint32 := r.value.value % 0x1_0000_0000;
      Some(Parsed(v, r.value.rest))
  }

  function ParseVarint64(s: seq<byte>): Option<Parsed<uint64>> {
    var r := ParseVarint(s, 10);
    if r.None? then None else
      var v: uint64 := r.value.value % 0x1_0000_0000_0000_0000;
      Some(Parsed(v, r.value.rest))
  }

  lemma Pow128Values()
    ensures Pow128(5) == 0x8_0000_0000 && Pow128(10) == 0x40_0000_0000_0000_0000
  {
    assert Pow128(3) == 0x20_0000;
    assert Pow128(6) == 0x400_0000_0000;
    assert Pow128(8) == 0x100_0000_0000_0000;
  }

  lemma Varint32RoundTrip(v: uint32, rest: seq<byte>)
    ensures ParseVarint32(EncodeVarint(v) + rest) == Some(Parsed(v, rest))
  {
    Pow128Values();
    VarintRoundTrip(v, 5, rest);
    assert v % 0x1_0000_0000 == v;
  }

  lemma Varint64RoundTrip(v: uint64, rest: seq<byte>)
    ensures ParseVarint64(EncodeVarint(v) + rest) == Some(Parsed(v, rest))
  {
    Pow128Values();
    VarintRoundTrip(v, 10, rest);
    assert v % 0x1_0000_0000_0000_0000 == v;
  }

  /** A group of seven bits, or all that follow, at its place. */
  function AtPlace(result: nat, place: nat, digits: nat): nat {
    result + place * digits
  }

  /** What the bytes from `p` on, of at most `n`, still contribute, at `place`, to `result`. */
  function Rest(s: seq<byte>, p: nat, n: nat, result: nat, place: nat): Option<Parsed<nat>>
    requires p <= |s| && p <= n
  {
    var r := ParseVarint(s[p..], n - p);
    if r.None? then None else Some(Parsed(AtPlace(result, place, r.value.value), r.value.rest))
  }

  lemma RestOfMore(s: seq<byte>, p: nat, n: nat, result: nat, place: nat)
    requires p < |s| && p < n
    ensures s[p] < 128 ==> Rest(s, p, n, result, place) == Some(Parsed(AtPlace(result, place, s[p]), s[p + 1..]))
    ensures s[p] >= 128 ==> Rest(s, p, n, result, place) == Rest(s, p + 1, n, AtPlace(result, place, s[p] - 128),
            place * 128)
  {
    assert s[p..][0] == s[p] && s[p..][1..] == s[p + 1..];
    if s[p] >= 128 && ParseVarint(s[p + 1..], n - p - 1).Some? {
      PlacesAdd(result, place, s[p] - 128, ParseVarint(s[p + 1..], n - p - 1).value.value);
    }
  }

  lemma PlacesAdd(result: nat, place: nat, digit: nat, more: nat)
    ensures AtPlace(result, place, digit + 128 * more) == AtPlace(AtPlace(result, place, digit), place * 128, more)
  {
  }

  /** The loop of GetVarint64Ptr, which shifts each group of seven bits to its place. */
  method GetVarint64(s: seq<byte>) returns (r: Option<Parsed<uint64>>)
    ensures r == ParseVarint64(s)
  {
    var result: nat, place: nat, p: nat, shift := 0, 1, 0, 0;
    assert s[0..] == s;
    while shift <= 63 && p < |s|
      invariant shift == 7 * p && p <= 10 && p <= |s|
      invariant ParseVarint(s, 10) == Rest(s, p, 10, result, place)
    {
      RestOfMore(s, p, 10, result, place);
      var b := s[p];
      p := p + 1;
      if b >= 128 {
        result := AtPlace(result, place, b - 128);
      } else {
        result := AtPlace(result, place, b);
        return Some(Parsed(result % 0x1_0000_0000_0000_0000, s[p..]));
      }
      shift, place := shift + 7, place * 128;
    }
    return None;
  }

  // ---- Length-prefixed strings

  function EncodeString(data: seq<byte>): seq<byte> {
    EncodeVarint(|data|) + data
  }

  function ParseString(s: seq<byte>): Option<Parsed<seq<byte>>> {
    var n := ParseVarint32(s);
    if n.None? || |n.value.rest| < n.value.value then None
    else Some(Parsed(n.value.rest[..n.value.value], n.value.rest[n.value.value..]))
  }

  lemma StringRoundTrip(data: seq<byte>, rest: seq<byte>)
    requires |data| < 0x1_0000_0000
    ensures ParseString(EncodeString(data) + rest) == Some(Parsed(data, rest))
  {
    assert EncodeString(data) + rest == EncodeVarint(|data|) + (data + rest);
    Varint32RoundTrip(|data|, data + rest);
    assert (data + rest)[..|data|] == data && (data + rest)[|data|..] == rest;
  }

  lemma {:induction false} CutVarint(v: nat, n: nat, s: seq<byte>)
    requires s < EncodeVarint(v)
    ensures ParseVarint(s, n).None?
    decreases n, v
  {
    if n > 0 && s != [] && v >= 128 {
      assert s[1..] < EncodeVarint(v / 128);
      CutVarint(v / 128, n - 1, s[1..]);
    }
  }

  /** A string cut off by the end of the bytes is not read. */
  lemma CutString(data: seq<byte>, s: seq<byte>)
    requires |data| < 0x1_0000_0000 && s < EncodeString(data)
    ensures ParseString(s).None?
  {
    var head := EncodeVarint(|data|);
    if |s| < |head| {
      assert s == EncodeString(data)[..|s|] == head[..|s|];
      CutVarint(|data|, 5, s);
    } else {
      var body := s[|head|..];
      assert s == head + body;
      Varint32RoundTrip(|data|, body);
    }
  }

  lemma ParsersConsume(s: seq<byte>)
    ensures ParseVarint32(s).Some? ==> |ParseVarint32(s).value.rest| < |s|
    ensures ParseVarint64(s).Some? ==> |ParseVarint64(s).value.rest| < |s|
    ensures ParseString(s).Some? ==> |ParseString(s).value.rest| < |s|
  {
    if ParseVarint(s, 5).Some? {
      VarintConsumes(s, 5);
    }
    if ParseVarint(s, 10).Some? {
      VarintConsumes(s, 10);
    }
  }
}
