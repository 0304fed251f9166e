/**
 CRC-32C (util/crc32c.cc, util/crc32c.h; section 12.1 of RFC 3720): the register is defined
 one bit at a time, and the table-driven code that takes in one or four bytes at a time is
 proved to compute it.
 */
module Crc32c {
  import opened Words

  /** The Castagnoli polynomial, bits reflected. */
  function Polynomial(): word {
    ToBits(0x82f6_3b78, 32)
  }

  function Ones(): word {
    seq(32, i => true)
  }

  function ShiftRight(l: word, n: nat): word
    requires n <= 32
  {
    l[n..] + Zeros(n)
  }

  /** A byte as a word. */
  function Widen(b: octet): word {
    b + Zeros(24)
  }

  /** One step of polynomial division. */
  function Bit(l: word): word {
    if l[0] then Xor(ShiftRight(l, 1), Polynomial()) else ShiftRight(l, 1)
  }

  function Bits(l: word, n: nat): word
    decreases n, l
  {
    if n == 0 then l else Bits(Bit(l), n - 1)
  }

  /** The register after taking in bytes, eight division steps for each. */
  function Register(l: word, data: seq<byte>): word
    decreases |data|
  {
    if data == [] then l else Register(Bits(Xor(l, Widen(Octet(data[0]))), 8), data[1..])
  }

  /** The CRC of A followed by `data`, given the CRC of A. */
  function Extended(crc: word, data: seq<byte>): word {
    Xor(Register(Xor(crc, Ones()), data), Ones())
  }

  function Value(data: seq<byte>): uint32 {
    Number(Extended(Zeros(32), data))
  }

  /** Entry `c` of table `k`: `c` taken through 8 * (k + 1) division steps. */
  function Table(k: nat, c: octet): word {
    Bits(Widen(c), 8 * (k + 1))
  }

  // ---- Division is linear over xor

  lemma BitIsLinear(x: word, y: word)
    ensures Bit(Xor(x, y)) == Xor(Bit(x), Bit(y))
  {
    assert ShiftRight(Xor(x, y), 1) == Xor(ShiftRight(x, 1), ShiftRight(y, 1));
  }

  lemma {:induction false} BitsAreLinear(x: word, y: word, n: nat)
    ensures Bits(Xor(x, y), n) == Xor(Bits(x, n), Bits(y, n))
    decreases n
  {
    if n > 0 {
      BitIsLinear(x, y);
      BitsAreLinear(Bit(x), Bit(y), n - 1);
    }
  }

  lemma {:induction false} BitsAdd(l: word, m: nat, n: nat)
    ensures Bits(l, m + n) == Bits(Bits(l, m), n)
    decreases m
  {
    if m > 0 {
      BitsAdd(Bit(l), m - 1, n);
    }
  }

  /** A register whose low `n` bits are zero is only shifted by `n` steps. */
  lemma {:induction false} BitsShift(h: seq<bool>, n: nat)
    requires |h| + n == 32
    ensures Bits(Zeros(n) + h, n) == h + Zeros(n)
    decreases n
  {
    if n == 0 {
      assert Zeros(0) + h == h + Zeros(0) == h;
    } else {
      var l := Zeros(n) + h;
      assert Bit(l) == Zeros(n - 1) + (h + [false]);
      BitsShift(h + [false], n - 1);
      assert h + [false] + Zeros(n - 1) == h + Zeros(n);
    }
  }

  /** The low byte can be looked up, and the rest moves down by one byte. */
  lemma SplitByTable(c: word, n: nat)
    ensures Bits(c, 8 * (n + 1)) == Xor(Table(n, c[..8]), Bits(ShiftRight(c, 8), 8 * n))
  {
    var lo, h := c[..8], c[8..];
    assert c == Xor(Widen(lo), Zeros(8) + h);
    BitsAreLinear(Widen(lo), Zeros(8) + h, 8 * (n + 1));
    BitsAdd(Zeros(8) + h, 8, 8 * n);
    BitsShift(h, 8);
  }

  // ---- The table-driven steps

  function Step1(l: word, b: byte): word {
    Xor(Table(0, Xor(l[..8], Octet(b))), ShiftRight(l, 8))
  }

  lemma Step1IsOneByte(l: word, b: byte)
    ensures Step1(l, b) == Bits(Xor(l, Widen(Octet(b))), 8)
  {
    hide ToBits;
    var x := Xor(l, Widen(Octet(b)));
    SplitByTable(x, 0);
    assert x[..8] == Xor(l[..8], Octet(b));
    assert ShiftRight(x, 8) == ShiftRight(l, 8);
  }

  /** Four bytes as a little-endian word. */
  function Load32(b0: byte, b1: byte, b2: byte, b3: byte): word {
    Octet(b0) + Octet(b1) + Octet(b2) + Octet(b3)
  }

  function Step4(l: word, load: word): word {
    var c := Xor(l, load);
    Xor(Xor(Xor(Table(3, c[..8]), Table(2, c[8..16])), Table(1, c[16..24])), Table(0, c[24..32]))
  }

  lemma ShiftTwice(c: word, m: nat, n: nat)
    requires m + n <= 32
    ensures ShiftRight(ShiftRight(c, m), n) == ShiftRight(c, m + n)
  {
  }

  lemma LowByteOfShift(c: word, m: nat)
    requires m <= 24
    ensures ShiftRight(c, m)[..8] == c[m..m + 8]
  {
  }

  lemma XorZeros(a: seq<bool>)
    ensures Xor(a, Zeros(|a|)) == a
  {
  }

  /** Thirty-two division steps at once, one table for each byte of the register. */
  lemma FourTables(l: word, load: word)
    ensures Step4(l, load) == Bits(Xor(l, load), 32)
  {
    var c := Xor(l, load);
    FourTablesOf(c);
    var t3, t2, t1, t0 := Table(3, c[..8]), Table(2, c[8..16]), Table(1, c[16..24]), Table(0, c[24..32]);
    XorAssociates(t3, t2, Xor(t1, t0));
    XorAssociates(Xor(t3, t2), t1, t0);
  }

  lemma FourTablesOf(c: word)
    ensures Bits(c, 32) == Xor(Table(3, c[..8]), Xor(Table(2, c[8..16]), Xor(Table(1, c[16..24]), Table(0, c[24..32]))))
  {
    hide Table, ToBits, Bits;
    SplitByTable(c, 3);
    SplitAt(c, 8, 2);
    SplitAt(c, 16, 1);
    SplitAt(c, 24, 0);
    NothingLeft(c);
    XorZeros(Table(0, c[24..32]));
  }

  lemma NothingLeft(c: word)
    ensures Bits(ShiftRight(c, 32), 0) == Zeros(32)
  {
  }

  lemma SplitAt(c: word, m: nat, n: nat)
    requires m <= 24
    ensures Bits(ShiftRight(c, m), 8 * (n + 1)) == Xor(Table(n, c[m..m + 8]), Bits(ShiftRight(c, m + 8), 8 * n))
  {
    SplitByTable(ShiftRight(c, m), n);
    ShiftTwice(c, m, 8);
    LowByteOfShift(c, m);
  }

  function Octets(data: seq<byte>): (s: seq<bool>)
    ensures |s| == 8 * |data|
  {
    if data == [] then [] else Octet(data[0]) + Octets(data[1..])
  }

  lemma OctetsCons(b: byte, rest: seq<byte>)
    ensures Octets([b] + rest) == Octet(b) + Octets(rest)
  {
    assert ([b] + rest)[1..] == rest;
  }

  /** Eight steps on a word take in its low byte. */
  lemma TakeLowByte(l: word, b: octet, rest: seq<bool>)
    requires |rest| == 24
    ensures Bits(Xor(l, b + rest), 8) == Xor(Bits(Xor(l, Widen(b)), 8), rest + Zeros(8))
  {
    assert Xor(l, b + rest) == Xor(Xor(l, Widen(b)), Zeros(8) + rest);
    BitsAreLinear(Xor(l, Widen(b)), Zeros(8) + rest, 8);
    BitsShift(rest, 8);
  }

  /** Bytes padded with zeros to a word. */
  function Padded(data: seq<byte>): word
    requires |data| <= 4
  {
    Octets(data) + Zeros(32 - 8 * |data|)
  }

  lemma PaddedCons(b: byte, rest: seq<byte>)
    requires |rest| <= 3
    ensures var low := Octets(rest) + Zeros(24 - 8 * |rest|);
            Padded([b] + rest) == Octet(b) + low && Padded(rest) == low + Zeros(8)
  {
    hide Octets, Octet, Zeros, Padded;
    var n := 24 - 8 * |rest|;
    OctetsCons(b, rest);
    PaddedIs([b] + rest, n);
    PaddedIs(rest, n + 8);
    ZerosSplit(n);
    Append3(Octet(b), Octets(rest), Zeros(n));
    Append3(Octets(rest), Zeros(n), Zeros(8));
  }

  lemma PaddedIs(data: seq<byte>, n: nat)
    requires 8 * |data| + n == 32
    ensures Padded(data) == Octets(data) + Zeros(n)
  {
  }

  lemma ZerosSplit(n: nat)
    ensures Zeros(n + 8) == Zeros(n) + Zeros(8)
  {
  }

  /** Taking in up to four bytes one by one is taking them in as one word. */
  lemma {:induction false} BytesAsWord(l: word, data: seq<byte>)
    requires |data| <= 4
    ensures Register(l, data) == Bits(Xor(l, Padded(data)), 8 * |data|)
    decreases |data|
  {
    if data == [] {
      XorZeros(l);
      assert Padded([]) == Zeros(32);
    } else {
      var b, rest := data[0], data[1..];
      assert data == [b] + rest;
      PaddedCons(b, rest);
      TakeLowByte(l, Octet(b), Octets(rest) + Zeros(24 - 8 * |rest|));
      BitsAdd(Xor(l, Padded(data)), 8, 8 * |rest|);
      BytesAsWord(Bits(Xor(l, Widen(Octet(b))), 8), rest);
    }
  }

  lemma LoadIsPadded(b0: byte, b1: byte, b2: byte, b3: byte)
    ensures Padded([b0, b1, b2, b3]) == Load32(b0, b1, b2, b3)
  {
    OctetsCons(b3, []);
    OctetsCons(b2, [b3]);
    OctetsCons(b1, [b2, b3]);
    OctetsCons(b0, [b1, b2, b3]);
    assert [b0, b1, b2, b3] == [b0] + [b1, b2, b3] && [b1, b2, b3] == [b1] + [b2, b3] && [b2, b3] == [b2] + [b3]
        && [b3] == [b3] + [];
  }

  /** Four bytes through the four tables are four bytes one bit at a time. */
  lemma Step4IsFourBytes(l: word, b0: byte, b1: byte, b2: byte, b3: byte)
    ensures Step4(l, Load32(b0, b1, b2, b3)) == Register(l, [b0, b1, b2, b3])
  {
    LoadIsPadded(b0, b1, b2, b3);
    BytesAsWord(l, [b0, b1, b2, b3]);
    FourTables(l, Load32(b0, b1, b2, b3));
  }

  lemma {:induction false} RegisterAppend(l: word, a: seq<byte>, b: seq<byte>)
    ensures Register(l, a + b) == Register(Register(l, a), b)
    decreases |a|
  {
    if a == [] {
      assert a + b == b;
    } else {
      assert (a + b)[1..] == a[1..] + b;
      RegisterAppend(Bits(Xor(l, Widen(Octet(a[0]))), 8), a[1..], b);
    }
  }

  /** Extending over A and then over B is extending over A followed by B. */
  lemma ExtendedAppend(crc: word, a: seq<byte>, b: seq<byte>)
    ensures Extended(crc, a + b) == Extended(Extended(crc, a), b)
  {
    RegisterAppend(Xor(crc, Ones()), a, b);
    XorCancels(Register(Xor(crc, Ones()), a), Ones());
  }

  lemma RegisterUpTo(start: word, buf: seq<byte>, p: nat, n: nat)
    requires p + n <= |buf|
    ensures Register(start, buf[..p + n]) == Register(Register(start, buf[..p]), buf[p..p + n])
  {
    assert buf[..p + n] == buf[..p] + buf[p..p + n];
    RegisterAppend(start, buf[..p], buf[p..p + n]);
  }

  lemma NothingTaken(l: word)
    ensures Register(l, []) == l
  {
  }

  /** Takes in one byte at `p`. */
  method TakeByte(l: word, buf: seq<byte>, p: nat, ghost start: word) returns (l': word)
    requires p < |buf| && l == Register(start, buf[..p])
    ensures l' == Register(start, buf[..p + 1])
  {
    l' := Step1(l, buf[p]);
    Step1IsOneByte(l, buf[p]);
    RegisterUpTo(start, buf, p, 1);
    assert buf[p..p + 1] == [buf[p]];
  }

  /** Takes in four bytes at `p`. */
  method TakeWord(l: word, buf: seq<byte>, p: nat, ghost start: word) returns (l': word)
    requires p + 4 <= |buf| && l == Register(start, buf[..p])
    ensures l' == Register(start, buf[..p + 4])
  {
    hide Register, Step4;
    l' := Step4(l, Load32(buf[p], buf[p + 1], buf[p + 2], buf[p + 3]));
    Step4IsFourBytes(l, buf[p], buf[p + 1], buf[p + 2], buf[p + 3]);
    RegisterUpTo(start, buf, p, 4);
    assert buf[p..p + 4] == [buf[p], buf[p + 1], buf[p + 2], buf[p + 3]];
  }

  /**
   Single bytes up to a word boundary of memory, then words sixteen bytes at a time, then
   words, then the bytes that are left; `address` is where the buffer lies.
   */
  method Extend(crc: word, buf: seq<byte>, address: nat) returns (r: word)
    ensures r == Extended(crc, buf)
  {
    hide Register, Xor;
    var l := Xor(crc, Ones());
    ghost var start := l;
    NothingTaken(l);
    assert buf[..0] == [];
    var p, x := 0, (address + 3) / 4 * 4 - address;
    if x <= |buf| {
      while p != x
        invariant 0 <= p <= x && l == Register(start, buf[..p])
        decreases x - p
      {
        l := TakeByte(l, buf, p, start);
        p := p + 1;
      }
    }
    while |buf| - p >= 16
      invariant p <= |buf| && l == Register(start, buf[..p])
    {
      l := TakeWord(l, buf, p, start);
      l := TakeWord(l, buf, p + 4, start);
      l := TakeWord(l, buf, p + 8, start);
      l := TakeWord(l, buf, p + 12, start);
      p := p + 16;
    }
    while |buf| - p >= 4
      invariant p <= |buf| && l == Register(start, buf[..p])
    {
      l := TakeWord(l, buf, p, start);
      p := p + 4;
    }
    while p != |buf|
      invariant p <= |buf| && l == Register(start, buf[..p])
      decreases |buf| - p
    {
      l := TakeByte(l, buf, p, start);
      p := p + 1;
    }
    assert buf[..p] == buf;
    r := Xor(l, Ones());
  }

  // ---- What the checksum detects

  /** The polynomial has its top bit set, so a division step leaves there the bit it shifts out. */
  lemma LastBit(x: word)
    ensures Bit(x)[31] == x[0]
  {
    hide ToBits, Polynomial;
    TopOfPolynomial();
    assert ShiftRight(x, 1)[31] == false;
  }

  lemma TopOfPolynomial()
    ensures Polynomial()[31]
  {
    hide ToBits;
    Pow2Of32();
    TopBit(0x82f6_3b78, 32);
  }

  /** A division step can be undone. */
  lemma BitIsInjective(x: word, y: word)
    requires Bit(x) == Bit(y)
    ensures x == y
  {
    hide ToBits;
    LastBit(x);
    LastBit(y);
    XorCancels(ShiftRight(x, 1), Polynomial());
    XorCancels(ShiftRight(y, 1), Polynomial());
    assert x == [x[0]] + ShiftRight(x, 1)[..31] && y == [y[0]] + ShiftRight(y, 1)[..31];
  }

  lemma {:induction false} BitsAreInjective(x: word, y: word, n: nat)
    requires Bits(x, n) == Bits(y, n)
    ensures x == y
    decreases n
  {
    if n > 0 {
      BitsAreInjective(Bit(x), Bit(y), n - 1);
      BitIsInjective(x, y);
    }
  }

  lemma {:induction false} RegisterIsInjective(x: word, y: word, data: seq<byte>)
    requires Register(x, data) == Register(y, data)
    ensures x == y
    decreases |data|
  {
    if data != [] {
      var b := Widen(Octet(data[0]));
      RegisterIsInjective(Bits(Xor(x, b), 8), Bits(Xor(y, b), 8), data[1..]);
      BitsAreInjective(Xor(x, b), Xor(y, b), 8);
      XorCancels(x, b);
      XorCancels(y, b);
    }
  }

  lemma {:induction false} OctetsAreInjective(u: seq<byte>, v: seq<byte>)
    requires |u| == |v| && Octets(u) == Octets(v)
    ensures u == v
  {
    if u != [] {
      var s := Octets(u);
      assert Octet(u[0]) == s[..8] == Octet(v[0]) && Octets(u[1..]) == s[8..] == Octets(v[1..]);
      assert Pow2(4) == 16 && Pow2(8) == 256;
      NumberRoundTrip(u[0], 8);
      NumberRoundTrip(v[0], 8);
      OctetsAreInjective(u[1..], v[1..]);
      assert u == [u[0]] + u[1..] && v == [v[0]] + v[1..];
    }
  }

  /** Two buffers that differ only within four consecutive bytes have different checksums. */
  lemma BurstIsDetected(before: seq<byte>, u: seq<byte>, v: seq<byte>, after: seq<byte>)
    requires |u| == |v| <= 4 && u != v
    ensures Value(before + u + after) != Value(before + v + after)
  {
    if Value(before + u + after) == Value(before + v + after) {
      var start := Xor(Zeros(32), Ones());
      var l := Register(start, before);
      RegisterAppend(start, before + u, after);
      RegisterAppend(start, before, u);
      RegisterAppend(start, before + v, after);
      RegisterAppend(start, before, v);
      SameValue(Register(Register(l, u), after), Register(Register(l, v), after));
      RegisterIsInjective(Register(l, u), Register(l, v), after);
      SameBytes(l, u, v);
    }
  }

  lemma SameValue(x: word, y: word)
    requires Number(Xor(x, Ones())) == Number(Xor(y, Ones()))
    ensures x == y
  {
    BitsRoundTrip(Xor(x, Ones()));
    BitsRoundTrip(Xor(y, Ones()));
    XorCancels(x, Ones());
    XorCancels(y, Ones());
  }

  lemma SameBytes(l: word, u: seq<byte>, v: seq<byte>)
    requires |u| == |v| <= 4 && Register(l, u) == Register(l, v)
    ensures u == v
  {
    BytesAsWord(l, u);
    BytesAsWord(l, v);
    BitsAreInjective(Xor(l, Padded(u)), Xor(l, Padded(v)), 8 * |u|);
    XorCancels(Padded(u), l);
    XorCancels(Padded(v), l);
    assert Octets(u) == Padded(u)[..8 * |u|] && Octets(v) == Padded(v)[..8 * |u|];
    OctetsAreInjective(u, v);
  }

  // ---- Stored form

  const MASK_DELTA: uint32 := 0xa282_ead8

  /** Rotated right by fifteen bits, plus a constant. */
  function Mask(crc: uint32): uint32 {
    (crc / 0x8000 + crc % 0x8000 * 0x2_0000 + MASK_DELTA) % 0x1_0000_0000
  }

  function Unmask(masked: uint32): uint32 {
    var rot := (masked - MASK_DELTA) % 0x1_0000_0000;
    rot / 0x2_0000 + rot % 0x2_0000 * 0x8000
  }

  lemma AddThenSubtract(a: uint32, d: uint32)
    ensures ((a + d) % 0x1_0000_0000 - d) % 0x1_0000_0000 == a
    ensures ((a - d) % 0x1_0000_0000 + d) % 0x1_0000_0000 == a
  {
  }

  /** A checksum is recovered from its stored form, and every word is the stored form of one. */
  lemma UnmaskInvertsMask(x: uint32)
    ensures Unmask(Mask(x)) == x && Mask(Unmask(x)) == x
  {
    var rotated := x / 0x8000 + x % 0x8000 * 0x2_0000;
    AddThenSubtract(rotated, MASK_DELTA);
    assert rotated / 0x2_0000 == x % 0x8000 && rotated % 0x2_0000 == x / 0x8000;
    var rot := (x - MASK_DELTA) % 0x1_0000_0000;
    AddThenSubtract(x, MASK_DELTA);
    assert Unmask(x) / 0x8000 == rot % 0x2_0000 && Unmask(x) % 0x8000 == rot / 0x2_0000;
  }
}
