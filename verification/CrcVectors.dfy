/**
 Published values of CRC-32C (table entry 1 at util/crc32c.cc:19; section B.4 of RFC 3720): they
 fix the polynomial, the order of bits and the complements, which no law about checksums does.
 The steps are followed on machine words, where they can be evaluated.
 */
module CrcVectors {
  import opened Words
  import opened Crc32c

  predicate IsSet(l: bv32, mask: bv32) {
    l & mask != 0
  }

  function Mask(i: nat): bv32 {
    if i == 0 then 1 else Mask(i - 1) << 1
  }

  predicate BitAt(l: bv32, i: nat) {
    IsSet(l, Mask(i))
  }

  /** The bits of a machine word. */
  function WordOf(l: bv32): word {
    seq(32, i requires 0 <= i < 32 => BitAt(l, i))
  }

  // ---- Division on machine words

  predicate IsOneBit(mask: bv32) {
    mask & (mask - 1) == 0
  }

  lemma OneBitMoves(mask: bv32)
    requires IsOneBit(mask)
    ensures IsOneBit(mask << 1)
  {
  }

  lemma {:induction false} MaskIsOneBit(i: nat)
    ensures IsOneBit(Mask(i))
  {

    if i == 0 {
      assert IsOneBit(1);
    } else {
      MaskIsOneBit(i - 1);
      OneBitMoves(Mask(i - 1));
    }
  }

  lemma BitOfXor(l: bv32, m: bv32, mask: bv32)
    requires IsOneBit(mask)
    ensures IsSet(l ^ m, mask) == (IsSet(l, mask) != IsSet(m, mask))
  {
  }

  lemma XorOfWords(l: bv32, m: bv32)
    ensures WordOf(l ^ m) == Xor(WordOf(l), WordOf(m))
  {
    hide IsSet, IsOneBit, Mask;
    forall i | 0 <= i < 32
      ensures BitAt(l ^ m, i) == (BitAt(l, i) != BitAt(m, i))
    {
      MaskIsOneBit(i);
      BitOfXor(l, m, Mask(i));
    }
  }

  lemma BitOfShift(l: bv32, mask: bv32)
    ensures IsSet(l >> 1, mask) == IsSet(l, mask << 1)
  {
    assert (l >> 1) & mask == (l & (mask << 1)) >> 1;
    assert (l & (mask << 1)) & 1 == 0;
  }

  lemma NoBitAbove(l: bv32)
    ensures !BitAt(l, 32)
  {
    Masks();
  }

  lemma Masks()
    ensures Mask(0) == 0x1 && Mask(1) == 0x2 && Mask(2) == 0x4 && Mask(3) == 0x8
    ensures Mask(4) == 0x10 && Mask(5) == 0x20 && Mask(6) == 0x40 && Mask(7) == 0x80
    ensures Mask(8) == 0x100 && Mask(9) == 0x200 && Mask(10) == 0x400 && Mask(11) == 0x800
    ensures Mask(12) == 0x1000 && Mask(13) == 0x2000 && Mask(14) == 0x4000 && Mask(15) == 0x8000
    ensures Mask(16) == 0x1_0000 && Mask(17) == 0x2_0000 && Mask(18) == 0x4_0000 && Mask(19) == 0x8_0000
    ensures Mask(20) == 0x10_0000 && Mask(21) == 0x20_0000 && Mask(22) == 0x40_0000 && Mask(23) == 0x80_0000
    ensures Mask(24) == 0x100_0000 && Mask(25) == 0x200_0000 && Mask(26) == 0x400_0000 && Mask(27) == 0x800_0000
    ensures Mask(28) == 0x1000_0000 && Mask(29) == 0x2000_0000 && Mask(30) == 0x4000_0000 && Mask(31) == 0x8000_0000
    ensures Mask(32) == 0
  {
  }

  lemma NextBit(l: bv32, i: nat)
    ensures BitAt(l >> 1, i) == BitAt(l, i + 1)
  {
    hide IsSet;
    BitOfShift(l, Mask(i));
  }

  lemma ShiftOfWord(l: bv32)
    ensures WordOf(l >> 1) == ShiftRight(WordOf(l), 1)
  {
    hide BitAt;
    NoBitAbove(l);
    forall i | 0 <= i < 32
      ensures WordOf(l >> 1)[i] == ShiftRight(WordOf(l), 1)[i]
    {
      NextBit(l, i);
    }
  }

  // ---- Numbers as machine words

  /** The bits of `l` from bit `k` on are those of a number. */
  predicate HasBits(l: bv32, k: nat, x: nat, n: nat)
    decreases n
  {
    n == 0 || (BitAt(l, k) == (x % 2 == 1) && HasBits(l, k + 1, x / 2, n - 1))
  }

  lemma {:induction false} BitsAreThose(l: bv32, k: nat, x: nat, n: nat)
    requires k + n == 32 && HasBits(l, k, x, n)
    ensures WordOf(l)[k..] == ToBits(x, n)
    decreases n
  {
    hide BitAt;
    if n > 0 {
      BitsAreThose(l, k + 1, x / 2, n - 1);
      assert WordOf(l)[k..] == [BitAt(l, k)] + WordOf(l)[k + 1..];
    }
  }

  predicate HasByte(l: bv32, k: nat, x: nat) {
    && BitAt(l, k) == (x % 2 == 1)
    && BitAt(l, k + 1) == (x / 2 % 2 == 1)
    && BitAt(l, k + 2) == (x / 4 % 2 == 1)
    && BitAt(l, k + 3) == (x / 8 % 2 == 1)
    && BitAt(l, k + 4) == (x / 16 % 2 == 1)
    && BitAt(l, k + 5) == (x / 32 % 2 == 1)
    && BitAt(l, k + 6) == (x / 64 % 2 == 1)
    && BitAt(l, k + 7) == (x / 128 % 2 == 1)
  }

  lemma Halves(x: nat)
    ensures x / 2 / 2 == x / 4 && x / 4 / 2 == x / 8 && x / 8 / 2 == x / 16 && x / 16 / 2 == x / 32
    ensures x / 32 / 2 == x / 64 && x / 64 / 2 == x / 128 && x / 128 / 2 == x / 256
  {
  }

  lemma OneMore(l: bv32, k: nat, x: nat, n: nat)
    requires BitAt(l, k) == (x % 2 == 1) && HasBits(l, k + 1, x / 2, n)
    ensures HasBits(l, k, x, n + 1)
  {
  }

  lemma EightMore(l: bv32, k: nat, x: nat, n: nat)
    requires HasByte(l, k, x) && HasBits(l, k + 8, x / 256, n)
    ensures HasBits(l, k, x, n + 8)
  {
    hide BitAt, HasBits;
    Halves(x);
    OneMore(l, k + 7, x / 128, n);
    OneMore(l, k + 6, x / 64, n + 1);
    OneMore(l, k + 5, x / 32, n + 2);
    OneMore(l, k + 4, x / 16, n + 3);
    OneMore(l, k + 3, x / 8, n + 4);
    OneMore(l, k + 2, x / 4, n + 5);
    OneMore(l, k + 1, x / 2, n + 6);
    OneMore(l, k, x, n + 7);
  }

  lemma WordIs(l: bv32, x: uint32)
    requires HasByte(l, 0, x) && HasByte(l, 8, x / 0x100)
    requires HasByte(l, 16, x / 0x1_0000) && HasByte(l, 24, x / 0x100_0000)
    ensures WordOf(l) == ToBits(x, 32) && Number(WordOf(l)) == x
  {
    hide HasByte, WordOf;
    assert HasBits(l, 32, x / 0x100_0000 / 0x100, 0);
    assert x / 0x100_0000 / 0x100 == 0;
    EightMore(l, 24, x / 0x100_0000, 0);
    assert x / 0x1_0000 / 0x100 == x / 0x100_0000;
    EightMore(l, 16, x / 0x1_0000, 8);
    assert x / 0x100 / 0x100 == x / 0x1_0000;
    EightMore(l, 8, x / 0x100, 16);
    EightMore(l, 0, x, 24);
    BitsAreThose(l, 0, x, 32);
    Pow2Of32();
    NumberRoundTrip(x, 32);
  }

  lemma PolynomialIs()
    ensures WordOf(0x82f6_3b78) == Polynomial()
  {
    Masks();
    WordIs(0x82f6_3b78, 0x82f6_3b78);
  }

  // ---- Registers as machine words

  function Divide(l: bv32): bv32 {
    if l & 1 != 0 then (l >> 1) ^ 0x82f6_3b78 else l >> 1
  }

  lemma DivideIsBit(l: bv32)
    ensures WordOf(Divide(l)) == Bit(WordOf(l))
  {
    hide Polynomial, ShiftRight, Xor, Mask;
    ShiftOfWord(l);
    PolynomialIs();
    XorOfWords(l >> 1, 0x82f6_3b78);
    Masks();
    assert WordOf(l)[0] == BitAt(l, 0);
  }

  function Divide4(l: bv32): bv32 {
    Divide(Divide(Divide(Divide(l))))
  }

  lemma FourBits(w: word)
    ensures Bits(w, 4) == Bit(Bit(Bit(Bit(w))))
  {
    assert Bits(Bit(w), 3) == Bits(Bit(Bit(w)), 2) == Bits(Bit(Bit(Bit(w))), 1);
  }

  lemma Divide4IsBits(l: bv32)
    ensures WordOf(Divide4(l)) == Bits(WordOf(l), 4)
  {
    hide Divide, Bit, WordOf;
    FourBits(WordOf(l));
    DivideIsBit(l);
    DivideIsBit(Divide(l));
    DivideIsBit(Divide(Divide(l)));
    DivideIsBit(Divide(Divide(Divide(l))));
  }

  lemma Divide8IsBits(l: bv32)
    ensures WordOf(Divide4(Divide4(l))) == Bits(WordOf(l), 8)
  {
    hide Divide4, Bits, WordOf;
    Divide4IsBits(l);
    Divide4IsBits(Divide4(l));
    BitsAdd(WordOf(l), 4, 4);
  }

  /** A byte as a machine word. */
  predicate IsByte(c: bv32, b: byte) {
    HasByte(c, 0, b) && HasByte(c, 8, 0) && HasByte(c, 16, 0) && HasByte(c, 24, 0)
  }

  lemma {:induction false} SmallIsWidened(x: nat, n: nat, m: nat)
    requires x < Pow2(n)
    ensures ToBits(x, n + m) == ToBits(x, n) + Zeros(m)
    decreases n + m
  {
    if n > 0 {
      SmallIsWidened(x / 2, n - 1, m);
    } else if m > 0 {
      SmallIsWidened(0, 0, m - 1);
    }
  }

  lemma ByteIs(c: bv32, b: byte)
    requires IsByte(c, b)
    ensures WordOf(c) == Widen(Octet(b))
  {
    hide HasByte, WordOf, ToBits, Zeros;
    assert b / 0x100 == 0 && b / 0x1_0000 == 0 && b / 0x100_0000 == 0;
    WordIs(c, b);
    assert Pow2(4) == 16 && Pow2(8) == 256;
    SmallIsWidened(b, 8, 24);
  }

  /** One more byte is taken in. */
  lemma TakeIn(l: bv32, c: bv32, b: byte, rest: seq<byte>, r: bv32)
    requires IsByte(c, b) && r == Divide4(Divide4(l ^ c))
    ensures Register(WordOf(l), [b] + rest) == Register(WordOf(r), rest)
  {
    hide IsByte, WordOf, Widen, Octet, Xor, Divide4;
    ByteIs(c, b);
    XorOfWords(l, c);
    Divide8IsBits(l ^ c);
    assert ([b] + rest)[0] == b && ([b] + rest)[1..] == rest;
  }

  lemma BytesFromOne()
    ensures IsByte(0x31, 0x31) && IsByte(0x32, 0x32) && IsByte(0x33, 0x33)
  {
    hide Mask;
    Masks();
  }

  lemma TakeFromOne(rest: seq<byte>)
    ensures Register(WordOf(0xffff_ffff), [0x31] + ([0x32] + ([0x33] + rest))) == Register(WordOf(0xef84_d04d), rest)
  {
    hide WordOf, IsByte;
    BytesFromOne();
    TakeIn(0xffff_ffff, 0x31, 0x31, [0x32] + ([0x33] + rest), 0x6f0a_661c);
    TakeIn(0x6f0a_661c, 0x32, 0x32, [0x33] + rest, 0x8caa_3b9f);
    TakeIn(0x8caa_3b9f, 0x33, 0x33, rest, 0xef84_d04d);
  }

  lemma BytesFromFour()
    ensures IsByte(0x34, 0x34) && IsByte(0x35, 0x35) && IsByte(0x36, 0x36)
  {
    hide Mask;
    Masks();
  }

  lemma TakeFromFour(rest: seq<byte>)
    ensures Register(WordOf(0xef84_d04d), [0x34] + ([0x35] + ([0x36] + rest))) == Register(WordOf(0xbeca_8e79), rest)
  {
    hide WordOf, IsByte;
    BytesFromFour();
    TakeIn(0xef84_d04d, 0x34, 0x34, [0x35] + ([0x36] + rest), 0x09c5_0b11);
    TakeIn(0x09c5_0b11, 0x35, 0x35, [0x36] + rest, 0xe72e_dcca);
    TakeIn(0xe72e_dcca, 0x36, 0x36, rest, 0xbeca_8e79);
  }

  lemma BytesFromSeven()
    ensures IsByte(0x37, 0x37) && IsByte(0x38, 0x38) && IsByte(0x39, 0x39)
  {
    hide Mask;
    Masks();
  }

  lemma TakeFromSeven(rest: seq<byte>)
    ensures Register(WordOf(0xbeca_8e79), [0x37] + ([0x38] + ([0x39] + rest))) == Register(WordOf(0x1cf9_6d7c), rest)
  {
    hide WordOf, IsByte;
    BytesFromSeven();
    TakeIn(0xbeca_8e79, 0x37, 0x37, [0x38] + ([0x39] + rest), 0xedbd_6815);
    TakeIn(0xedbd_6815, 0x38, 0x38, [0x39] + rest, 0x9f78_7f65);
    TakeIn(0x9f78_7f65, 0x39, 0x39, rest, 0x1cf9_6d7c);
  }

  lemma OnesAre()
    ensures WordOf(0xffff_ffff) == Ones()
  {
    hide Mask;
    Masks();
    assert forall i :: 0 <= i < 32 ==> BitAt(0xffff_ffff, i);
  }

  lemma EntryOneIs()
    ensures IsByte(1, 1) && Number(WordOf(0xf26b_8303)) == 0xf26b_8303
  {
    hide Mask, WordOf, ToBits, Number;
    Masks();
    WordIs(0xf26b_8303, 0xf26b_8303);
  }

  /** Entry 1 of the first table. */
  lemma TableEntryOne()
    ensures Number(Table(0, Octet(1))) == 0xf26b_8303
  {
    hide IsByte, WordOf, Number, Octet;
    EntryOneIs();
    ByteIs(1, 1);
    Divide8IsBits(1);
    assert Divide4(Divide4(1)) == 0xf26b_8303;
  }

  lemma LastRegister()
    ensures Number(Xor(WordOf(0x1cf9_6d7c), WordOf(0xffff_ffff))) == 0xe306_9283
  {
    hide Mask, WordOf, Xor, ToBits;
    XorOfWords(0x1cf9_6d7c, 0xffff_ffff);
    Masks();
    WordIs(0xe306_9283, 0xe306_9283);
  }

  lemma RegisterOfDigits(digits: seq<byte>)
    requires digits == [0x31, 0x32, 0x33, 0x34, 0x35, 0x36, 0x37, 0x38, 0x39]
    ensures Register(WordOf(0xffff_ffff), digits) == WordOf(0x1cf9_6d7c)
  {
    hide WordOf, Register;
    var seven := [0x37] + ([0x38] + ([0x39] + []));
    var four := [0x34] + ([0x35] + ([0x36] + seven));
    TakeFromOne(four);
    TakeFromFour(seven);
    TakeFromSeven([]);
    NothingTaken(WordOf(0x1cf9_6d7c));
    assert digits == [0x31] + ([0x32] + ([0x33] + four));
  }

  lemma OnesFromZeros()
    ensures Xor(Zeros(32), Ones()) == Ones()
  {
  }

  /** The checksum of the digits one to nine, and its stored form. */
  lemma ValueOfDigits(digits: seq<byte>)
    requires digits == [0x31, 0x32, 0x33, 0x34, 0x35, 0x36, 0x37, 0x38, 0x39]
    ensures Value(digits) == 0xe306_9283 && Crc32c.Mask(Value(digits)) == 0xc78a_b0e5
  {
    hide WordOf, Register, Xor, Number, Ones;
    OnesFromZeros();
    OnesAre();
    RegisterOfDigits(digits);
    LastRegister();
  }

  lemma ZeroTaken()
    ensures Number(Xor(WordOf(0xad82_acae), WordOf(0xffff_ffff))) == 0x527d_5351 && IsByte(0, 0)
  {
    hide Mask, WordOf, Xor, ToBits;
    XorOfWords(0xad82_acae, 0xffff_ffff);
    Masks();
    WordIs(0x527d_5351, 0x527d_5351);
  }

  /** The checksum of one byte that is zero. */
  lemma ValueOfZero()
    ensures Value([0]) == 0x527d_5351
  {
    hide WordOf, Register, Xor, Number, Ones, IsByte;
    OnesFromZeros();
    OnesAre();
    ZeroTaken();
    TakeIn(0xffff_ffff, 0, 0, [], 0xad82_acae);
    NothingTaken(WordOf(0xad82_acae));
    assert [0] + [] == [0];
  }
}
