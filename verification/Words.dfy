/**
 Bytes and 32-bit words as numbers, and as bits with the least significant one first, where
 exclusive or is position by position and a shift right drops bits at the front.
 */
module Words {
  type byte = x: int | 0 <= x < 256 witness 0
  type uint32 = x: int | 0 <= x < 0x1_0000_0000 witness 0
  type word = s: seq<bool> | |s| == 32 witness seq(32, i => false)
  type octet = s: seq<bool> | |s| == 8 witness seq(8, i => false)

  /** Concatenation associates. */
  lemma Append3<T>(a: seq<T>, b: seq<T>, c: seq<T>)
    ensures a + b + c == a + (b + c)
  {
  }

  function Zeros(n: nat): (z: seq<bool>)
    ensures |z| == n && forall i :: 0 <= i < n ==> !z[i]
  {
    seq(n, i => false)
  }

  function Xor(a: seq<bool>, b: seq<bool>): (r: seq<bool>)
    requires |a| == |b|
    ensures |r| == |a| && forall i {:trigger r[i]} :: 0 <= i < |a| ==> r[i] == (a[i] != b[i])
  {
    seq(|a|, i requires 0 <= i < |a| => a[i] != b[i])
  }

  function ToBits(x: nat, n: nat): (s: seq<bool>)
    ensures |s| == n
    decreases n, x
  {
    if n == 0 then [] else [x % 2 == 1] + ToBits(x / 2, n - 1)
  }

  function FromBits(s: seq<bool>): nat {
    if s == [] then 0 else (if s[0] then 1 else 0) + 2 * FromBits(s[1..])
  }

  function Pow2(k: nat): (p: nat)
    ensures p >= 1
  {
    if k == 0 then 1 else 2 * Pow2(k - 1)
  }

  function Octet(b: byte): octet {
    ToBits(b, 8)
  }

  function Number(w: word): uint32 {
    BitsFit(w);
    Pow2Of32();
    FromBits(w)
  }

  lemma {:induction false} BitsFit(s: seq<bool>)
    ensures FromBits(s) < Pow2(|s|)
  {
    if s != [] {
      BitsFit(s[1..]);
    }
  }

  lemma Pow2Of32()
    ensures Pow2(31) == 0x8000_0000 && Pow2(32) == 0x1_0000_0000
  {
    assert Pow2(4) == 16;
    assert Pow2(8) == 256;
    assert Pow2(12) == 4096;
    assert Pow2(16) == 65536;
    assert Pow2(20) == 0x10_0000;
    assert Pow2(24) == 0x100_0000;
    assert Pow2(28) == 0x1000_0000;
  }

  lemma {:induction false} BitsRoundTrip(s: seq<bool>)
    ensures ToBits(FromBits(s), |s|) == s
  {
    if s != [] {
      BitsRoundTrip(s[1..]);
      assert s == [s[0]] + s[1..];
    }
  }

  lemma {:induction false} NumberRoundTrip(x: nat, n: nat)
    requires x < Pow2(n)
    ensures FromBits(ToBits(x, n)) == x
    decreases n
  {
    if n > 0 {
      NumberRoundTrip(x / 2, n - 1);
      assert ToBits(x, n)[1..] == ToBits(x / 2, n - 1);
    }
  }

  /** The most significant bit says whether a number reaches half of the range. */
  lemma {:induction false} TopBit(x: nat, n: nat)
    requires 0 < n && x < Pow2(n)
    ensures ToBits(x, n)[n - 1] <==> x >= Pow2(n - 1)
    decreases n
  {
    if n > 1 {
      TopBit(x / 2, n - 1);
    }
  }

  lemma XorAssociates(a: seq<bool>, b: seq<bool>, c: seq<bool>)
    requires |a| == |b| == |c|
    ensures Xor(Xor(a, b), c) == Xor(a, Xor(b, c))
  {
  }

  /** Xor with the same bits twice changes nothing. */
  lemma XorCancels(a: seq<bool>, b: seq<bool>)
    requires |a| == |b|
    ensures Xor(Xor(a, b), b) == a && Xor(b, Xor(b, a)) == a
  {
  }

  ghost predicate IsPowerOfTwo(n: nat) {
    n == 1 || (n % 2 == 0 && n > 0 && IsPowerOfTwo(n / 2))
  }

  /** The bitwise and of two numbers. */
  function BitAnd(x: nat, y: nat): nat {
    if x == 0 || y == 0 then 0 else 2 * BitAnd(x / 2, y / 2) + if x % 2 == 1 && y % 2 == 1 then 1 else 0
  }

  /** Each bit of the bitwise and is set just if it is set in both numbers. */
  lemma {:induction false} BitAndIsBitwise(x: nat, y: nat, n: nat, i: nat)
    requires i < n
    ensures ToBits(BitAnd(x, y), n)[i] <==> ToBits(x, n)[i] && ToBits(y, n)[i]
    decreases n
  {
    if x == 0 || y == 0 {
      ZeroHasNoBits(n, i);
    } else {
      HalfOfAnd(x, y);
      if i > 0 {
        hide BitAnd;
        BitAndIsBitwise(x / 2, y / 2, n - 1, i - 1);
      }
    }
  }

  lemma HalfOfAnd(x: nat, y: nat)
    requires x > 0 && y > 0
    ensures BitAnd(x, y) / 2 == BitAnd(x / 2, y / 2) && (BitAnd(x, y) % 2 == 1 <==> x % 2 == 1 && y % 2 == 1)
  {
  }

  lemma {:induction false} ZeroHasNoBits(n: nat, i: nat)
    requires i < n
    ensures !ToBits(0, n)[i]
    decreases n
  {
    if i > 0 {
      ZeroHasNoBits(n - 1, i - 1);
    }
  }

  /** A power of two fits a number some times, and what is left over is its masked part. */
  lemma {:induction false} MaskLeaves(x: nat, n: nat) returns (q: nat)
    requires IsPowerOfTwo(n)
    ensures BitAnd(x, n - 1) < n && x == q * n + BitAnd(x, n - 1)
  {
    if n == 1 {
      q := x;
    } else if x == 0 {
      q := 0;
    } else {
      var m := n / 2;
      assert n == 2 * m && (n - 1) / 2 == m - 1 && (n - 1) % 2 == 1;
      q := MaskLeaves(x / 2, m);
      Doubled(q, m);
    }
  }

  lemma Doubled(q: nat, m: nat)
    ensures q * (2 * m) == 2 * (q * m)
  {
  }

  /** Masking with a power of two less one takes the remainder. */
  lemma MaskIsRemainder(x: nat, n: nat)
    requires IsPowerOfTwo(n)
    ensures BitAnd(x, n - 1) == x % n
  {
    hide BitAnd;
    var q := MaskLeaves(x, n);
    RemainderIs(x, n, q, BitAnd(x, n - 1));
  }

  lemma RemainderIs(x: nat, n: nat, q: nat, r: nat)
    requires r < n && x == q * n + r
    ensures x % n == r
  {
    var d := x / n - q;
    assert d * n == r - x % n;
    Multiples(d, n);
  }

  lemma Multiples(d: int, n: int)
    requires n >= 0
    ensures d > 0 ==> d * n >= n
    ensures d < 0 ==> d * n <= -n
  {
  }
}
