/**
 The Bloom filter (util/bloom.cc): every key sets the bits of its probe sequence, and a key may
 match if all of them are set. The hash is any function.
 */
module Bloom {
  import opened Words

  type Key = seq<byte>
  type Hash = Key -> uint32

  function HasBit(b: byte, j: nat): bool
    requires j < 8
  {
    Octet(b)[j]
  }

  function SetBit(b: byte, j: nat): byte
    requires j < 8
  {
    BitsFit(Octet(b)[j := true]);
    assert Pow2(4) == 16 && Pow2(8) == 256;
    FromBits(Octet(b)[j := true])
  }

  lemma SetBitSets(b: byte, j: nat)
    requires j < 8
    ensures forall i :: 0 <= i < 8 ==> HasBit(SetBit(b, j), i) == (i == j || HasBit(b, i))
  {
    BitsRoundTrip(Octet(b)[j := true]);
  }

  /** Bit `pos` of an array of bytes. */
  predicate BitAt(bits: seq<byte>, pos: nat)
    requires pos < 8 * |bits|
  {
    HasBit(bits[pos / 8], pos % 8)
  }

  function WithBit(bits: seq<byte>, pos: nat): (r: seq<byte>)
    requires pos < 8 * |bits|
    ensures |r| == |bits|
  {
    bits[pos / 8 := SetBit(bits[pos / 8], pos % 8)]
  }

  /** Setting a bit sets it, and clears none. */
  lemma WithBitSets(bits: seq<byte>, pos: nat, other: nat)
    requires pos < 8 * |bits| && other < 8 * |bits|
    ensures BitAt(WithBit(bits, pos), other) == (other == pos || BitAt(bits, other))
  {
    SetBitSets(bits[pos / 8], pos % 8);
    if other / 8 == pos / 8 && other % 8 == pos % 8 {
      assert other == pos;
    }
  }

  /** Rotated right by seventeen bits. */
  function Delta(h: uint32): uint32 {
    h / 0x2_0000 + h % 0x2_0000 * 0x8000
  }

  function NextProbe(h: uint32, delta: uint32): uint32 {
    (h + delta) % 0x1_0000_0000
  }

  /** All of `k` probes from `h` on find their bit set. */
  predicate AllSet(bits: seq<byte>, h: uint32, delta: uint32, k: nat)
    requires bits != []
    decreases k
  {
    k == 0 || (BitAt(bits, h % (8 * |bits|)) && AllSet(bits, NextProbe(h, delta), delta, k - 1))
  }

  function SetAll(bits: seq<byte>, h: uint32, delta: uint32, k: nat): (r: seq<byte>)
    requires bits != []
    ensures |r| == |bits|
    decreases k
  {
    if k == 0 then bits else SetAll(WithBit(bits, h % (8 * |bits|)), NextProbe(h, delta), delta, k - 1)
  }

  /** Whether bit `pos` is one of the `k` probes from `h` on, in an array of `bits` bits. */
  predicate Probes(bits: nat, h: uint32, delta: uint32, k: nat, pos: nat)
    requires bits > 0
    decreases k
  {
    k > 0 && (h % bits == pos || Probes(bits, NextProbe(h, delta), delta, k - 1, pos))
  }

  /** The probes of a hash are spaced evenly, modulo 2^32. */
  lemma {:induction false} ProbesAre(bits: nat, h: uint32, delta: uint32, k: nat, pos: nat)
    requires bits > 0
    ensures Probes(bits, h, delta, k, pos) <==> exists i :: 0 <= i < k && IsProbe(bits, h, delta, i, pos)
    decreases k
  {
    hide IsProbe, NextProbe;
    if k > 0 {
      var next := NextProbe(h, delta);
      ProbesAre(bits, next, delta, k - 1, pos);
      FirstProbe(bits, h, delta, pos);
      if Probes(bits, next, delta, k - 1, pos) {
        var i :| 0 <= i < k - 1 && IsProbe(bits, next, delta, i, pos);
        NextIsProbe(bits, h, delta, i, pos);
      }
      if i :| 0 <= i < k && IsProbe(bits, h, delta, i, pos) {
        if i > 0 {
          NextIsProbe(bits, h, delta, i - 1, pos);
        }
      }
    }
  }

  predicate IsProbe(bits: nat, h: uint32, delta: uint32, i: nat, pos: nat)
    requires bits > 0
  {
    (h + i * delta) % 0x1_0000_0000 % bits == pos
  }

  lemma FirstProbe(bits: nat, h: uint32, delta: uint32, pos: nat)
    requires bits > 0
    ensures IsProbe(bits, h, delta, 0, pos) <==> h % bits == pos
  {
  }

  lemma NextIsProbe(bits: nat, h: uint32, delta: uint32, i: nat, pos: nat)
    requires bits > 0
    ensures IsProbe(bits, NextProbe(h, delta), delta, i, pos) <==> IsProbe(bits, h, delta, i + 1, pos)
  {
    OneFurther(h, delta, i);
  }

  lemma OneFurther(h: uint32, delta: uint32, i: nat)
    ensures (NextProbe(h, delta) + i * delta) % 0x1_0000_0000 == (h + (i + 1) * delta) % 0x1_0000_0000
  {
    assert (i + 1) * delta == i * delta + delta;
    AddModulo(h + delta, i * delta);
  }

  lemma AddModulo(x: nat, y: nat)
    ensures (x % 0x1_0000_0000 + y) % 0x1_0000_0000 == (x + y) % 0x1_0000_0000
  {
  }

  /** The step between probes is the hash rotated right by seventeen bits. */
  lemma DeltaRotates(high: nat, low: nat)
    requires high < 0x8000 && low < 0x2_0000
    ensures Delta(high * 0x2_0000 + low) == low * 0x8000 + high
  {
  }

  lemma {:induction false} SetAllIsExact(bits: seq<byte>, h: uint32, delta: uint32, k: nat, pos: nat)
    requires bits != [] && pos < 8 * |bits|
    ensures BitAt(SetAll(bits, h, delta, k), pos) <==> BitAt(bits, pos) || Probes(8 * |bits|, h, delta, k, pos)
    decreases k
  {
    if k > 0 {
      WithBitSets(bits, h % (8 * |bits|), pos);
      SetAllIsExact(WithBit(bits, h % (8 * |bits|)), NextProbe(h, delta), delta, k - 1, pos);
    }
  }

  lemma {:induction false} AllSetMeans(bits: seq<byte>, h: uint32, delta: uint32, k: nat)
    requires bits != []
    ensures AllSet(bits, h, delta, k) <==> forall pos | 0 <= pos < 8 * |bits|
            && Probes(8 * |bits|, h, delta, k, pos) :: BitAt(bits, pos)
    decreases k
  {
    if k > 0 {
      AllSetMeans(bits, NextProbe(h, delta), delta, k - 1);
      assert Probes(8 * |bits|, h, delta, k, h % (8 * |bits|));
      if AllSet(bits, h, delta, k) {
        forall pos | 0 <= pos < 8 * |bits| && Probes(8 * |bits|, h, delta, k, pos) ensures BitAt(bits, pos) {
        }
      } else if BitAt(bits, h % (8 * |bits|)) {
        var pos :| 0 <= pos < 8 * |bits| && Probes(8 * |bits|, NextProbe(h, delta), delta, k - 1, pos)
            && !BitAt(bits, pos);
        assert Probes(8 * |bits|, h, delta, k, pos);
      }
    }
  }

  /** The bits of several keys, set one key after the other. */
  function SetKeys(hash: Hash, bits: seq<byte>, keys: seq<Key>, k: nat): (r: seq<byte>)
    requires bits != []
    ensures |r| == |bits|
    decreases |keys|
  {
    if keys == [] then bits
    else
      var h := hash(keys[|keys| - 1]);
      SetAll(SetKeys(hash, bits, keys[..|keys| - 1], k), h, Delta(h), k)
  }

  /** Bit `pos` is a probe of one of the keys. */
  ghost predicate ProbedBy(hash: Hash, keys: seq<Key>, bits: nat, k: nat, pos: nat)
    requires bits > 0
  {
    exists i :: 0 <= i < |keys| && Probes(bits, hash(keys[i]), Delta(hash(keys[i])), k, pos)
  }

  lemma {:induction false} SetKeysIsExact(hash: Hash, bits: seq<byte>, keys: seq<Key>, k: nat, pos: nat)
    requires bits != [] && pos < 8 * |bits|
    ensures BitAt(SetKeys(hash, bits, keys, k), pos) <==> BitAt(bits, pos) || ProbedBy(hash, keys, 8 * |bits|, k, pos)
    decreases |keys|
  {
    if keys != [] {
      var front, h := keys[..|keys| - 1], hash(keys[|keys| - 1]);
      SetKeysIsExact(hash, bits, front, k, pos);
      SetAllIsExact(SetKeys(hash, bits, front, k), h, Delta(h), k, pos);
      assert forall i :: 0 <= i < |front| ==> front[i] == keys[i];
      if ProbedBy(hash, keys, 8 * |bits|, k, pos) && !Probes(8 * |bits|, h, Delta(h), k, pos) {
        var i :| 0 <= i < |keys| && Probes(8 * |bits|, hash(keys[i]), Delta(hash(keys[i])), k, pos);
        assert front[i] == keys[i];
        assert ProbedBy(hash, front, 8 * |bits|, k, pos);
      }
    }
  }

  /** How many probes a filter uses: about ln(2) for each bit per key. */
  function ProbeCount(bitsPerKey: nat): (k: byte)
    ensures 1 <= k <= 30
  {
    var k := bitsPerKey * 69 / 100;
    if k < 1 then 1 else if k > 30 then 30 else k
  }

  /** At least 64 bits, rounded up to whole bytes. */
  function FilterBytes(keys: nat, bitsPerKey: nat): (n: nat)
    ensures n >= 8
  {
    ((if keys * bitsPerKey < 64 then 64 else keys * bitsPerKey) + 7) / 8
  }

  /** The filter of some keys: their bits, and the number of probes. */
  function FilterOf(hash: Hash, bitsPerKey: nat, k: byte, keys: seq<Key>): (filter: seq<byte>)
    ensures |filter| == FilterBytes(|keys|, bitsPerKey) + 1 && filter[|filter| - 1] == k
  {
    SetKeys(hash, NoBits(FilterBytes(|keys|, bitsPerKey)), keys, k) + [k]
  }

  /** Sizes and numbers of probes for ten bits a key, and at the ends of the range. */
  lemma FilterSizes(keys: nat, bitsPerKey: nat)
    ensures ProbeCount(10) == 6 && ProbeCount(1) == 1 && ProbeCount(0) == 1 && ProbeCount(44) == 30
    ensures var bits := 8 * FilterBytes(keys, bitsPerKey);
            64 <= bits && keys * bitsPerKey <= bits && (bits > 64 ==> bits < keys * bitsPerKey + 8)
  {
  }

  function NoBits(n: nat): (bits: seq<byte>)
    ensures |bits| == n
  {
    seq(n, i => 0)
  }

  lemma NoBitIsSet(n: nat, pos: nat)
    requires pos < 8 * n
    ensures !BitAt(NoBits(n), pos)
  {
    assert Octet(0) == [false, false, false, false, false, false, false, false] by {
      assert ToBits(0, 4) == [false, false, false, false];
      assert ToBits(0, 8) == [false] + ToBits(0, 7);
    }
  }

  /** The question a reader asks of a filter. */
  predicate KeyMayMatch(hash: Hash, key: Key, filter: seq<byte>) {
    if |filter| < 2 then false
    else
      var k := filter[|filter| - 1];
      k > 30 || AllSet(filter[..|filter| - 1], hash(key), Delta(hash(key)), k)
  }

  /** A key may match exactly if each of its probes is a probe of one of the keys of the filter. */
  lemma MatchesExactly(hash: Hash, bitsPerKey: nat, k: byte, keys: seq<Key>, key: Key)
    requires k <= 30
    ensures var bits := 8 * FilterBytes(|keys|, bitsPerKey);
      KeyMayMatch(hash, key, FilterOf(hash, bitsPerKey, k, keys))
      <==> forall pos | 0 <= pos < bits && Probes(bits, hash(key), Delta(hash(key)), k, pos) ::
        ProbedBy(hash, keys, bits, k, pos)
  {
    var n := FilterBytes(|keys|, bitsPerKey);
    var filter := FilterOf(hash, bitsPerKey, k, keys);
    var bits := SetKeys(hash, NoBits(n), keys, k);
    assert filter[..n] == bits;
    AllSetMeans(bits, hash(key), Delta(hash(key)), k);
    forall pos | 0 <= pos < 8 * n ensures BitAt(bits, pos) <==> ProbedBy(hash, keys, 8 * n, k, pos) {
      SetKeysIsExact(hash, NoBits(n), keys, k, pos);
      NoBitIsSet(n, pos);
    }
  }

  /** No key of the filter is denied. */
  lemma NoFalseNegative(hash: Hash, bitsPerKey: nat, k: byte, keys: seq<Key>, key: Key)
    requires k <= 30 && key in keys
    ensures KeyMayMatch(hash, key, FilterOf(hash, bitsPerKey, k, keys))
  {
    MatchesExactly(hash, bitsPerKey, k, keys, key);
    var i :| 0 <= i < |keys| && keys[i] == key;
    var bits := 8 * FilterBytes(|keys|, bitsPerKey);
    forall pos | 0 <= pos < bits && Probes(bits, hash(key), Delta(hash(key)), k, pos)
      ensures ProbedBy(hash, keys, bits, k, pos)
    {
      assert Probes(bits, hash(keys[i]), Delta(hash(keys[i])), k, pos);
    }
  }

  /** The probe loop of a reader. */
  method ProbeFilter(hash: Hash, key: Key, filter: seq<byte>) returns (may: bool)
    ensures may == KeyMayMatch(hash, key, filter)
  {
    if |filter| < 2 {
      return false;
    }
    var bits, k := filter[..|filter| - 1], filter[|filter| - 1];
    if k > 30 {
      return true;
    }
    var h: uint32 := hash(key);
    var delta: uint32 := Delta(h);
    for j := 0 to k
      invariant AllSet(bits, hash(key), delta, k) == AllSet(bits, h, delta, k - j)
    {
      if !BitAt(bits, h % (8 * |bits|)) {
        return false;
      }
      h := NextProbe(h, delta);
    }
    may := true;
  }

  /** Appends the filter of some keys. */
  method CreateFilter(hash: Hash, bitsPerKey: nat, k: byte, keys: seq<Key>, dst: seq<byte>) returns (r: seq<byte>)
    ensures r == dst + FilterOf(hash, bitsPerKey, k, keys)
  {
    var bits := |keys| * bitsPerKey;
    if bits < 64 {
      bits := 64;
    }
    var bytes := (bits + 7) / 8;
    var filter: seq<byte> := NoBits(bytes);
    for i := 0 to |keys|
      invariant |filter| == bytes
      invariant filter == SetKeys(hash, NoBits(bytes), keys[..i], k)
    {
      assert keys[..i + 1][..i] == keys[..i];
      var h: uint32 := hash(keys[i]);
      var delta: uint32 := Delta(h);
      ghost var before := filter;
      for j := 0 to k
        invariant |filter| == bytes
        invariant SetAll(before, hash(keys[i]), delta, k) == SetAll(filter, h, delta, k - j)
      {
        filter := WithBit(filter, h % (8 * bytes));
        h := NextProbe(h, delta);
      }
    }
    assert keys[..|keys|] == keys;
    r := dst + filter + [k];
    assert r == dst + (filter + [k]);
  }
}
