/**
 Tables as files (table/format.cc, table/block_builder.cc, db/dbformat.cc): blocks with a type and
 a checksum, handles that say where blocks are, and a footer.
 */
module TableFormat {
  import opened Options
  import opened Words
  import opened Coding
  import opened BlockFormat
  import Crc32c
  import Comparator

  const MAX_HANDLE: nat := 20  // BlockHandle::kMaxEncodedLength
  const FOOTER_SIZE: nat := 48
  const TRAILER_SIZE: nat := 5
  const MAGIC_LOW: uint32 := 0x8b80fb57
  const MAGIC_HIGH: uint32 := 0xdb477524
  const NO_COMPRESSION: byte := 0

  /** Where a block is. */
  datatype BlockHandle = BlockHandle(offset: uint64, size: uint64)

  function EncodeHandle(h: BlockHandle): seq<byte> {
    EncodeVarint(h.offset) + EncodeVarint(h.size)
  }

  function ParseHandle(s: seq<byte>): Option<Parsed<BlockHandle>> {
    var offset := ParseVarint64(s);
    if offset.None? then None else
      var size := ParseVarint64(offset.value.rest);
      if size.None? then None else Some(Parsed(BlockHandle(offset.value.value, size.value.value), size.value.rest))
  }

  lemma HandleRoundTrip(h: BlockHandle, rest: seq<byte>)
    ensures ParseHandle(EncodeHandle(h) + rest) == Some(Parsed(h, rest))
  {
    Append3(EncodeVarint(h.offset), EncodeVarint(h.size), rest);
    Varint64RoundTrip(h.offset, EncodeVarint(h.size) + rest);
    Varint64RoundTrip(h.size, rest);
  }

  lemma HandleLength(h: BlockHandle)
    ensures |EncodeHandle(h)| <= MAX_HANDLE
  {
    Pow128Values();
    VarintLength(h.offset, 10);
    VarintLength(h.size, 10);
  }

  /** Different handles are encoded differently. */
  lemma HandleIsEncodedOnce(g: BlockHandle, h: BlockHandle)
    requires EncodeHandle(g) == EncodeHandle(h)
    ensures g == h
  {
    HandleRoundTrip(g, []);
    HandleRoundTrip(h, []);
    assert EncodeHandle(g) + [] == EncodeHandle(h) + [];
  }

  // ---- Blocks with a trailer

  /** The type of a block, and the checksum of the block and its type. */
  function Trailer(contents: seq<byte>): (t: seq<byte>)
    ensures |t| == TRAILER_SIZE
  {
    [NO_COMPRESSION] + EncodeFixed32(Crc32c.Mask(Crc32c.Value(contents + [NO_COMPRESSION])))
  }

  /** Up to `n` bytes from `offset` on. */
  function ReadAt(file: seq<byte>, offset: nat, n: nat): (s: seq<byte>)
    ensures |s| <= n
  {
    if offset >= |file| then []
    else if offset + n <= |file| then file[offset..offset + n]
    else file[offset..]
  }

  /** The contents of a block; compressed blocks are not read here. */
  function ReadBlock(file: seq<byte>, verify: bool, h: BlockHandle): Option<seq<byte>> {
    var data, n := ReadAt(file, h.offset, h.size + TRAILER_SIZE), h.size;
    if |data| != n + TRAILER_SIZE then None
    else if verify && Crc32c.Unmask(DecodeFixed32(data[n + 1..])) != Crc32c.Value(data[..n + 1]) then None
    else if data[n] == NO_COMPRESSION then Some(data[..n])
    else None
  }

  /** The block is in the file where the handle says. */
  predicate StoredAt(file: seq<byte>, h: BlockHandle, contents: seq<byte>) {
    && h.size == |contents| && h.offset + |contents| + TRAILER_SIZE <= |file|
    && file[h.offset..h.offset + |contents| + TRAILER_SIZE] == contents + Trailer(contents)
  }

  /** A stored block passes its checks and is read back. */
  lemma StoredIsRead(file: seq<byte>, verify: bool, h: BlockHandle, contents: seq<byte>)
    requires StoredAt(file, h, contents)
    ensures ReadBlock(file, verify, h) == Some(contents)
  {
    var data, n := ReadAt(file, h.offset, h.size + TRAILER_SIZE), |contents|;
    var crc := Crc32c.Value(contents + [NO_COMPRESSION]);
    var t := EncodeFixed32(Crc32c.Mask(crc));
    assert data == contents + ([NO_COMPRESSION] + t) == contents + [NO_COMPRESSION] + t;
    assert data[..n + 1] == contents + [NO_COMPRESSION] && data[..n] == contents && data[n + 1..] == t + [];
    Fixed32RoundTrip(Crc32c.Mask(crc), []);
    Crc32c.UnmaskInvertsMask(crc);
  }

  /**
   A block whose contents or type are damaged within four consecutive bytes is not read when
   checksums are verified.
   */
  lemma DamagedIsRefused(file: seq<byte>, h: BlockHandle, before: seq<byte>, u: seq<byte>, v: seq<byte>,
      after: seq<byte>)
    requires |u| == |v| <= 4 && u != v && |before + v + after| == h.size + 1
    requires h.offset + h.size + TRAILER_SIZE <= |file|
    requires file[h.offset..h.offset + h.size + TRAILER_SIZE] ==
             before + v + after + EncodeFixed32(Crc32c.Mask(Crc32c.Value(before + u + after)))
    ensures ReadBlock(file, true, h) == None
  {
    hide Crc32c.Value, Crc32c.Mask, Crc32c.Unmask;
    var crc := Crc32c.Value(before + u + after);
    var data, n := ReadAt(file, h.offset, h.size + TRAILER_SIZE), h.size;
    assert data[n + 1..] == EncodeFixed32(Crc32c.Mask(crc)) + [] && data[..n + 1] == before + v + after;
    Fixed32RoundTrip(Crc32c.Mask(crc), []);
    Crc32c.UnmaskInvertsMask(crc);
    Crc32c.BurstIsDetected(before, u, v, after);
  }

  /** Nor is a block that the file has not all of, or that has another type. */
  lemma OtherIsRefused(file: seq<byte>, verify: bool, h: BlockHandle)
    ensures h.offset + h.size + TRAILER_SIZE > |file| ==> ReadBlock(file, verify, h) == None
    ensures h.offset + h.size + TRAILER_SIZE <= |file| && file[h.offset + h.size] != NO_COMPRESSION ==>
              ReadBlock(file, verify, h) == None
  {
  }

  /** A block appended to a file is stored, and what was stored stays. */
  lemma StoredAtEnd(file: seq<byte>, contents: seq<byte>)
    requires |file| < 0x1_0000_0000_0000_0000 && |contents| < 0x1_0000_0000_0000_0000
    ensures StoredAt(file + contents + Trailer(contents), BlockHandle(|file|, |contents|), contents)
  {
    Append3(file, contents, Trailer(contents));
    assert (file + (contents + Trailer(contents)))[|file|..|file| + |contents| + TRAILER_SIZE] ==
        contents + Trailer(contents);
  }

  lemma StaysStored(file: seq<byte>, more: seq<byte>, h: BlockHandle, contents: seq<byte>)
    requires StoredAt(file, h, contents) && file <= more
    ensures StoredAt(more, h, contents)
  {
    assert more[h.offset..h.offset + |contents| + TRAILER_SIZE] == file[h.offset..h.offset + |contents| + TRAILER_SIZE];
  }

  // ---- The footer

  datatype Footer = Footer(metaindex: BlockHandle, index: BlockHandle)

  /** Two handles padded to their largest size, and the magic number. */
  function FooterBytes(m: seq<byte>, i: seq<byte>): (s: seq<byte>)
    requires |m| <= MAX_HANDLE && |i| <= MAX_HANDLE
    ensures |s| == FOOTER_SIZE
  {
    m + i + Padding(2 * MAX_HANDLE - |m| - |i|) + EncodeFixed32(MAGIC_LOW) + EncodeFixed32(MAGIC_HIGH)
  }

  function Padding(n: nat): (p: seq<byte>)
    ensures |p| == n
  {
    seq(n, i => 0)
  }

  function EncodeFooter(f: Footer): (s: seq<byte>)
    ensures |s| == FOOTER_SIZE
  {
    HandleLength(f.metaindex);
    HandleLength(f.index);
    FooterBytes(EncodeHandle(f.metaindex), EncodeHandle(f.index))
  }

  predicate HasMagic(s: seq<byte>)
    requires |s| >= FOOTER_SIZE
  {
    DecodeFixed32(s[FOOTER_SIZE - 8..]) == MAGIC_LOW && DecodeFixed32(s[FOOTER_SIZE - 4..]) == MAGIC_HIGH
  }

  function ParseFooter(s: seq<byte>): Option<Footer>
    requires |s| >= FOOTER_SIZE
  {
    if !HasMagic(s) then None else
      var metaindex := ParseHandle(s);
      if metaindex.None? then None else
        var index := ParseHandle(metaindex.value.rest);
        if index.None? then None else Some(Footer(metaindex.value.value, index.value.value))
  }

  lemma FooterRoundTrip(f: Footer)
    ensures ParseFooter(EncodeFooter(f)) == Some(f)
  {
    HandleLength(f.metaindex);
    HandleLength(f.index);
    var tail := FooterSplits(EncodeHandle(f.metaindex), EncodeHandle(f.index));
    HandlesRead(f, tail);
  }

  /** A footer is read only if the magic number is at its end. */
  lemma MagicIsAtEnd(s: seq<byte>)
    requires |s| == FOOTER_SIZE && ParseFooter(s).Some?
    ensures s[FOOTER_SIZE - 8..] == [0x57, 0xfb, 0x80, 0x8b, 0x24, 0x75, 0x47, 0xdb]
  {
    hide ParseHandle, DecodeFixed32;
    var a, b := s[FOOTER_SIZE - 8..], s[FOOTER_SIZE - 4..];
    MagicBytes(a, b);
    assert a == a[..4] + b[..4];
  }

  lemma MagicBytes(a: seq<byte>, b: seq<byte>)
    requires |a| >= 4 && |b| >= 4 && DecodeFixed32(a) == MAGIC_LOW && DecodeFixed32(b) == MAGIC_HIGH
    ensures a[..4] == [0x57, 0xfb, 0x80, 0x8b] && b[..4] == [0x24, 0x75, 0x47, 0xdb]
  {
    hide DecodeFixed32;
    FixedIs(a, MAGIC_LOW);
    FixedIs(b, MAGIC_HIGH);
  }

  lemma FixedIs(s: seq<byte>, v: uint32)
    requires |s| >= 4 && DecodeFixed32(s) == v
    ensures s[0] == v % 0x100 && s[1] == v / 0x100 % 0x100 && s[2] == v / 0x1_0000 % 0x100 && s[3] == v / 0x100_0000
  {
    assert v / 0x100 == s[1] as int + 0x100 * s[2] as int + 0x1_0000 * s[3] as int;
    assert v / 0x1_0000 == s[2] as int + 0x100 * s[3] as int;
  }

  lemma FooterSplits(m: seq<byte>, i: seq<byte>) returns (tail: seq<byte>)
    requires |m| <= MAX_HANDLE && |i| <= MAX_HANDLE
    ensures FooterBytes(m, i) == m + (i + tail) && HasMagic(FooterBytes(m, i))
  {
    var padding := Padding(2 * MAX_HANDLE - |m| - |i|);
    var low, high := EncodeFixed32(MAGIC_LOW), EncodeFixed32(MAGIC_HIGH);
    MagicAtEnd(m + i + padding);
    FooterInOrder(m, i, padding, low, high);
    tail := padding + low + high;
  }

  lemma HandlesRead(f: Footer, rest: seq<byte>)
    ensures var metaindex := ParseHandle(EncodeHandle(f.metaindex) + (EncodeHandle(f.index) + rest));
      metaindex.Some? && metaindex.value.value == f.metaindex
        && ParseHandle(metaindex.value.rest) == Some(Parsed(f.index, rest))
  {
    HandleRoundTrip(f.metaindex, EncodeHandle(f.index) + rest);
    HandleRoundTrip(f.index, rest);
  }

  lemma MagicAtEnd(handles: seq<byte>)
    requires |handles| == FOOTER_SIZE - 8
    ensures HasMagic(handles + EncodeFixed32(MAGIC_LOW) + EncodeFixed32(MAGIC_HIGH))
  {
    var low, high := EncodeFixed32(MAGIC_LOW), EncodeFixed32(MAGIC_HIGH);
    var s := handles + low + high;
    assert s[|handles|..|handles| + 4] == low && s[|handles| + 4..|handles| + 8] == high;
    Fixed32At(s, |handles|, MAGIC_LOW);
    Fixed32At(s, |handles| + 4, MAGIC_HIGH);
  }

  lemma FooterInOrder(m: seq<byte>, i: seq<byte>, p: seq<byte>, l: seq<byte>, h: seq<byte>)
    ensures m + i + p + l + h == m + (i + (p + l + h))
  {
    Append3(m + i + p, l, h);
    Append3(m + i, p, l + h);
    Append3(m, i, p + (l + h));
    Append3(p, l, h);
  }

  // ---- Internal keys as bytes

  /** A user key and a packed sequence number and type. */
  predicate IsInternal(k: Key) {
    |k| >= 8
  }

  function UserKey(k: Key): Key
    requires IsInternal(k)
  {
    k[..|k| - 8]
  }

  function Decoded(k: Key): Comparator.InternalKey
    requires IsInternal(k)
  {
    Comparator.InternalKey(UserKey(k), DecodeFixed64(k[|k| - 8..]))
  }

  function Encoded(k: Comparator.InternalKey): (r: Key)
    requires k.tag < 0x1_0000_0000_0000_0000
    ensures IsInternal(r) && UserKey(r) == k.user
  {
    k.user + EncodeFixed64(k.tag)
  }

  lemma EncodedRoundTrip(k: Comparator.InternalKey)
    requires k.tag < 0x1_0000_0000_0000_0000
    ensures Decoded(Encoded(k)) == k
  {
    var r := Encoded(k);
    assert r[|r| - 8..] == EncodeFixed64(k.tag) + [];
    Fixed64RoundTrip(k.tag, []);
  }

  /** InternalKeyComparator, as a number; byte strings that are not internal keys are not compared. */
  function InternalRank(k: Key): real {
    if IsInternal(k) then Comparator.RankOf(UserKey(k), DecodeFixed64(k[|k| - 8..])) else -1.0
  }

  /** BytewiseComparator, as a number. */
  function BytewiseRank(k: Key): real {
    Comparator.RankOf(k, 0)
  }

  /** A numbering of keys that is the order of internal keys. */
  ghost predicate IsInternalOrder(rank: Order) {
    forall a: Key, b: Key {:trigger Comparator.InternalLess(Decoded(a), Decoded(b))} ::
        IsInternal(a) && IsInternal(b) ==>
      && (rank(a) < rank(b) <==> Comparator.InternalLess(Decoded(a), Decoded(b)))
      && (rank(a) == rank(b) <==> Decoded(a) == Decoded(b))
  }

  lemma InternalRankIsOrder()
    ensures IsInternalOrder(InternalRank)
  {
    forall a: Key, b: Key {:trigger Comparator.InternalLess(Decoded(a), Decoded(b))} | IsInternal(a) && IsInternal(b)
      ensures InternalRank(a) < InternalRank(b) <==> Comparator.InternalLess(Decoded(a), Decoded(b))
      ensures InternalRank(a) == InternalRank(b) <==> Decoded(a) == Decoded(b)
    {
      Comparator.RankIsOrder(UserKey(a), Decoded(a).tag, UserKey(b), Decoded(b).tag);
    }
  }

  lemma RankSays(rank: Order, a: Key, b: Key)
    requires IsInternalOrder(rank) && IsInternal(a) && IsInternal(b)
    ensures rank(a) < rank(b) <==> Comparator.InternalLess(Decoded(a), Decoded(b))
    ensures rank(a) == rank(b) <==> Decoded(a) == Decoded(b)
  {
  }
}
