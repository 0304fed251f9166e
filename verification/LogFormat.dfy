/**
 The record log (db/log_format.h): a file is cut into blocks, a record into fragments that
 each lie within one block, and a fragment carries a checksum, a length and a type.
 */
module LogFormat {
  import opened Words
  import opened Coding
  import opened Crc32c

  const BLOCK := 32768
  const HEADER := 7

  const ZERO_TYPE: nat := 0
  const FULL: nat := 1
  const FIRST: nat := 2
  const MIDDLE: nat := 3
  const LAST: nat := 4

  type Record = seq<byte>

  /** Offset in the block of the next header when `off` bytes of a block are used: `off`, or 0 of a new block. */
  function HeaderOffset(off: nat): (q: nat)
    requires off <= BLOCK
    ensures q + HEADER <= BLOCK
  {
    if BLOCK - off < HEADER then 0 else off
  }

  function Padding(off: nat): (n: nat)
    requires off <= BLOCK
    ensures n < HEADER
  {
    if BLOCK - off < HEADER then BLOCK - off else 0
  }

  function Checksum(kind: byte, data: seq<byte>): uint32 {
    Value([kind] + data)
  }

  function Header(kind: byte, data: seq<byte>): (h: seq<byte>)
    requires |data| < 0x1_0000
    ensures |h| == HEADER
  {
    EncodeFixed32(Mask(Checksum(kind, data))) + [|data| % 256, |data| / 256, kind]
  }

  function KindOf(begin: bool, end: bool): byte {
    if begin && end then FULL else if begin then FIRST else if end then LAST else MIDDLE
  }

  /** How much of `data` goes into the next fragment when `off` bytes of the block are used. */
  function Chunk(off: nat, data: seq<byte>): (n: nat)
    requires off <= BLOCK
    ensures n <= |data| && HeaderOffset(off) + HEADER + n <= BLOCK
    ensures n < |data| ==> HeaderOffset(off) + HEADER + n == BLOCK
  {
    var avail := BLOCK - HeaderOffset(off) - HEADER;
    if |data| < avail then |data| else avail
  }

  function ZeroBytes(n: nat): (z: seq<byte>)
    ensures |z| == n
  {
    seq(n, i => 0)
  }

  /** The bytes of one fragment: padding to where a header fits, header and chunk. */
  function Fragment(off: nat, data: seq<byte>, begin: bool): (s: seq<byte>)
    requires off <= BLOCK
    ensures |s| == Padding(off) + HEADER + Chunk(off, data)
  {
    var n := Chunk(off, data);
    ZeroBytes(Padding(off)) + Header(KindOf(begin, n == |data|), data[..n]) + data[..n]
  }

  /** The bytes of one record written when `off` bytes of the block are used. */
  function Fragments(off: nat, data: seq<byte>, begin: bool): (s: seq<byte>)
    requires off <= BLOCK
    ensures |s| >= HEADER
    decreases |data|, HeaderOffset(off)
  {
    var n := Chunk(off, data);
    if n == |data| then Fragment(off, data, begin)
    else Fragment(off, data, begin) + Fragments(BLOCK, data[n..], false)
  }

  /** The bytes of a log of records. */
  function Image(records: seq<Record>): seq<byte>
    decreases |records|
  {
    if records == [] then [] else
      var log := Image(records[..|records| - 1]);
      log + Fragments(|log| % 32768, records[|records| - 1], true)
  }

  lemma ImageOneMore(records: seq<Record>, k: nat)
    requires k < |records|
    ensures Image(records[..k + 1]) == Image(records[..k]) + Fragments(|Image(records[..k])| % 32768, records[k], true)
  {
    assert records[..k + 1][..k] == records[..k];
  }

  /** A log starts with the log of its first records. */
  lemma {:induction false} ImageIsPrefix(records: seq<Record>, k: nat)
    requires k <= |records|
    ensures Image(records[..k]) <= Image(records)
    decreases |records| - k
  {
    if k < |records| {
      ImageOneMore(records, k);
      ImageIsPrefix(records, k + 1);
    } else {
      assert records[..k] == records;
    }
  }
}
