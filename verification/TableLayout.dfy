/**
 What a table is made of: data blocks with their entries, and an index key for each block that
 is at or after its last key and before the first key of the next.
 */
module TableLayout {
  import opened Options
  import opened Words
  import opened Coding
  import opened Sequences
  import opened BlockFormat
  import opened BlockBuilder
  import opened BlockIter
  import opened TableFormat
  import Comparator

  /** A data block: where and what it is, where its entries end, and its key in the index. */
  datatype Chunk = Chunk(handle: BlockHandle, block: seq<byte>, limit: nat, layout: Layout, key: Key)

  function EntriesOf(chunks: seq<Chunk>): (parts: seq<seq<KV>>)
    ensures |parts| == |chunks| && forall i {:trigger parts[i]} :: 0 <= i < |chunks| ==>
            parts[i] == chunks[i].layout.entries
  {
    seq(|chunks|, i requires 0 <= i < |chunks| => chunks[i].layout.entries)
  }

  /** All entries of a table. */
  function Flat(chunks: seq<Chunk>): seq<KV> {
    Concat(EntriesOf(chunks))
  }

  /** How many entries come before block `j`. */
  function Start(chunks: seq<Chunk>, j: nat): nat
    requires j <= |chunks|
  {
    |Flat(chunks[..j])|
  }

  /** The entries of block `j` are those from its start on. */
  lemma BlockInFlat(chunks: seq<Chunk>, j: nat)
    requires j < |chunks|
    ensures Start(chunks, j) + |chunks[j].layout.entries| == Start(chunks, j + 1) <= |Flat(chunks)|
    ensures Flat(chunks)[Start(chunks, j)..Start(chunks, j + 1)] == chunks[j].layout.entries
  {
    var parts := EntriesOf(chunks);
    assert parts[..j] == EntriesOf(chunks[..j]) && parts[..j + 1] == EntriesOf(chunks[..j + 1]);
    ConcatSlice(parts, j);
  }

  lemma EntryInFlat(chunks: seq<Chunk>, j: nat, i: nat)
    requires j < |chunks| && i < |chunks[j].layout.entries|
    ensures Start(chunks, j) + i < |Flat(chunks)| && Flat(chunks)[Start(chunks, j) + i] == chunks[j].layout.entries[i]
  {
    BlockInFlat(chunks, j);
    assert Flat(chunks)[Start(chunks, j)..Start(chunks, j + 1)][i] == Flat(chunks)[Start(chunks, j) + i];
  }

  lemma {:induction false} StartsAscend(chunks: seq<Chunk>, i: nat, j: nat)
    requires i <= j <= |chunks|
    ensures Start(chunks, i) <= Start(chunks, j) <= |Flat(chunks)|
    decreases j - i
  {
    if i < j {
      StartsAscend(chunks, i, j - 1);
      BlockInFlat(chunks, j - 1);
    } else if j == |chunks| {
      assert chunks[..j] == chunks;
    } else {
      BlockInFlat(chunks, j);
    }
  }

  lemma Ends(chunks: seq<Chunk>)
    ensures Start(chunks, 0) == 0 && Start(chunks, |chunks|) == |Flat(chunks)|
  {
    assert chunks[..|chunks|] == chunks;
  }

  /** Every position is in some block. */
  lemma {:induction false} BlockOf(chunks: seq<Chunk>, p: nat, n: nat) returns (j: nat)
    requires n <= |chunks| && p < Start(chunks, n)
    ensures j < n && Start(chunks, j) <= p < Start(chunks, j + 1)
    decreases n
  {
    Ends(chunks);
    if p < Start(chunks, n - 1) {
      j := BlockOf(chunks, p, n - 1);
    } else {
      j := n - 1;
    }
  }

  // ---- Index keys

  ghost predicate KeysOrdered(rank: Order, es: seq<KV>) {
    Sorted(rank, es) && forall i {:trigger IsInternal(es[i].key)} :: 0 <= i < |es| ==> IsInternal(es[i].key)
  }

  /**
   `key` separates the keys up to `last` from those from `first` on; a shortened key has another
   user key than these.
   */
  ghost predicate Separates(rank: Order, last: Key, key: Key, first: Key) {
    && IsInternal(last) && IsInternal(key) && IsInternal(first)
    && rank(last) <= rank(key) < rank(first)
    && (key == last || (Decoded(key).tag == Comparator.MAX_TAG && Comparator.Less(UserKey(key), UserKey(first))))
  }

  /** The index key of part `i` is at or after its keys, and separates them from the next part. */
  ghost predicate SepAt(rank: Order, parts: seq<seq<KV>>, i: nat, key: Key)
    requires i < |parts|
  {
    && parts[i] != [] && IsInternal(key) && rank(LastKey(parts[i])) <= rank(key)
    && (i + 1 < |parts| ==> parts[i + 1] != [] && Separates(rank, LastKey(parts[i]), key, parts[i + 1][0].key))
  }

  ghost predicate Placed(rank: Order, chunks: seq<Chunk>, parts: seq<seq<KV>>) {
    |chunks| <= |parts| && forall i {:trigger SepAt(rank, parts, i, chunks[i].key)} :: 0 <= i < |chunks| ==>
      SepAt(rank, parts, i, chunks[i].key)
  }

  function IndexEntries(chunks: seq<Chunk>): (es: seq<KV>)
    ensures |es| == |chunks| && forall i {:trigger es[i]} :: 0 <= i < |chunks| ==>
            es[i] == KV(chunks[i].key, EncodeHandle(chunks[i].handle))
  {
    seq(|chunks|, i requires 0 <= i < |chunks| => KV(chunks[i].key, EncodeHandle(chunks[i].handle)))
  }

  // ---- Files

  ghost predicate ChunkOk(file: seq<byte>, c: Chunk) {
    StoredAt(file, c.handle, c.block) && BlockLaid(c.block, c.limit, c.layout)
  }

  ghost predicate InFileOrder(chunks: seq<Chunk>, i: nat, j: nat)
    requires i < |chunks| && j < |chunks|
  {
    chunks[i].handle.offset < chunks[j].handle.offset
  }

  ghost predicate ChunksOk(file: seq<byte>, chunks: seq<Chunk>) {
    && (forall i {:trigger ChunkOk(file, chunks[i])} :: 0 <= i < |chunks| ==> ChunkOk(file, chunks[i]))
    && (forall i, j {:trigger InFileOrder(chunks, i, j)} :: 0 <= i < j < |chunks| ==> InFileOrder(chunks, i, j))
  }

  /** Data blocks in a file, and the index block over them. */
  ghost predicate TableLaid(rank: Order, file: seq<byte>, chunks: seq<Chunk>, index: Chunk) {
    && ChunksOk(file, chunks) && ChunkOk(file, index) && index.layout.entries == IndexEntries(chunks)
    && Placed(rank, chunks, EntriesOf(chunks)) && KeysOrdered(rank, Flat(chunks))
    && |file| < 0x1_0000_0000_0000_0000
  }

  lemma PartOrdered(rank: Order, parts: seq<seq<KV>>, i: nat)
    requires i < |parts| && KeysOrdered(rank, Concat(parts))
    ensures KeysOrdered(rank, parts[i])
  {
    ConcatSlice(parts, i);
    SliceOrdered(rank, Concat(parts), |Concat(parts[..i])|, |Concat(parts[..i + 1])|);
  }

  lemma SliceOrdered(rank: Order, es: seq<KV>, from: nat, to: nat)
    requires KeysOrdered(rank, es) && from <= to <= |es|
    ensures KeysOrdered(rank, es[from..to])
  {
    var part := es[from..to];
    forall i, j {:trigger KeyLess(rank, part, i, j)} | 0 <= i < j < |part| ensures KeyLess(rank, part, i, j) {
      assert KeyLess(rank, es, from + i, from + j);
    }
    forall i {:trigger IsInternal(part[i].key)} | 0 <= i < |part| ensures IsInternal(part[i].key) {
      assert IsInternal(es[from + i].key);
    }
  }

  lemma OrderedAt(rank: Order, es: seq<KV>, i: nat, j: nat)
    requires KeysOrdered(rank, es) && i <= j < |es|
    ensures IsInternal(es[i].key) && IsInternal(es[j].key) && rank(es[i].key) <= rank(es[j].key)
  {
    assert i < j ==> KeyLess(rank, es, i, j);
  }

  /** Entries up to the end of block `j` are at or before its index key. */
  lemma UpToKey(rank: Order, chunks: seq<Chunk>, j: nat, p: nat)
    requires Placed(rank, chunks, EntriesOf(chunks)) && KeysOrdered(rank, Flat(chunks)) && j < |chunks|
             && p < Start(chunks, j + 1)
    ensures p < |Flat(chunks)| && rank(Flat(chunks)[p].key) <= rank(chunks[j].key)
  {
    var es := chunks[j].layout.entries;
    assert SepAt(rank, EntriesOf(chunks), j, chunks[j].key);
    BlockInFlat(chunks, j);
    EntryInFlat(chunks, j, |es| - 1);
    OrderedAt(rank, Flat(chunks), p, Start(chunks, j + 1) - 1);
  }

  /** Entries from the next block on are after it. */
  lemma BehindKey(rank: Order, chunks: seq<Chunk>, j: nat, p: nat)
    requires Placed(rank, chunks, EntriesOf(chunks)) && KeysOrdered(rank, Flat(chunks)) && j < |chunks|
             && Start(chunks, j + 1) <= p < |Flat(chunks)|
    ensures rank(chunks[j].key) < rank(Flat(chunks)[p].key)
  {
    assert SepAt(rank, EntriesOf(chunks), j, chunks[j].key);
    NotLast(chunks, j, p);
    EntryInFlat(chunks, j + 1, 0);
    OrderedAt(rank, Flat(chunks), Start(chunks, j + 1), p);
  }

  lemma NotLast(chunks: seq<Chunk>, j: nat, p: nat)
    requires j < |chunks| && Start(chunks, j + 1) <= p < |Flat(chunks)|
    ensures j + 1 < |chunks|
  {
    Ends(chunks);
  }

  /** A key after the last of block `j` but at or before its index key has another user key than the next entry. */
  lemma NextHasAnotherUser(rank: Order, chunks: seq<Chunk>, j: nat, k: Key)
    requires Placed(rank, chunks, EntriesOf(chunks)) && KeysOrdered(rank, Flat(chunks)) && j < |chunks|
             && IsInternal(k) && IsInternalOrder(rank)
    requires rank(LastKey(chunks[j].layout.entries)) < rank(k) <= rank(chunks[j].key)
    requires Start(chunks, j + 1) < |Flat(chunks)|
    ensures IsInternal(Flat(chunks)[Start(chunks, j + 1)].key)
            && UserKey(Flat(chunks)[Start(chunks, j + 1)].key) != UserKey(k)
  {
    var parts := EntriesOf(chunks);
    assert SepAt(rank, parts, j, chunks[j].key);
    NotLast(chunks, j, Start(chunks, j + 1));
    EntryInFlat(chunks, j + 1, 0);
    var key, first := chunks[j].key, parts[j + 1][0].key;
    assert Separates(rank, LastKey(parts[j]), key, first);
    RankSays(rank, k, key);
    Comparator.LessIsTotal(UserKey(first), UserKey(first));
    Comparator.LessIsTotal(UserKey(key), UserKey(first));
    if Comparator.Less(UserKey(k), UserKey(key)) {
      Comparator.LessIsTransitive(UserKey(k), UserKey(key), UserKey(first));
    }
  }

  /** Index keys ascend. */
  lemma IndexSorted(rank: Order, chunks: seq<Chunk>)
    requires Placed(rank, chunks, EntriesOf(chunks)) && KeysOrdered(rank, Flat(chunks))
    ensures Sorted(rank, IndexEntries(chunks))
  {
    var es := IndexEntries(chunks);
    forall i, j {:trigger KeyLess(rank, es, i, j)} | 0 <= i < j < |es| ensures KeyLess(rank, es, i, j) {
      assert SepAt(rank, EntriesOf(chunks), j, chunks[j].key);
      EntryInFlat(chunks, j, 0);
      StartsAscend(chunks, i + 1, j);
      BlockInFlat(chunks, j);
      BehindKey(rank, chunks, i, Start(chunks, j));
      UpToKey(rank, chunks, j, Start(chunks, j));
    }
  }

  /** Different blocks have different handles. */
  lemma HandlesDiffer(file: seq<byte>, chunks: seq<Chunk>, i: nat, j: nat)
    requires ChunksOk(file, chunks) && i < |chunks| && j < |chunks| && |file| < 0x1_0000_0000_0000_0000
    ensures EncodeHandle(chunks[i].handle) == EncodeHandle(chunks[j].handle) <==> i == j
  {
    if EncodeHandle(chunks[i].handle) == EncodeHandle(chunks[j].handle) {
      HandleIsEncodedOnce(chunks[i].handle, chunks[j].handle);
      assert i < j ==> InFileOrder(chunks, i, j);
      assert j < i ==> InFileOrder(chunks, j, i);
    }
  }
}
