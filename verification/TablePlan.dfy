/**
 A table that is being built (table/table_builder.cc:19-92): which entries are in which block,
 which blocks have their index key, and what the filters are built from.
 */
module TablePlan {
  import opened Options
  import opened Words
  import opened Coding
  import opened Sequences
  import opened BlockFormat
  import opened BlockBuilder
  import opened BlockIter
  import opened TableFormat
  import opened TableLayout
  import FB = FilterBlock
  import Comparator

  const MAX_BLOCK: nat := 0x4000_0000

  function Low64(n: nat): (low: uint64)
    ensures n < 0x1_0000_0000_0000_0000 ==> low == n
  {
    n % 0x1_0000_0000_0000_0000
  }

  // ---- What is built

  /** The blocks, and the entries that are in no block yet. */
  function Parts(all: seq<Chunk>, data: seq<KV>): (parts: seq<seq<KV>>) {
    if data == [] then EntriesOf(all) else EntriesOf(all) + [data]
  }

  /** Every index entry separates its block from the part that follows. */
  ghost predicate Indexed(rank: Order, chunks: seq<Chunk>, parts: seq<seq<KV>>) {
    && Placed(rank, chunks, parts) && KeysOrdered(rank, Concat(parts))
    && forall i {:trigger HasEntries(parts, i)} :: 0 <= i < |parts| ==> HasEntries(parts, i)
  }

  ghost predicate HasEntries(parts: seq<seq<KV>>, i: nat)
    requires i < |parts|
  {
    parts[i] != []
  }

  function LastOf(parts: seq<seq<KV>>): Key {
    if parts == [] then [] else LastKey(parts[|parts| - 1])
  }

  lemma MoreOrdered(rank: Order, es: seq<KV>, e: KV)
    requires KeysOrdered(rank, es) && IsInternal(e.key) && (es != [] ==> rank(LastKey(es)) < rank(e.key))
    ensures KeysOrdered(rank, es + [e])
  {
    forall i, j {:trigger KeyLess(rank, es + [e], i, j)} | 0 <= i < j < |es + [e]|
      ensures KeyLess(rank, es + [e], i, j)
    {
      if j == |es| {
        OrderedAt(rank, es, i, |es| - 1);
      } else {
        assert KeyLess(rank, es, i, j);
      }
    }
  }

  lemma LastOfParts(parts: seq<seq<KV>>)
    requires parts != [] && parts[|parts| - 1] != []
    ensures Concat(parts) != [] && LastKey(Concat(parts)) == LastOf(parts)
  {
  }

  /** The first entry of a new part settles the index key of the part before. */
  lemma PartStarted(rank: Order, chunks: seq<Chunk>, parts: seq<seq<KV>>, c: Chunk, e: KV)
    requires Indexed(rank, chunks, parts) && |parts| == |chunks| + 1 && Separates(rank, LastOf(parts), c.key, e.key)
    ensures Indexed(rank, chunks + [c], parts + [[e]])
  {
    var more, all := chunks + [c], parts + [[e]];
    assert all[..|parts|] == parts && HasEntries(parts, |chunks|);
    LastOfParts(parts);
    MoreOrdered(rank, Concat(parts), e);
    forall i {:trigger SepAt(rank, all, i, more[i].key)} | 0 <= i < |more| ensures SepAt(rank, all, i, more[i].key) {
      if i < |chunks| {
        assert SepAt(rank, parts, i, chunks[i].key);
      }
    }
    forall i {:trigger HasEntries(all, i)} | 0 <= i < |all| ensures HasEntries(all, i) {
      assert i < |parts| ==> HasEntries(parts, i);
    }
  }

  lemma FirstPart(rank: Order, e: KV)
    requires IsInternal(e.key)
    ensures Indexed(rank, [], [[e]])
  {
    assert Concat([[e]]) == [e];
  }

  lemma PartGrown(rank: Order, chunks: seq<Chunk>, front: seq<seq<KV>>, data: seq<KV>, e: KV)
    requires Indexed(rank, chunks, front + [data]) && |chunks| <= |front| && IsInternal(e.key)
             && rank(LastKey(data)) < rank(e.key)
    ensures Indexed(rank, chunks, front + [data + [e]])
  {
    var parts, all := front + [data], front + [data + [e]];
    assert HasEntries(parts, |front|);
    assert parts[..|front|] == front == all[..|front|];
    assert Concat(all) == Concat(parts) + [e] && LastKey(Concat(parts)) == LastKey(data);
    MoreOrdered(rank, Concat(parts), e);
    forall i {:trigger SepAt(rank, all, i, chunks[i].key)} | 0 <= i < |chunks|
      ensures SepAt(rank, all, i, chunks[i].key)
    {
      assert SepAt(rank, parts, i, chunks[i].key);
    }
    forall i {:trigger HasEntries(all, i)} | 0 <= i < |all| ensures HasEntries(all, i) {
      assert HasEntries(parts, i);
    }
  }

  /** The last index key only has to be at or after the last key. */
  lemma LastIndexed(rank: Order, chunks: seq<Chunk>, parts: seq<seq<KV>>, c: Chunk)
    requires Indexed(rank, chunks, parts) && |parts| == |chunks| + 1 && IsInternal(c.key)
             && rank(LastOf(parts)) <= rank(c.key)
    ensures Indexed(rank, chunks + [c], parts)
  {
    var more := chunks + [c];
    forall i {:trigger SepAt(rank, parts, i, more[i].key)} | 0 <= i < |more|
      ensures SepAt(rank, parts, i, more[i].key)
    {
      if i < |chunks| {
        assert SepAt(rank, parts, i, chunks[i].key);
      }
      assert HasEntries(parts, i);
    }
  }

  /** The index key of the last block is after that of the block before. */
  lemma IndexGrows(rank: Order, chunks: seq<Chunk>, parts: seq<seq<KV>>, key: Key)
    requires Indexed(rank, chunks, parts) && |parts| == |chunks| + 1 && rank(LastOf(parts)) <= rank(key)
    ensures chunks != [] ==> rank(chunks[|chunks| - 1].key) < rank(key)
  {
    if chunks != [] {
      var i := |chunks| - 1;
      assert SepAt(rank, parts, i, chunks[i].key);
      PartOrdered(rank, parts, i + 1);
      OrderedAt(rank, parts[i + 1], 0, |parts[i + 1]| - 1);
    }
  }

  /** The same blocks, whatever their index keys. */
  ghost predicate SameBlocks(a: seq<Chunk>, b: seq<Chunk>) {
    |a| == |b| && forall i {:trigger SameBlock(a, b, i)} :: 0 <= i < |a| ==> SameBlock(a, b, i)
  }

  ghost predicate SameBlock(a: seq<Chunk>, b: seq<Chunk>, i: nat)
    requires i < |a| && i < |b|
  {
    b[i] == a[i].(key := b[i].key)
  }

  /**
   A table that is being built: its file, blocks with an index key, a block that waits for one, and
   entries in no block yet.
   */
  datatype Building = Building(file: seq<byte>, chunks: seq<Chunk>, waiting: Option<Chunk>, lastKey: Key,
      data: seq<KV>) {
    function All(): seq<Chunk> {
      if waiting.Some? then chunks + [waiting.value] else chunks
    }

    function AllParts(): seq<seq<KV>> {
      Parts(All(), data)
    }

    /** All entries added so far. */
    function Entries(): seq<KV> {
      Concat(AllParts())
    }

    ghost predicate Inv(rank: Order) {
      && ChunksOk(file, All()) && Indexed(rank, chunks, AllParts())
      && lastKey == LastOf(AllParts()) && |lastKey| < MAX_BLOCK
      && (if waiting.Some? then data == [] else data == [] ==> chunks == [])
    }

    function WithIndexKey(key: Key): Building
      requires waiting.Some?
    {
      this.(chunks := chunks + [waiting.value.(key := key)], waiting := None, lastKey := key)
    }

    function WithEntry(e: KV): Building {
      this.(data := data + [e], lastKey := e.key)
    }

    function WithBlock(more: seq<byte>, c: Chunk): Building {
      this.(file := more, waiting := Some(c), data := [])
    }
  }

  /** Between two entries, the last one has the last key. */
  lemma LastEntry(rank: Order, b: Building)
    requires b.Inv(rank)
    ensures b.Entries() == [] <==> b.AllParts() == []
    ensures b.Entries() != [] ==> b.lastKey == LastKey(b.Entries()) && IsInternal(b.lastKey)
    ensures |b.lastKey| < MAX_BLOCK && (b.waiting.Some? || b.data != [] ==> b.Entries() != [])
            && (b.waiting.Some? ==> b.data == [])
  {
    var parts := b.AllParts();
    if parts != [] {
      assert HasEntries(parts, |parts| - 1);
      LastOfParts(parts);
      PartOrdered(rank, parts, |parts| - 1);
    }
  }

  /** A block gets its index key when the first entry behind it is known. */
  lemma IndexSettled(rank: Order, b: Building, key: Key, e: KV)
    requires b.Inv(rank) && b.waiting.Some? && Separates(rank, b.lastKey, key, e.key) && |e.key| < MAX_BLOCK
    ensures b.WithIndexKey(key).WithEntry(e).Inv(rank) && b.WithIndexKey(key).WithEntry(e).Entries() ==
            b.Entries() + [e]
    ensures SameBlocks(b.All(), b.WithIndexKey(key).chunks)
    ensures b.chunks != [] ==> rank(b.chunks[|b.chunks| - 1].key) < rank(key)
  {
    var c := b.WithIndexKey(key).WithEntry(e);
    var parts := b.AllParts();
    assert EntriesOf(c.chunks) == parts && c.data == [e];
    PartStarted(rank, b.chunks, parts, b.waiting.value.(key := key), e);
    assert (parts + [[e]])[..|parts|] == parts;
    IndexGrows(rank, b.chunks, parts, key);
    SameChunksOk(b.file, b.All(), c.chunks);
  }

  lemma BlockGrown(rank: Order, b: Building, e: KV)
    requires b.Inv(rank) && b.waiting.None? && IsInternal(e.key) && |e.key| < MAX_BLOCK
    requires b.data != [] ==> rank(b.lastKey) < rank(e.key)
    ensures b.WithEntry(e).Inv(rank) && b.WithEntry(e).Entries() == b.Entries() + [e] && SameBlocks(b.All(), b.chunks)
  {
    var data := b.data;
    if data == [] {
      FirstPart(rank, e);
      assert data + [e] == [e] && EntriesOf(b.chunks) == [];
      assert b.WithEntry(e).AllParts() == [[e]] && b.AllParts() == [] && Concat([[e]]) == [e];
    } else {
      var front := EntriesOf(b.chunks);
      PartGrown(rank, b.chunks, front, data, e);
      assert (front + [data])[..|front|] == front == (front + [data + [e]])[..|front|];
    }
  }

  /** A written block is the part it was. */
  lemma BlockClosed(rank: Order, b: Building, more: seq<byte>, c: Chunk)
    requires b.Inv(rank) && b.data != [] && c.layout.entries == b.data
    requires b.file <= more && ChunkOk(more, c) && c.handle.offset == |b.file|
    ensures b.WithBlock(more, c).Inv(rank) && b.WithBlock(more, c).Entries() == b.Entries()
    ensures b.WithBlock(more, c).All() == b.All() + [c]
  {
    assert b.WithBlock(more, c).AllParts() == b.AllParts();
    ChunksOfMore(b.file, more, b.chunks, c);
  }

  /** The index keys of a finished table are all settled. */
  ghost predicate IndexSettledFor(rank: Order, b: Building, chunks: seq<Chunk>) {
    && SameBlocks(b.All(), chunks) && ChunksOk(b.file, chunks) && Placed(rank, chunks, EntriesOf(chunks))
    && Flat(chunks) == b.Entries() && KeysOrdered(rank, Flat(chunks))
  }

  /** The last block's index key only has to be at or after the last key. */
  lemma LastSettled(rank: Order, b: Building, key: Key)
    requires b.Inv(rank) && b.waiting.Some? && IsInternal(key) && rank(b.lastKey) <= rank(key) && |key| < MAX_BLOCK
    ensures IndexSettledFor(rank, b, b.WithIndexKey(key).chunks)
    ensures b.chunks != [] ==> rank(b.chunks[|b.chunks| - 1].key) < rank(key)
  {
    var chunks, parts := b.WithIndexKey(key).chunks, b.AllParts();
    assert EntriesOf(chunks) == parts;
    LastIndexed(rank, b.chunks, parts, b.waiting.value.(key := key));
    IndexGrows(rank, b.chunks, parts, key);
    assert SameBlocks(b.All(), chunks);
    SameChunksOk(b.file, b.All(), chunks);
  }

  lemma NothingSettled(rank: Order, b: Building)
    requires b.Inv(rank) && b.waiting.None? && b.data == []
    ensures b.chunks == [] && IndexSettledFor(rank, b, [])
  {
    NothingIndexed(rank);
  }

  /** In its block, an entry comes after those before it. */
  lemma InOrder(rank: Order, chunks: seq<Chunk>, data: seq<KV>, e: KV)
    requires Indexed(rank, chunks, Parts(chunks, data + [e]))
    ensures data != [] ==> rank(LastKey(data)) < rank(e.key)
  {
    var parts := Parts(chunks, data + [e]);
    PartOrdered(rank, parts, |parts| - 1);
    var part := data + [e];
    assert data != [] ==> KeyLess(rank, part, |data| - 1, |data|);
  }

  lemma SameFilterInput(a: seq<Chunk>, b: seq<Chunk>, offset: nat, data: seq<KV>)
    requires SameBlocks(a, b)
    ensures FilterInput(a, offset, data) == FilterInput(b, offset, data)
  {
    forall i | 0 <= i < |a| ensures BlocksOf(a)[i] == BlocksOf(b)[i] {
      assert SameBlock(a, b, i);
    }
  }

  lemma SameChunksOk(file: seq<byte>, a: seq<Chunk>, b: seq<Chunk>)
    requires SameBlocks(a, b) && ChunksOk(file, a)
    ensures ChunksOk(file, b)
  {
    forall i {:trigger ChunkOk(file, b[i])} | 0 <= i < |b| ensures ChunkOk(file, b[i]) {
      assert SameBlock(a, b, i) && ChunkOk(file, a[i]);
    }
    forall i, j {:trigger InFileOrder(b, i, j)} | 0 <= i < j < |b| ensures InFileOrder(b, i, j) {
      assert SameBlock(a, b, i) && SameBlock(a, b, j) && InFileOrder(a, i, j);
    }
  }

  // ---- What the filters are built from

  function KeysOf(es: seq<KV>): (keys: seq<Key>)
    ensures |keys| == |es| && forall i {:trigger keys[i]} :: 0 <= i < |es| ==> keys[i] == es[i].key
  {
    seq(|es|, i requires 0 <= i < |es| => es[i].key)
  }

  function BlocksOf(all: seq<Chunk>): (blocks: seq<FB.DataBlock>)
    ensures |blocks| == |all|
    ensures forall i {:trigger blocks[i]} :: 0 <= i < |all| ==>
            blocks[i] == FB.DataBlock(all[i].handle.offset, KeysOf(all[i].layout.entries))
  {
    seq(|all|, i requires 0 <= i < |all| => FB.DataBlock(all[i].handle.offset, KeysOf(all[i].layout.entries)))
  }

  /** The blocks, and the one that will start at `offset`. */
  function FilterInput(all: seq<Chunk>, offset: nat, data: seq<KV>): (input: seq<FB.DataBlock>)
    ensures |input| == |all| + 1 && input[|all|].offset == offset
  {
    BlocksOf(all) + [FB.DataBlock(offset, KeysOf(data))]
  }

  ghost predicate SlotsOk(s: FB.Slots, input: seq<FB.DataBlock>) {
    FB.Ascending(input) && s == FB.SlotsAfter(input)
  }

  /** The last block has one key more. */
  function WithKey(input: seq<FB.DataBlock>, key: Key): seq<FB.DataBlock>
    requires input != []
  {
    var last := input[|input| - 1];
    input[|input| - 1 := FB.DataBlock(last.offset, last.keys + [key])]
  }

  lemma SlotsOfMoreKeys(s: FB.Slots, input: seq<FB.DataBlock>, key: Key)
    requires SlotsOk(s, input) && input != []
    ensures SlotsOk(FB.Slots(s.closed, s.pending + [key]), WithKey(input, key))
  {
    var more, n := WithKey(input, key), |input| - 1;
    assert more[..n] == input[..n];
    forall i, j {:trigger FB.StartsBefore(more, i, j)} | 0 <= i < j < |more| ensures FB.StartsBefore(more, i, j) {
      assert FB.StartsBefore(input, i, j);
    }
  }

  /** A block that starts behind the others, with no keys yet. */
  lemma SlotsOfMoreBlocks(s: FB.Slots, input: seq<FB.DataBlock>, offset: nat)
    requires SlotsOk(s, input) && input != [] && input[|input| - 1].offset <= offset
    ensures |s.closed| <= offset / FB.FILTER_BASE
    ensures SlotsOk(FB.Started(s, offset / FB.FILTER_BASE), input + [FB.DataBlock(offset, [])])
  {
    var more, n := input + [FB.DataBlock(offset, [])], |input|;
    assert more[..n] == input;
    forall i, j {:trigger FB.StartsBefore(more, i, j)} | 0 <= i < j < |more| ensures FB.StartsBefore(more, i, j) {
      assert i < n - 1 ==> FB.StartsBefore(input, i, n - 1);
      assert j < n ==> FB.StartsBefore(input, i, j);
    }
    var t := FB.Started(s, offset / FB.FILTER_BASE);
    assert t.pending + [] == t.pending;
  }

  lemma InputOfMoreKeys(a: seq<Chunk>, b: seq<Chunk>, offset: nat, data: seq<KV>, e: KV)
    requires SameBlocks(a, b)
    ensures WithKey(FilterInput(a, offset, data), e.key) == FilterInput(b, offset, data + [e])
  {
    SameFilterInput(a, b, offset, data);
    assert FilterInput(a, offset, data)[..|a|] == BlocksOf(b);
    assert KeysOf(data + [e]) == KeysOf(data) + [e.key];
  }

  lemma InputOfMoreBlocks(all: seq<Chunk>, c: Chunk, offset: nat)
    ensures FilterInput(all, c.handle.offset, c.layout.entries) + [FB.DataBlock(offset, [])] ==
            FilterInput(all + [c], offset, [])
  {
    assert BlocksOf(all + [c]) == FilterInput(all, c.handle.offset, c.layout.entries);
    assert KeysOf([]) == [];
  }

  lemma NothingIndexed(rank: Order)
    ensures Parts([], []) == [] && Indexed(rank, [], []) && IndexEntries([]) == [] && Concat<KV>([]) == []
  {
  }

  lemma NothingAdded()
    ensures SlotsOk(FB.Started(FB.Slots([], []), 0), FilterInput([], 0, []))
  {
    var input := FilterInput([], 0, []);
    assert input[..0] == [] && BlocksOf([]) == [] && KeysOf([]) == [];
  }

  // ---- The file

  /** A finished block, followed by its trailer. */
  lemma BlockWritten(file: seq<byte>, data: seq<byte>, restarts: seq<uint32>, l: Layout, rank: Order, block: seq<byte>)
    requires Holds(l, data, restarts, rank) && |data| + 4 * |restarts| + 4 < 0x1_0000_0000
    requires block == data + EncodeOffsets(restarts) + EncodeFixed32(|restarts|)
    ensures BlockLaid(block, |data|, l) && |block| == |data| + 4 * |restarts| + 4
    ensures |file| < 0x1_0000_0000_0000_0000 ==> StoredAt(file + block + Trailer(block),
            BlockHandle(|file|, |block|), block)
  {
    FinishedIsLaid(data, restarts, l, rank, block);
    if |file| < 0x1_0000_0000_0000_0000 {
      StoredAtEnd(file, block);
    }
  }

  lemma ChunksStay(file: seq<byte>, more: seq<byte>, chunks: seq<Chunk>)
    requires ChunksOk(file, chunks) && file <= more
    ensures ChunksOk(more, chunks)
  {
    forall i {:trigger ChunkOk(more, chunks[i])} | 0 <= i < |chunks| ensures ChunkOk(more, chunks[i]) {
      assert ChunkOk(file, chunks[i]);
      StaysStored(file, more, chunks[i].handle, chunks[i].block);
    }
  }

  /** All blocks lie before the end of the file. */
  lemma ChunksOfMore(file: seq<byte>, more: seq<byte>, chunks: seq<Chunk>, c: Chunk)
    requires ChunksOk(file, chunks) && file <= more && ChunkOk(more, c) && c.handle.offset == |file|
    ensures ChunksOk(more, chunks + [c])
  {
    ChunksStay(file, more, chunks);
    var all := chunks + [c];
    forall i {:trigger ChunkOk(more, all[i])} | 0 <= i < |all| ensures ChunkOk(more, all[i]) {
      assert i < |chunks| ==> ChunkOk(more, chunks[i]);
    }
    forall i, j {:trigger InFileOrder(all, i, j)} | 0 <= i < j < |all| ensures InFileOrder(all, i, j) {
      if j < |chunks| {
        assert InFileOrder(chunks, i, j);
      } else {
        assert ChunkOk(file, chunks[i]);
      }
    }
  }

  // ---- A finished table

  function Nowhere(): Chunk {
    Chunk(BlockHandle(0, 0), [], 0, EmptyLayout(), [])
  }

  /** The blocks of a finished table; those of the data end at `end`. */
  datatype TableParts = TableParts(chunks: seq<Chunk>, end: nat, filter: BlockHandle, meta: Chunk, index: Chunk)

  /** The filter block of a table. */
  ghost function FilterContents(policy: FB.Policy, chunks: seq<Chunk>, end: nat): seq<byte>
    requires FB.Ascending(FilterInput(chunks, end, []))
  {
    FB.FilterImage(policy, FB.FinalSlots(FB.SlotsAfter(FilterInput(chunks, end, []))))
  }

  function MetaEntries(policy: Option<FB.Policy>, filterKey: Key, filter: BlockHandle): seq<KV> {
    if policy.None? then [] else [KV(filterKey, EncodeHandle(filter))]
  }

  ghost predicate FilterStored(file: seq<byte>, policy: Option<FB.Policy>, chunks: seq<Chunk>, end: nat,
      filter: BlockHandle) {
    policy.Some? ==> FB.Ascending(FilterInput(chunks, end, [])) && StoredAt(file, filter,
      FilterContents(policy.value, chunks, end))
  }

  ghost predicate TableFile(rank: Order, policy: Option<FB.Policy>, filterKey: Key, file: seq<byte>, t: TableParts) {
    && TableLaid(rank, file, t.chunks, t.index) && FilterStored(file, policy, t.chunks, t.end, t.filter)
    && ChunkOk(file, t.meta) && t.meta.layout.entries == MetaEntries(policy, filterKey, t.filter)
    && |file| >= FOOTER_SIZE && file[|file| - FOOTER_SIZE..] == EncodeFooter(Footer(t.meta.handle, t.index.handle))
  }

  lemma FilterStays(file: seq<byte>, more: seq<byte>, policy: Option<FB.Policy>, all: seq<Chunk>, end: nat,
      filter: BlockHandle)
    requires FilterStored(file, policy, all, end, filter) && file <= more
    ensures FilterStored(more, policy, all, end, filter)
  {
    if policy.Some? {
      StaysStored(file, more, filter, FilterContents(policy.value, all, end));
    }
  }

  /** What was written to the file as it grew is there in the end. */
  lemma TableFinished(rank: Order, policy: Option<FB.Policy>, filterKey: Key, b: Building, more: seq<byte>,
      most: seq<byte>, file: seq<byte>, t: TableParts)
    requires b.file <= more <= most && |file| < 0x1_0000_0000_0000_0000
    requires IndexSettledFor(rank, b, t.chunks) && FilterStored(more, policy, b.All(), t.end, t.filter)
    requires ChunkOk(more, t.meta) && t.meta.layout.entries == MetaEntries(policy, filterKey, t.filter)
    requires ChunkOk(most, t.index) && t.index.layout.entries == IndexEntries(t.chunks)
    requires file == most + EncodeFooter(Footer(t.meta.handle, t.index.handle))
    ensures TableFile(rank, policy, filterKey, file, t)
  {
    ChunksStay(b.file, file, t.chunks);
    StaysStored(more, file, t.meta.handle, t.meta.block);
    StaysStored(most, file, t.index.handle, t.index.block);
    SameFilterInput(b.All(), t.chunks, t.end, []);
    FilterStays(more, file, policy, t.chunks, t.end, t.filter);
  }
}
