/** Building a table (table/table_builder.cc). */
module TableWriter {
  import opened Options
  import opened Words
  import opened Coding
  import opened BlockFormat
  import opened BlockBuilder
  import opened BlockIter
  import opened TableFormat
  import opened TableLayout
  import opened TablePlan
  import FB = FilterBlock
  import Comparator
  import Crc32c

  // ---- Short index keys

  /** InternalKeyComparator::FindShortestSeparator on encoded keys. */
  method FindShortestSeparator(rank: Order, start: Key, limit: Key) returns (r: Key)
    requires IsInternalOrder(rank) && IsInternal(start) && IsInternal(limit) && rank(start) < rank(limit)
    ensures Separates(rank, start, r, limit) && |r| <= |start|
  {
    RankSays(rank, start, limit);
    var k := Comparator.FindInternalSeparator(Decoded(start), Decoded(limit));
    if k == Decoded(start) {
      r := start;
    } else {
      r := Encoded(k);
      EncodedRoundTrip(k);
    }
    RankSays(rank, r, start);
    RankSays(rank, r, limit);
    Comparator.InternalLessIsTotal(Decoded(start), Decoded(r));
  }

  method FindShortSuccessor(rank: Order, key: Key) returns (r: Key)
    requires IsInternalOrder(rank) && IsInternal(key)
    ensures IsInternal(r) && rank(key) <= rank(r) && |r| <= |key|
  {
    var k := Comparator.FindInternalSuccessor(Decoded(key));
    if k == Decoded(key) {
      r := key;
    } else {
      r := Encoded(k);
      EncodedRoundTrip(k);
    }
    RankSays(rank, r, key);
    RankSays(rank, key, r);
    Comparator.InternalLessIsTotal(Decoded(key), Decoded(r));
  }

  /** A filter block is built if there is a policy. */
  method NewFilterBlock(policy: Option<FB.Policy>) returns (filters: FB.FilterBlockBuilder?)
    ensures policy.None? <==> filters == null
    ensures filters != null ==>
              && fresh(filters) && filters.Valid() && filters.policy == policy.value
              && SlotsOk(filters.slots, FilterInput([], 0, []))
  {
    if policy.None? {
      return null;
    }
    filters := new FB.FilterBlockBuilder(policy.value);
    NothingAdded();
    filters.StartBlock(0);
  }

  class TableBuilder {
    const rank: Order
    const blockSize: nat
    const policy: Option<FB.Policy>
    const filterKey: Key                  // "filter." and the name of the policy
    const dataBlock: BlockBuilder
    const indexBlock: BlockBuilder
    const filterBlock: FB.FilterBlockBuilder?
    var file: seq<byte>
    var offset: nat
    var lastKey: Key
    var numEntries: nat
    var closed: bool
    var pendingIndexEntry: bool           // true only if the data block is empty
    var pendingHandle: BlockHandle        // handle to add to the index block
    ghost var state: Building
    ghost var filterInput: seq<FB.DataBlock>  // what the filters are built from

    ghost predicate FieldsOk()
      reads this
    {
      && !closed && blockSize <= MAX_BLOCK && state.Inv(rank)
      && file == state.file && offset == |file| && lastKey == state.lastKey
         && (numEntries == 0 <==> state.Entries() == [])
      && pendingIndexEntry == state.waiting.Some? && (pendingIndexEntry ==> pendingHandle == state.waiting.value.handle)
    }

    ghost predicate DataOk(data: seq<KV>)
      reads dataBlock
    {
      dataBlock.Valid() && dataBlock.rank == rank && dataBlock.layout.entries == data
    }

    ghost predicate IndexOk(chunks: seq<Chunk>)
      reads indexBlock
    {
      indexBlock.Valid() && indexBlock.rank == rank && indexBlock.layout.entries == IndexEntries(chunks)
    }

    ghost predicate FilterOk()
      reads this`filterInput, filterBlock
    {
      && (filterBlock == null <==> policy.None?)
      && (filterBlock != null ==>
         filterBlock.Valid() && filterBlock.policy == policy.value && SlotsOk(filterBlock.slots, filterInput))
    }

    /** As Valid, but the data block may be large. */
    ghost predicate Almost()
      reads this, dataBlock, indexBlock, filterBlock
    {
      && dataBlock != indexBlock && FieldsOk() && DataOk(state.data) && IndexOk(state.chunks) && FilterOk()
      && filterInput == FilterInput(state.All(), |state.file|, state.data)
    }

    ghost predicate Valid()
      reads this, dataBlock, indexBlock, filterBlock
    {
      Almost() && dataBlock.CurrentSizeEstimate() <= MAX_BLOCK
    }

    constructor (rank: Order, blockSize: nat, restartInterval: nat, policy: Option<FB.Policy>, filterKey: Key)
      requires blockSize <= MAX_BLOCK && restartInterval >= 1
      ensures Valid() && state.Entries() == [] && this.rank == rank && this.blockSize == blockSize
              && this.policy == policy && this.filterKey == filterKey
      ensures fresh(dataBlock) && fresh(indexBlock) && (policy.Some? ==> filterBlock != null && fresh(filterBlock))
              && Room()
    {
      this.rank, this.blockSize, this.policy, this.filterKey := rank, blockSize, policy, filterKey;
      dataBlock := new BlockBuilder(restartInterval, rank);
      indexBlock := new BlockBuilder(1, rank);
      file, offset, lastKey, numEntries, closed := [], 0, [], 0, false;
      pendingIndexEntry, pendingHandle := false, BlockHandle(0, 0);
      state := Building([], [], None, [], []);
      filterInput := FilterInput([], 0, []);
      var filters := NewFilterBlock(policy);
      filterBlock := filters;
      new;
      NothingIndexed(rank);
    }

    /** There is room for another block and another index entry. */
    predicate Room()
      reads this, indexBlock
    {
      offset < 0x8000_0000_0000_0000 && indexBlock.CurrentSizeEstimate() < 0x8000_0000
    }

    /** Appends a block with its type and checksum. */
    method WriteRawBlock(contents: seq<byte>) returns (handle: BlockHandle)
      modifies this`file, this`offset
      ensures handle == BlockHandle(Low64(old(offset)), Low64(|contents|))
      ensures file == old(file) + contents + Trailer(contents) && offset == old(offset) + |contents| + TRAILER_SIZE
    {
      handle := BlockHandle(Low64(offset), Low64(|contents|));
      ghost var before := file;
      file := file + contents;
      var crc := Crc32c.Extend(Zeros(32), contents, 0);
      Crc32c.ExtendedAppend(Zeros(32), contents, [NO_COMPRESSION]);
      crc := Crc32c.Extend(crc, [NO_COMPRESSION], 0);
      file := file + ([NO_COMPRESSION] + EncodeFixed32(Crc32c.Mask(Number(crc))));
      offset := offset + |contents| + TRAILER_SIZE;
    }

    /** Finishes a block, appends it, and empties the builder for another one. */
    method WriteBlock(block: BlockBuilder) returns (handle: BlockHandle, ghost c: Chunk)
      requires block.Valid() && block.CurrentSizeEstimate() < 0x1_0000_0000 && offset == |file|
      modifies this`file, this`offset, block
      ensures block.Valid() && block.layout.entries == [] && block.CurrentSizeEstimate() == 8
      ensures old(file) <= file && offset == |file| == old(offset) + old(block.CurrentSizeEstimate()) + TRAILER_SIZE
      ensures c.handle == handle == BlockHandle(Low64(old(offset)), old(block.CurrentSizeEstimate()))
      ensures c.layout == old(block.layout) && BlockLaid(c.block, c.limit, c.layout)
      ensures old(offset) < 0x1_0000_0000_0000_0000 ==> ChunkOk(file, c)
    {
      ghost var data, restarts, l, before := block.buffer, block.restarts, block.layout, file;
      var raw := block.Finish();
      BlockWritten(before, data, restarts, l, block.rank, raw);
      handle := WriteRawBlock(raw);
      block.Reset();
      c := Chunk(handle, raw, |data|, l, []);
    }

    /** The last key becomes the index key of the block that waits for one. */
    method AddIndexEntry(ghost chunks: seq<Chunk>, ghost c: Chunk)
      requires IndexOk(chunks) && indexBlock.CurrentSizeEstimate() < 0x8000_0000 && pendingHandle == c.handle
               && |lastKey| < MAX_BLOCK && lastKey == c.key
      requires chunks != [] ==> rank(chunks[|chunks| - 1].key) < rank(lastKey)
      modifies indexBlock
      ensures IndexOk(chunks + [c]) && indexBlock.CurrentSizeEstimate() < 0xd000_0000
    {
      HandleLength(pendingHandle);
      indexBlock.Add(lastKey, EncodeHandle(pendingHandle));
      assert IndexEntries(chunks + [c]) == IndexEntries(chunks) + [KV(lastKey, EncodeHandle(c.handle))];
    }

    method AddFilterKey(key: Key)
      requires FilterOk() && filterInput != []
      modifies this`filterInput, filterBlock
      ensures FilterOk() && filterInput == WithKey(old(filterInput), key)
    {
      if filterBlock != null {
        SlotsOfMoreKeys(filterBlock.slots, filterInput, key);
        filterBlock.AddKey(key);
      }
      filterInput := WithKey(filterInput, key);
    }

    method StartFilterBlock()
      requires FilterOk() && filterInput != [] && filterInput[|filterInput| - 1].offset <= offset
      modifies this`filterInput, filterBlock
      ensures FilterOk() && filterInput == old(filterInput) + [FB.DataBlock(offset, [])]
    {
      if filterBlock != null {
        SlotsOfMoreBlocks(filterBlock.slots, filterInput, offset);
        filterBlock.StartBlock(offset);
      }
      filterInput := filterInput + [FB.DataBlock(offset, [])];
    }

    /** Writes the data block, if it is not empty. */
    method Flush()
      requires Almost() && dataBlock.CurrentSizeEstimate() < 0x1_0000_0000 && offset < 0x8000_0000_0000_0000
      modifies this, dataBlock, filterBlock
      ensures Valid() && state.data == [] && state.Entries() == old(state.Entries())
              && state.chunks == old(state.chunks)
    {
      hide SlotsOk, FB.FilterBlockBuilder.Valid, BlockBuilder.Valid, FilterInput, Building.Inv, Building.Entries,
          Building.All;
      dataBlock.EmptyMeans();
      if dataBlock.Empty() {
        return;
      }
      ghost var all := state.All();
      ghost var c := WriteData();
      StartFilterBlock();
      InputOfMoreBlocks(all, c, offset);
    }

    /** Writes the data block, which then waits for its index entry. */
    method WriteData() returns (ghost c: Chunk)
      requires FieldsOk() && DataOk(state.data) && state.data != [] && dataBlock.CurrentSizeEstimate() < 0x1_0000_0000
               && offset < 0x8000_0000_0000_0000
      modifies this`file, this`offset, this`pendingHandle, this`pendingIndexEntry, this`state, dataBlock
      ensures FieldsOk() && DataOk([]) && dataBlock.CurrentSizeEstimate() == 8
      ensures state == old(state).WithBlock(file, c) && state.Entries() == old(state.Entries())
              && state.All() == old(state.All()) + [c]
      ensures c.handle.offset == old(offset) <= offset && c.layout.entries == old(state.data)
    {
      hide BlockBuilder.Valid, Building.Inv, Building.Entries, Building.All;
      pendingHandle, c := WriteBlock(dataBlock);
      pendingIndexEntry := true;
      BlockClosed(rank, state, file, c);
      state := state.WithBlock(file, c);
    }

    /** Settles the index key of the block that waits for one, before entry `e` is added. */
    method SettleIndex(key: Key, ghost e: KV) returns (ghost next: Building)
      requires FieldsOk() && IndexOk(state.chunks) && Room() && IsInternalOrder(rank)
      requires e.key == key && IsInternal(key) && |key| < MAX_BLOCK && (numEntries > 0 ==> rank(lastKey) < rank(key))
      modifies this`lastKey, indexBlock
      ensures IndexOk(next.chunks) && next.WithEntry(e).Inv(rank)
              && next.WithEntry(e).Entries() == state.Entries() + [e]
      ensures next.waiting.None? && next.file == state.file && next.data == state.data
              && SameBlocks(state.All(), next.chunks)
    {
      hide BlockBuilder.Valid, Building.Entries, Building.Inv, Building.All, IsInternalOrder;
      LastEntry(rank, state);
      if pendingIndexEntry {
        var separator := FindShortestSeparator(rank, lastKey, key);
        IndexSettled(rank, state, separator, e);
        lastKey := separator;
        AddIndexEntry(state.chunks, state.waiting.value.(key := separator));
        next := state.WithIndexKey(separator);
      } else {
        BlockGrown(rank, state, e);
        next := state;
      }
    }

    /** Adds an entry; the block is written when it is large enough. */
    method Add(key: Key, value: seq<byte>)
      requires Valid() && Room() && IsInternalOrder(rank) && IsInternal(key)
               && (numEntries > 0 ==> rank(lastKey) < rank(key))
      requires |key| + |value| < MAX_BLOCK
      modifies this, dataBlock, indexBlock, filterBlock
      ensures Valid() && state.Entries() == old(state.Entries()) + [KV(key, value)]
    {
      AddToBlock(key, value);
      if dataBlock.CurrentSizeEstimate() >= blockSize {
        Flush();
      }
    }

    method AddToBlock(key: Key, value: seq<byte>)
      requires Valid() && Room() && IsInternalOrder(rank) && IsInternal(key)
               && (numEntries > 0 ==> rank(lastKey) < rank(key))
      requires |key| + |value| < MAX_BLOCK
      modifies this, dataBlock, indexBlock, filterBlock
      ensures Almost() && dataBlock.CurrentSizeEstimate() < 0x1_0000_0000 && offset == old(offset)
      ensures state.Entries() == old(state.Entries()) + [KV(key, value)]
    {
      hide SlotsOk, FB.FilterBlockBuilder.Valid, BlockBuilder.Valid, FilterInput, Building.Inv, Building.Entries;
      ghost var all, e := state.All(), KV(key, value);
      ghost var next := SettleIndex(key, e);
      AddFilterEntry(key, all, next.chunks, next.data, e);
      AddData(key, value, next);
      assert state.All() == next.chunks;
    }

    method AddFilterEntry(key: Key, ghost all: seq<Chunk>, ghost chunks: seq<Chunk>, ghost data: seq<KV>, ghost e: KV)
      requires FilterOk() && filterInput == FilterInput(all, |state.file|, data) && SameBlocks(all, chunks)
               && e.key == key
      modifies this`filterInput, filterBlock
      ensures FilterOk() && filterInput == FilterInput(chunks, |state.file|, data + [e])
    {
      AddFilterKey(key);
      InputOfMoreKeys(all, chunks, |state.file|, data, e);
    }

    /** Adds the entry to the data block. */
    method AddData(key: Key, value: seq<byte>, ghost next: Building)
      requires !closed && blockSize <= MAX_BLOCK && DataOk(next.data) && dataBlock.CurrentSizeEstimate() <= MAX_BLOCK
      requires next.WithEntry(KV(key, value)).Inv(rank) && next.waiting.None? && next.file == file && offset == |file|
      requires |key| + |value| < MAX_BLOCK
      modifies this`lastKey, this`numEntries, this`pendingIndexEntry, this`state, dataBlock
      ensures FieldsOk() && state == next.WithEntry(KV(key, value)) && DataOk(state.data)
              && dataBlock.CurrentSizeEstimate() < 0x1_0000_0000
    {
      hide Indexed, ChunksOk, Building.Entries;
      ghost var e := KV(key, value);
      InOrder(rank, next.chunks, next.data, e);
      LastEntry(rank, next.WithEntry(e));
      lastKey := key;
      numEntries := numEntries + 1;
      pendingIndexEntry := false;
      dataBlock.Add(key, value);
      state := next.WithEntry(e);
    }

    /** Writes the filter block, if there is a policy. */
    method WriteFilter(ghost all: seq<Chunk>) returns (handle: BlockHandle)
      requires offset == |file| && FilterOk() && filterInput == FilterInput(all, offset, [])
      modifies this`file, this`offset, filterBlock
      ensures offset == |file| && old(file) <= file
      ensures |file| < 0x1_0000_0000_0000_0000 ==> FilterStored(file, policy, all, old(offset), handle)
    {
      handle := BlockHandle(0, 0);
      if filterBlock != null {
        ghost var before := file;
        var contents := filterBlock.Finish();
        handle := WriteRawBlock(contents);
        if |before| < 0x1_0000_0000_0000_0000 && |contents| < 0x1_0000_0000_0000_0000 {
          StoredAtEnd(before, contents);
        }
      }
    }

    /** Writes the metaindex block, which has the place of the filter block. */
    method WriteMeta(restartInterval: nat, filter: BlockHandle) returns (handle: BlockHandle, ghost meta: Chunk)
      requires offset == |file| && restartInterval >= 1 && |filterKey| < MAX_BLOCK
               && (filterBlock == null <==> policy.None?)
      modifies this`file, this`offset
      ensures offset == |file| && old(file) <= file && handle == meta.handle
      ensures |file| < 0x1_0000_0000_0000_0000 ==> ChunkOk(file, meta)
      ensures meta.layout.entries == MetaEntries(policy, filterKey, filter)
    {
      var metaBlock := new BlockBuilder(restartInterval, BytewiseRank);
      if filterBlock != null {
        HandleLength(filter);
        metaBlock.Add(filterKey, EncodeHandle(filter));
        assert metaBlock.layout.entries == [KV(filterKey, EncodeHandle(filter))];
      }
      handle, meta := WriteBlock(metaBlock);
    }

    /** The last block gets an index key at or after its last key. */
    method FinishIndex(ghost b: Building) returns (ghost chunks: seq<Chunk>)
      requires b.Inv(rank) && b.data == [] && lastKey == b.lastKey && IsInternalOrder(rank)
               && indexBlock.CurrentSizeEstimate() < 0x8000_0000 && IndexOk(b.chunks)
      requires pendingIndexEntry == b.waiting.Some? && (pendingIndexEntry ==> pendingHandle == b.waiting.value.handle)
      modifies this`lastKey, this`pendingIndexEntry, indexBlock
      ensures IndexOk(chunks) && IndexSettledFor(rank, b, chunks) && indexBlock.CurrentSizeEstimate() < 0xd000_0000
    {
      LastEntry(rank, b);
      if pendingIndexEntry {
        var successor := FindShortSuccessor(rank, lastKey);
        LastSettled(rank, b, successor);
        lastKey := successor;
        AddIndexEntry(b.chunks, b.waiting.value.(key := successor));
        pendingIndexEntry := false;
        chunks := b.WithIndexKey(successor).chunks;
      } else {
        NothingSettled(rank, b);
        chunks := [];
      }
    }

    /** Completes the table. */
    method Finish(restartInterval: nat) returns (ghost t: TableParts)
      requires Valid() && Room() && IsInternalOrder(rank) && restartInterval >= 1 && |filterKey| < MAX_BLOCK
      modifies this, dataBlock, indexBlock, filterBlock
      ensures closed && Flat(t.chunks) == old(state.Entries())
      ensures |file| < 0x1_0000_0000_0000_0000 ==> TableFile(rank, policy, filterKey, file, t)
    {
      hide SlotsOk, FB.FilterBlockBuilder.Valid, BlockBuilder.Valid, FilterInput, Building.Inv, Building.Entries;
      Flush();
      closed := true;
      t := WriteTail(restartInterval, state);
    }

    /** Writes what follows the data blocks. */
    method WriteTail(restartInterval: nat, ghost b: Building) returns (ghost t: TableParts)
      requires b.Inv(rank) && b.data == [] && lastKey == b.lastKey && IsInternalOrder(rank)
               && indexBlock.CurrentSizeEstimate() < 0x8000_0000 && IndexOk(b.chunks)
      requires pendingIndexEntry == b.waiting.Some? && (pendingIndexEntry ==> pendingHandle == b.waiting.value.handle)
      requires b.file == file && offset == |file| && FilterOk() && filterInput == FilterInput(b.All(), |b.file|, [])
               && restartInterval >= 1 && |filterKey| < MAX_BLOCK
      modifies this`file, this`offset, this`lastKey, this`pendingIndexEntry, indexBlock, filterBlock
      ensures Flat(t.chunks) == b.Entries()
      ensures |file| < 0x1_0000_0000_0000_0000 ==> TableFile(rank, policy, filterKey, file, t)
    {
      hide SlotsOk, FB.FilterBlockBuilder.Valid, BlockBuilder.Valid, Indexed, ChunksOk, ChunkOk;
      ghost var end, before := offset, file;
      var metaHandle, indexHandle;
      ghost var filter, meta, chunks, index;
      metaHandle, filter, meta := WriteMetaBlocks(restartInterval, b.All());
      ghost var more := file;
      indexHandle, chunks, index := WriteIndex(b);
      ghost var most := file;
      file := file + EncodeFooter(Footer(metaHandle, indexHandle));
      offset := offset + FOOTER_SIZE;
      t := TableParts(chunks, end, filter, meta, index);
      if |file| < 0x1_0000_0000_0000_0000 {
        TableFinished(rank, policy, filterKey, b, more, most, file, t);
      }
    }

    /** Writes the filter block and the metaindex block. */
    method WriteMetaBlocks(restartInterval: nat, ghost all: seq<Chunk>)
        returns (handle: BlockHandle, ghost filter: BlockHandle, ghost meta: Chunk)
      requires offset == |file| && FilterOk() && filterInput == FilterInput(all, offset, []) && restartInterval >= 1
               && |filterKey| < MAX_BLOCK
      modifies this`file, this`offset, filterBlock
      ensures offset == |file| && old(file) <= file && handle == meta.handle
      ensures meta.layout.entries == MetaEntries(policy, filterKey, filter)
      ensures |file| < 0x1_0000_0000_0000_0000 ==>
              FilterStored(file, policy, all, old(offset), filter) && ChunkOk(file, meta)
    {
      var filterHandle := WriteFilter(all);
      filter := filterHandle;
      ghost var before := file;
      handle, meta := WriteMeta(restartInterval, filterHandle);
      if |file| < 0x1_0000_0000_0000_0000 {
        FilterStays(before, file, policy, all, old(offset), filter);
      }
    }

    /** Writes the index block. */
    method WriteIndex(ghost b: Building) returns (handle: BlockHandle, ghost chunks: seq<Chunk>, ghost index: Chunk)
      requires b.Inv(rank) && b.data == [] && lastKey == b.lastKey && IsInternalOrder(rank) && IndexOk(b.chunks)
      requires indexBlock.CurrentSizeEstimate() < 0x8000_0000 && offset == |file|
      requires pendingIndexEntry == b.waiting.Some? && (pendingIndexEntry ==> pendingHandle == b.waiting.value.handle)
      modifies this`file, this`offset, this`lastKey, this`pendingIndexEntry, indexBlock
      ensures IndexSettledFor(rank, b, chunks) && index.layout.entries == IndexEntries(chunks)
      ensures offset == |file| && old(file) <= file && handle == index.handle
      ensures |file| < 0x1_0000_0000_0000_0000 ==> ChunkOk(file, index)
    {
      chunks := FinishIndex(b);
      handle, index := WriteBlock(indexBlock);
    }
  }

  /** Building a table of entries, unless it gets too large. */
  method BuildTable(rank: Order, blockSize: nat, restartInterval: nat, policy: Option<FB.Policy>, filterKey: Key,
      es: seq<KV>)
    returns (file: Option<seq<byte>>, builder: TableBuilder, ghost t: TableParts)
    requires IsInternalOrder(rank) && KeysOrdered(rank, es) && forall e :: e in es ==> |e.key| + |e.value| < MAX_BLOCK
    requires blockSize <= MAX_BLOCK && restartInterval >= 1 && |filterKey| < MAX_BLOCK
    ensures file.Some? ==>
              TableFile(rank, policy, filterKey, file.value, t) && Flat(t.chunks) == es && |file.value| < 0x1_0000_0000
    ensures file.None? ==> if builder.closed then |builder.file| >= 0x1_0000_0000 else !builder.Room()
  {
    hide SlotsOk, FB.FilterBlockBuilder.Valid, BlockBuilder.Valid, FilterInput, Building.Inv, Building.Entries,
        Building.All, TableFile, IsInternalOrder;
    builder := new TableBuilder(rank, blockSize, restartInterval, policy, filterKey);
    for i := 0 to |es|
      invariant fresh(builder) && fresh(builder.dataBlock) && fresh(builder.indexBlock)
                && (builder.filterBlock != null ==> fresh(builder.filterBlock))
      invariant builder.Valid() && builder.rank == rank && builder.policy == policy && builder.filterKey == filterKey
      invariant builder.state.Entries() == es[..i]
    {
      if !builder.Room() {
        return None, builder, TableParts([], 0, BlockHandle(0, 0), Nowhere(), Nowhere());
      }
      assert es[..i + 1] == es[..i] + [es[i]];
      NextInOrder(builder, es, i);
      builder.Add(es[i].key, es[i].value);
    }
    assert es[..|es|] == es;
    if !builder.Room() {
      return None, builder, TableParts([], 0, BlockHandle(0, 0), Nowhere(), Nowhere());
    }
    t := builder.Finish(restartInterval);
    file := if |builder.file| < 0x1_0000_0000 then Some(builder.file) else None;
  }

  lemma NextInOrder(builder: TableBuilder, es: seq<KV>, i: nat)
    requires builder.Valid() && i < |es| && builder.state.Entries() == es[..i] && KeysOrdered(builder.rank, es)
    ensures IsInternal(es[i].key) && (builder.numEntries > 0 ==>
            builder.rank(builder.lastKey) < builder.rank(es[i].key))
  {
    hide SlotsOk, FB.FilterBlockBuilder.Valid, BlockBuilder.Valid, FilterInput, Building.Inv, Building.Entries,
        Building.All;
    LastEntry(builder.rank, builder.state);
    OrderedAt(builder.rank, es, i, i);
    assert i > 0 ==> KeyLess(builder.rank, es, i - 1, i);
  }
}
