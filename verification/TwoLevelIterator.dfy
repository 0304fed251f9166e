/**
 Iterating over a table (table/two_level_iterator.cc): an iterator over the index, and one over
 the data block that the index stands on, which together are a cursor over all entries.
 */
module TwoLevelIterator {
  import opened Options
  import opened Words
  import opened BlockFormat
  import opened BlockIter
  import opened TableFormat
  import opened TableLayout
  import opened TablePlan
  import opened Tables

  class TwoLevel {
    const table: Table
    const indexIter: Iter
    var dataIter: Iter?
    var dataBlockHandle: seq<byte>   // the index value that made dataIter
    ghost var block: nat             // the block of dataIter

    ghost function Chunks(): seq<Chunk> {
      table.t.chunks
    }

    ghost predicate IndexOk()
      reads indexIter
    {
      table.Ok() && indexIter.Ok() && indexIter.layout == table.t.index.layout && indexIter.rank == table.rank
    }

    /** The data iterator is over its block; the index may have moved on. */
    ghost predicate DataOk()
      reads this, dataIter
    {
      dataIter != null ==>
        && dataIter != indexIter && dataIter.Ok() && dataIter.rank == table.rank
        && block < |Chunks()| && dataIter.layout == Chunks()[block].layout
           && dataBlockHandle == EncodeHandle(Chunks()[block].handle)
    }

    /** The data iterator is over the block that the index stands on, if it stands on one. */
    ghost predicate Together()
      reads this, dataIter, indexIter
    {
      IndexOk() && DataOk() && (dataIter != null <==> indexIter.Valid()) && (dataIter != null ==> block == indexIter.at)
    }

    ghost predicate Ok()
      reads this, dataIter, indexIter
    {
      IndexOk() && DataOk() && (dataIter != null ==> indexIter.Valid() && block == indexIter.at && dataIter.Valid())
    }

    /** The index of the current entry among all entries of the table; their number when not valid. */
    ghost function Position(): nat
      requires Ok()
      reads this, dataIter, indexIter
    {
      if dataIter == null then |Flat(Chunks())| else Start(Chunks(), block) + dataIter.at
    }

    constructor (table: Table, indexIter: Iter)
      requires table.Ok() && indexIter.Ok() && indexIter.layout == table.t.index.layout && indexIter.rank == table.rank
      ensures Ok() && !Valid() && this.table == table && this.indexIter == indexIter && dataIter == null
    {
      hide Table.Ok, Iter.Ok, Iter.Sources;
      this.table, this.indexIter, dataIter, dataBlockHandle, block := table, indexIter, null, [], 0;
    }

    predicate Valid()
      reads this, dataIter
    {
      dataIter != null && dataIter.Valid()
    }

    /** The entry under the iterator. */
    method Entry() returns (e: KV)
      requires Ok() && Valid()
      ensures Position() < |Flat(Chunks())| && e == Flat(Chunks())[Position()]
    {
      hide Table.Ok, Iter.Ok, Iter.Sources, Flat, Start;
      EntryInFlat(Chunks(), block, dataIter.at);
      e := dataIter.Entry();
    }

    /** Makes a data iterator for the block that the index stands on, unless there is one already. */
    method InitDataBlock()
      requires IndexOk() && DataOk()
      modifies this
      ensures Together() && (dataIter != null ==> dataIter == old(dataIter) || fresh(dataIter))
    {
      hide Table.Ok, Iter.Ok, Iter.Sources;
      if !indexIter.Valid() {
        dataIter := null;
        return;
      }
      var handle := indexIter.Entry().value;
      IndexValue(indexIter.at);
      if dataIter != null && handle == dataBlockHandle {
        SameHandle(block, indexIter.at);
      } else {
        ghost var j := indexIter.at;
        dataIter := table.BlockReader(handle, j);
        dataBlockHandle, block := handle, j;
      }
    }

    /** The value of an index entry is the handle of its block. */
    lemma IndexValue(j: nat)
      requires table.Ok() && j < |table.t.index.layout.entries|
      ensures j < |Chunks()| && table.t.index.layout.entries[j].value == EncodeHandle(Chunks()[j].handle)
    {
    }

    lemma SameHandle(i: nat, j: nat)
      requires table.Ok() && i < |Chunks()| && j < |Chunks()|
               && EncodeHandle(Chunks()[i].handle) == EncodeHandle(Chunks()[j].handle)
      ensures i == j
    {
      HandlesDiffer(table.file, Chunks(), i, j);
    }

    /** Moves on to the next block with an entry; position `p` is the current one or the one behind the block. */
    method SkipEmptyDataBlocksForward(ghost p: nat)
      requires Together() && p == if dataIter == null then |Flat(Chunks())| else Start(Chunks(), block) + dataIter.at
      modifies this, indexIter, dataIter
      ensures Ok() && Position() == p && (dataIter != null ==> dataIter == old(dataIter) || fresh(dataIter))
      ensures Valid() <==> p < |Flat(Chunks())|
    {
      hide Table.Ok, Iter.Ok, Iter.Sources, Flat, Start;
      ghost var first := dataIter;
      while dataIter == null || !dataIter.Valid()
        invariant Together() && p == if dataIter == null then |Flat(Chunks())| else Start(Chunks(), block) + dataIter.at
        invariant dataIter != null ==> dataIter == first || fresh(dataIter)
        decreases |indexIter.layout.entries| - indexIter.at, dataIter != null
      {
        if !indexIter.Valid() {
          dataIter := null;
          return;
        }
        BlockInFlat(Chunks(), block);
        Ends(Chunks());
        IndexSize();
        indexIter.Next();
        InitDataBlock();
        if dataIter != null {
          dataIter.SeekToFirst();
        }
      }
      EntryInFlat(Chunks(), block, dataIter.at);
    }

    lemma IndexSize()
      requires table.Ok()
      ensures |table.t.index.layout.entries| == |Chunks()|
    {
    }

    /** To the end of the block before. */
    method StepBack(ghost p: int)
      requires Together() && p == Behind() && (dataIter == null || !dataIter.Valid()) && indexIter.Valid()
      modifies this, indexIter, dataIter
      ensures Together() && p == Behind() && (dataIter != null ==> dataIter == old(dataIter) || fresh(dataIter))
      ensures (if dataIter == null then 0 else block + 1) < old(if dataIter == null then 0 else block + 1)
    {
      hide Table.Ok, Iter.Ok, Iter.Sources, Flat, Start;
      if block > 0 {
        BlockInFlat(Chunks(), block - 1);
      }
      Ends(Chunks());
      IndexSize();
      indexIter.Prev();
      InitDataBlock();
      if dataIter != null {
        dataIter.SeekToLast();
      }
    }

    /** Moves back to the block before with an entry; position `p` is the current one or the one before the block. */
    method SkipEmptyDataBlocksBackward(ghost p: int)
      requires Together() && p == Behind()
      modifies this, indexIter, dataIter
      ensures Ok() && Position() == (if p < 0 then |Flat(Chunks())| else p)
              && (dataIter != null ==> dataIter == old(dataIter) || fresh(dataIter))
      ensures Valid() <==> p >= 0
    {
      hide Table.Ok, Iter.Ok, Iter.Sources, Flat, Start;
      ghost var first := dataIter;
      while dataIter == null || !dataIter.Valid()
        invariant Together() && p == Behind()
        invariant dataIter != null ==> dataIter == first || fresh(dataIter)
        decreases if dataIter == null then 0 else block + 1
      {
        if !indexIter.Valid() {
          dataIter := null;
          return;
        }
        StepBack(p);
      }
      EntryInFlat(Chunks(), block, dataIter.at);
    }

    /**
     The current position, or the one before the block if the data iterator has left it; none before
     the first block.
     */
    ghost function Behind(): int
      requires Together()
      reads this, dataIter, indexIter
    {
      if dataIter == null then -1
      else if dataIter.Valid() then Start(Chunks(), block) + dataIter.at else Start(Chunks(), block) - 1
    }

    /** The first entry at or after `target`. */
    method Seek(target: Key)
      requires Ok()
      modifies this, indexIter, dataIter
      ensures Ok() && FirstAt(table.rank, Flat(Chunks()), target, Position())
              && (dataIter != null ==> dataIter == old(dataIter) || fresh(dataIter))
      ensures Valid() <==> Position() < |Flat(Chunks())|
    {
      hide Table.Ok, Iter.Ok, Iter.Sources, Iter.AllBefore, Flat, Start, FirstAt, IndexFinds;
      indexIter.Seek(target);
      table.IndexFound(target, indexIter);
      InitDataBlock();
      ghost var p := |Flat(Chunks())|;
      if dataIter != null {
        dataIter.Seek(target);
        p := Start(Chunks(), block) + dataIter.at;
        FoundInBlock(target);
      } else {
        NoneFound(target);
      }
      SkipEmptyDataBlocksForward(p);
    }

    lemma FoundInBlock(target: Key)
      requires Together() && dataIter != null && IndexFinds(table.rank, Chunks(), target, block)
      requires dataIter.AllBefore(target, dataIter.at)
      requires forall i :: dataIter.at <= i < |dataIter.layout.entries| ==>
               table.rank(dataIter.layout.entries[i].key) >= table.rank(target)
      ensures FirstAt(table.rank, Flat(Chunks()), target, Start(Chunks(), block) + dataIter.at)
    {
      hide Table.Ok, Iter.Ok, Iter.Sources, Flat, Start, IndexFinds;
      table.OkOrdered();
      SeekFinds(table.rank, Chunks(), target, block, dataIter.at);
    }

    lemma NoneFound(target: Key)
      requires table.Ok() && IndexFinds(table.rank, Chunks(), target, indexIter.at)
               && indexIter.at == |table.t.index.layout.entries|
      ensures FirstAt(table.rank, Flat(Chunks()), target, |Flat(Chunks())|)
    {
      IndexSize();
      BehindAll(table.rank, Chunks(), target);
    }

    method SeekToFirst()
      requires Ok()
      modifies this, indexIter, dataIter
      ensures Ok() && Position() == 0 && (Valid() <==> 0 < |Flat(Chunks())|)
              && (dataIter != null ==> dataIter == old(dataIter) || fresh(dataIter))
    {
      hide Table.Ok, Iter.Ok, Iter.Sources, Flat, Start;
      indexIter.SeekToFirst();
      InitDataBlock();
      if dataIter != null {
        dataIter.SeekToFirst();
      }
      Ends(Chunks());
      IndexSize();
      SkipEmptyDataBlocksForward(0);
    }

    method SeekToLast()
      requires Ok()
      modifies this, indexIter, dataIter
      ensures Ok() && Position() == (if Flat(Chunks()) == [] then 0 else |Flat(Chunks())| - 1)
      ensures (Valid() <==> Flat(Chunks()) != []) && (dataIter != null ==> dataIter == old(dataIter) || fresh(dataIter))
    {
      hide Table.Ok, Iter.Ok, Iter.Sources, Flat, Start;
      indexIter.SeekToLast();
      InitDataBlock();
      Ends(Chunks());
      IndexSize();
      if dataIter != null {
        dataIter.SeekToLast();
        BlockInFlat(Chunks(), block);
      }
      SkipEmptyDataBlocksBackward(|Flat(Chunks())| - 1);
    }

    method Next()
      requires Ok() && Valid()
      modifies this, indexIter, dataIter
      ensures Ok() && Position() == old(Position()) + 1 && (Valid() <==> Position() < |Flat(Chunks())|)
      ensures dataIter != null ==> dataIter == old(dataIter) || fresh(dataIter)
    {
      hide Table.Ok, Iter.Ok, Iter.Sources, Flat, Start;
      ghost var p := Position();
      dataIter.Next();
      SkipEmptyDataBlocksForward(p + 1);
    }

    /** Before the first entry there is none. */
    method Prev()
      requires Ok() && Valid()
      modifies this, indexIter, dataIter
      ensures Ok() && Position() == if old(Position()) == 0 then |Flat(Chunks())| else old(Position()) - 1
      ensures (Valid() <==> old(Position()) > 0) && (dataIter != null ==> dataIter == old(dataIter) || fresh(dataIter))
    {
      hide Table.Ok, Iter.Ok, Iter.Sources, Flat, Start;
      ghost var p: int := Position();
      dataIter.Prev();
      SkipEmptyDataBlocksBackward(p - 1);
    }
  }

  /** A seek in the index and then in its block finds the first entry of the table at or after the target. */
  lemma SeekFinds(rank: Order, chunks: seq<Chunk>, k: Key, j: nat, x: nat)
    requires Ordered(rank, chunks) && IndexFinds(rank, chunks, k, j) && j < |chunks|
             && FirstAt(rank, chunks[j].layout.entries, k, x)
    ensures FirstAt(rank, Flat(chunks), k, Start(chunks, j) + x)
  {
    hide Flat, Start;
    var flat, from, n := Flat(chunks), Start(chunks, j), |chunks[j].layout.entries|;
    BlockInFlat(chunks, j);
    if x < n {
      FirstOfBlock(rank, chunks, k, j, x);
    } else {
      forall p {:trigger flat[p]} | 0 <= p < from + x ensures rank(flat[p].key) < rank(k) {
        if p < from {
          BeforeBlock(rank, chunks, k, j, p);
        } else {
          EntryInFlat(chunks, j, p - from);
        }
      }
      if from + x < |flat| {
        BehindKey(rank, chunks, j, from + x);
      }
    }
  }

  lemma BehindAll(rank: Order, chunks: seq<Chunk>, k: Key)
    requires Ordered(rank, chunks) && IndexFinds(rank, chunks, k, |chunks|)
    ensures FirstAt(rank, Flat(chunks), k, |Flat(chunks)|)
  {
    var flat := Flat(chunks);
    Ends(chunks);
    forall p {:trigger flat[p]} | 0 <= p < |flat| ensures rank(flat[p].key) < rank(k) {
      BeforeBlock(rank, chunks, k, |chunks|, p);
    }
  }

  /** Table::NewIterator. */
  method NewIterator(table: Table) returns (iter: TwoLevel)
    requires table.Ok()
    ensures fresh(iter) && fresh(iter.indexIter) && iter.dataIter == null && iter.Ok() && !iter.Valid()
            && iter.table == table
  {
    var indexIter := table.IndexIterator();
    iter := new TwoLevel(table, indexIter);
  }

  /** Reading a table from the first entry to the last. */
  method ReadTable(table: Table) returns (read: seq<KV>)
    requires table.Ok()
    ensures read == Flat(table.t.chunks)
  {
    hide Table.Ok, Iter.Ok, Iter.Sources, Flat, Start;
    var iter := NewIterator(table);
    read := [];
    iter.SeekToFirst();
    while iter.Valid()
      invariant fresh(iter) && fresh(iter.indexIter) && (iter.dataIter != null ==> fresh(iter.dataIter))
                && iter.table == table
      invariant iter.Ok() && iter.Position() <= |Flat(table.t.chunks)|
                && read == Flat(table.t.chunks)[..iter.Position()]
      invariant iter.Valid() <==> iter.Position() < |Flat(table.t.chunks)|
      decreases |Flat(table.t.chunks)| - iter.Position()
    {
      var e := iter.Entry();
      TakeOneMore(Flat(table.t.chunks), iter.Position());
      read := read + [e];
      iter.Next();
    }
  }

  lemma TakeOneMore(s: seq<KV>, p: nat)
    requires p < |s|
    ensures s[..p] + [s[p]] == s[..p + 1]
  {
  }
}
