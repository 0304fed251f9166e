/** Reading a table (table/table.cc). */
module Tables {
  import opened Options
  import opened Words
  import opened Coding
  import opened BlockFormat
  import opened BlockBuilder
  import opened BlockIter
  import opened TableFormat
  import opened TableLayout
  import opened TablePlan
  import opened FilterPolicies
  import FB = FilterBlock
  import Comparator

  /** Entry `i` is the first at or after `k`; none is if `i` is the number of entries. */
  ghost predicate FirstAt(rank: Order, es: seq<KV>, k: Key, i: nat) {
    && i <= |es| && (forall p {:trigger es[p]} :: 0 <= p < i ==> rank(es[p].key) < rank(k))
    && (i < |es| ==> rank(es[i].key) >= rank(k))
  }

  /** The blocks before `j` have only keys before `k`, and the index key of block `j` is at or after it. */
  ghost predicate IndexFinds(rank: Order, chunks: seq<Chunk>, k: Key, j: nat) {
    && j <= |chunks| && (j > 0 ==> rank(chunks[j - 1].key) < rank(k))
       && (j < |chunks| ==> rank(k) <= rank(chunks[j].key))
  }

  ghost predicate Ordered(rank: Order, chunks: seq<Chunk>) {
    Placed(rank, chunks, EntriesOf(chunks)) && KeysOrdered(rank, Flat(chunks))
  }

  /** What comes before block `j` is before `k`. */
  lemma BeforeBlock(rank: Order, chunks: seq<Chunk>, k: Key, j: nat, p: nat)
    requires Ordered(rank, chunks) && IndexFinds(rank, chunks, k, j) && p < Start(chunks, j)
    ensures p < |Flat(chunks)| && rank(Flat(chunks)[p].key) < rank(k)
  {
    Ends(chunks);
    UpToKey(rank, chunks, j - 1, p);
  }

  /** An entry of the sought user key that comes first at or after `k` is in the block the index finds. */
  lemma BlockDecides(rank: Order, chunks: seq<Chunk>, k: Key, j: nat, i: nat)
    requires Ordered(rank, chunks) && IsInternalOrder(rank) && IsInternal(k) && IndexFinds(rank, chunks, k, j)
    requires FirstAt(rank, Flat(chunks), k, i) && i < |Flat(chunks)| && UserOf(Flat(chunks)[i].key) == UserKey(k)
    ensures j < |chunks| && Start(chunks, j) <= i < Start(chunks, j + 1)
  {
    hide IsInternalOrder, Flat, Start, Placed, KeysOrdered;
    Ends(chunks);
    if i < Start(chunks, j) {
      BeforeBlock(rank, chunks, k, j, i);
    }
    if j < |chunks| && i >= Start(chunks, j + 1) {
      LastBeforeFirst(rank, chunks, k, j, i);
      NextHasAnotherUser(rank, chunks, j, k);
    }
  }

  /**
   If the first entry at or after `k` is behind block `j`, the block ends before `k` and the entry
   is the next one.
   */
  lemma LastBeforeFirst(rank: Order, chunks: seq<Chunk>, k: Key, j: nat, i: nat)
    requires Ordered(rank, chunks) && j < |chunks| && rank(k) <= rank(chunks[j].key)
    requires FirstAt(rank, Flat(chunks), k, i) && Start(chunks, j + 1) <= i < |Flat(chunks)|
    ensures chunks[j].layout.entries != [] && rank(LastKey(chunks[j].layout.entries)) < rank(k)
            && i == Start(chunks, j + 1)
  {
    hide Flat, Start, KeysOrdered;
    assert SepAt(rank, EntriesOf(chunks), j, chunks[j].key);
    EntryInFlat(chunks, j, |chunks[j].layout.entries| - 1);
    BlockInFlat(chunks, j);
    if i > Start(chunks, j + 1) {
      BehindKey(rank, chunks, j, Start(chunks, j + 1));
    }
  }

  /** The first entry of the block at or after `k` is the first of all. */
  lemma FirstOfBlock(rank: Order, chunks: seq<Chunk>, k: Key, j: nat, x: nat)
    requires Ordered(rank, chunks) && IndexFinds(rank, chunks, k, j) && j < |chunks|
    requires FirstAt(rank, chunks[j].layout.entries, k, x) && x < |chunks[j].layout.entries|
    ensures Start(chunks, j) + x < |Flat(chunks)| && Flat(chunks)[Start(chunks, j) + x] == chunks[j].layout.entries[x]
    ensures FirstAt(rank, Flat(chunks), k, Start(chunks, j) + x)
  {
    var flat, from := Flat(chunks), Start(chunks, j);
    EntryInFlat(chunks, j, x);
    forall p {:trigger flat[p]} | 0 <= p < from + x ensures rank(flat[p].key) < rank(k) {
      if p < from {
        BeforeBlock(rank, chunks, k, j, p);
      } else {
        EntryInFlat(chunks, j, p - from);
      }
    }
  }

  lemma FirstIsOne(rank: Order, es: seq<KV>, k: Key, i: nat, j: nat)
    requires FirstAt(rank, es, k, i) && FirstAt(rank, es, k, j)
    ensures i == j
  {
  }

  /** Some place is the first at or after the key: with `FirstIsOne`, exactly one is. */
  lemma {:induction false} OneIsFirst(rank: Order, es: seq<KV>, k: Key) returns (i: nat)
    ensures FirstAt(rank, es, k, i)
  {
    if es == [] || rank(es[0].key) >= rank(k) {
      i := 0;
    } else {
      i := OneIsFirst(rank, es[1..], k);
      i := i + 1;
      forall p {:trigger es[p]} | 0 <= p < i ensures rank(es[p].key) < rank(k) {
        assert p > 0 ==> es[p] == es[1..][p - 1];
      }
    }
  }

  /**
   What a lookup answers: only the first entry at or after the key, and that one if it has the
   sought user key.
   */
  ghost predicate Answers(rank: Order, es: seq<KV>, k: Key, r: Option<KV>) {
    forall i: nat {:trigger FirstAt(rank, es, k, i)} :: FirstAt(rank, es, k, i) ==>
      && (r.Some? ==> i < |es| && r.value == es[i])
      && (i < |es| && UserOf(es[i].key) == UserOf(k) ==> r == Some(es[i]))
  }

  /** The filter lets a key pass that has the user key of an entry of the block. */
  lemma FilterPasses(p: FB.Policy, chunks: seq<Chunk>, end: nat, j: nat, x: nat, k: Key)
    requires HonestToUsers(p) && FB.Ascending(FilterInput(chunks, end, [])) && j < |chunks|
             && x < |chunks[j].layout.entries|
    requires |FB.Filters(p, FB.FinalSlots(FB.SlotsAfter(FilterInput(chunks, end, []))))| < 0x1_0000_0000
    requires UserOf(chunks[j].layout.entries[x].key) == UserOf(k)
    ensures FB.MayMatch(p, FilterContents(p, chunks, end), chunks[j].handle.offset, k)
  {
    var es := chunks[j].layout.entries;
    var input, b := FilterInput(chunks, end, []), FB.DataBlock(chunks[j].handle.offset, KeysOf(es));
    assert input[j] == BlocksOf(chunks)[j] == b;
    assert KeysOf(es)[x] == es[x].key;
    var keys := FB.FilterOfBlock(p, input, b, es[x].key, k);
  }

  /** Behind the last index key there is no answer. */
  lemma NoBlock(rank: Order, chunks: seq<Chunk>, k: Key)
    requires Ordered(rank, chunks) && IndexFinds(rank, chunks, k, |chunks|)
    ensures Answers(rank, Flat(chunks), k, None)
  {
    Ends(chunks);
    forall i: nat {:trigger FirstAt(rank, Flat(chunks), k, i)} | FirstAt(rank, Flat(chunks), k, i)
        && i < |Flat(chunks)| ensures false
    {
      BeforeBlock(rank, chunks, k, |chunks|, i);
    }
  }

  /** What is found in the block that the index names answers for the whole table. */
  lemma BlockAnswers(rank: Order, chunks: seq<Chunk>, k: Key, j: nat, x: nat, r: Option<KV>)
    requires Ordered(rank, chunks) && IsInternalOrder(rank) && IsInternal(k) && IndexFinds(rank, chunks, k, j)
             && j < |chunks|
    requires FirstAt(rank, chunks[j].layout.entries, k, x)
    requires r == if x < |chunks[j].layout.entries| then Some(chunks[j].layout.entries[x]) else None
    ensures Answers(rank, Flat(chunks), k, r)
  {
    var flat, es := Flat(chunks), chunks[j].layout.entries;
    forall i: nat {:trigger FirstAt(rank, flat, k, i)} | FirstAt(rank, flat, k, i)
      ensures (r.Some? ==> i < |flat| && r.value == flat[i])
              && (i < |flat| && UserOf(flat[i].key) == UserOf(k) ==> r == Some(flat[i]))
    {
      if x < |es| {
        FirstOfBlock(rank, chunks, k, j, x);
        FirstIsOne(rank, flat, k, i, Start(chunks, j) + x);
      } else if i < |flat| && UserOf(flat[i].key) == UserOf(k) {
        NotInBlock(rank, chunks, k, j, i);
      }
    }
  }

  lemma NotInBlock(rank: Order, chunks: seq<Chunk>, k: Key, j: nat, i: nat)
    requires Ordered(rank, chunks) && IsInternalOrder(rank) && IsInternal(k) && IndexFinds(rank, chunks, k, j)
             && j < |chunks|
    requires FirstAt(rank, Flat(chunks), k, i) && i < |Flat(chunks)|
             && FirstAt(rank, chunks[j].layout.entries, k, |chunks[j].layout.entries|)
    ensures UserOf(Flat(chunks)[i].key) != UserOf(k)
  {
    if UserOf(Flat(chunks)[i].key) == UserOf(k) {
      BlockDecides(rank, chunks, k, j, i);
      BlockInFlat(chunks, j);
      EntryInFlat(chunks, j, i - Start(chunks, j));
    }
  }

  /** A key that the filter of the block denies has no entry of its user key first at or after it. */
  lemma DeniedAnswers(rank: Order, p: FB.Policy, chunks: seq<Chunk>, end: nat, k: Key, j: nat)
    requires Ordered(rank, chunks) && IsInternalOrder(rank) && IsInternal(k) && IndexFinds(rank, chunks, k, j)
             && j < |chunks|
    requires HonestToUsers(p) && FB.Ascending(FilterInput(chunks, end, []))
    requires |FB.Filters(p, FB.FinalSlots(FB.SlotsAfter(FilterInput(chunks, end, []))))| < 0x1_0000_0000
    requires !FB.MayMatch(p, FilterContents(p, chunks, end), chunks[j].handle.offset, k)
    ensures Answers(rank, Flat(chunks), k, None)
  {
    hide Ordered, IsInternalOrder, IndexFinds, FilterContents, HonestToUsers, Flat, Start, FilterInput, FB.Filters;
    var flat := Flat(chunks);
    forall i: nat {:trigger FirstAt(rank, flat, k, i)} | FirstAt(rank, flat, k, i) && i < |flat|
      ensures UserOf(flat[i].key) != UserOf(k)
    {
      if UserOf(flat[i].key) == UserOf(k) {
        BlockDecides(rank, chunks, k, j, i);
        BlockInFlat(chunks, j);
        EntryInFlat(chunks, j, i - Start(chunks, j));
        FilterPasses(p, chunks, end, j, i - Start(chunks, j), k);
      }
    }
  }

  // ---- Opening

  /** The footer and the index block of a table file. */
  function ReadIndex(file: seq<byte>, verify: bool): Option<(Footer, seq<byte>)> {
    if |file| < FOOTER_SIZE then None else
      var footer := ParseFooter(file[|file| - FOOTER_SIZE..]);
      if footer.None? then None else
        var contents := ReadBlock(file, verify, footer.value.index);
        if contents.None? then None else Some((footer.value, contents.value))
  }

  lemma IndexIsRead(rank: Order, policy: Option<FB.Policy>, filterKey: Key, file: seq<byte>, verify: bool,
      t: TableParts)
    requires TableFile(rank, policy, filterKey, file, t)
    ensures ReadIndex(file, verify) == Some((Footer(t.meta.handle, t.index.handle), t.index.block))
  {
    FooterRoundTrip(Footer(t.meta.handle, t.index.handle));
    StoredIsRead(file, verify, t.index.handle, t.index.block);
  }

  /** A metaindex of one entry has the sought key at its only place. */
  lemma OneEntry(rank: Order, key: Key, value: seq<byte>)
    ensures Sorted(rank, [KV(key, value)])
  {
  }

  /** The contents of the filter block, if the metaindex names one. */
  method ReadMeta(file: seq<byte>, verify: bool, metaindex: BlockHandle, policy: Option<FB.Policy>, filterKey: Key,
      ghost rank: Order, ghost t: TableParts)
    returns (filter: Option<seq<byte>>)
    requires TableFile(rank, policy, filterKey, file, t) && metaindex == t.meta.handle
    ensures filter == if policy.None? then None else Some(FilterContents(policy.value, t.chunks, t.end))
  {
    if policy.None? {
      return None;
    }
    StoredIsRead(file, verify, t.meta.handle, t.meta.block);
    var contents := ReadBlock(file, verify, metaindex);
    if contents.None? {
      assert false;  // no filter when the metaindex cannot be read
      return None;
    }
    OneEntry(BytewiseRank, filterKey, EncodeHandle(t.filter));
    var iter := NewIterator(contents.value, BytewiseRank, t.meta.limit, t.meta.layout);
    iter.Seek(filterKey);
    assert iter.layout.entries[0] == KV(filterKey, EncodeHandle(t.filter));
    assert iter.at == 0;
    if iter.Valid() && iter.key == filterKey {
      filter := ReadFilter(file, verify, iter.Entry().value, policy.value, t);
    } else {
      assert false;  // no filter of that name
      return None;
    }
  }

  method ReadFilter(file: seq<byte>, verify: bool, handleValue: seq<byte>, ghost policy: FB.Policy,
      ghost t: TableParts) returns (filter: Option<seq<byte>>)
    requires handleValue == EncodeHandle(t.filter) && FilterStored(file, Some(policy), t.chunks, t.end, t.filter)
    ensures filter == Some(FilterContents(policy, t.chunks, t.end))
  {
    HandleRoundTrip(t.filter, []);
    assert handleValue + [] == handleValue;
    StoredIsRead(file, verify, t.filter, FilterContents(policy, t.chunks, t.end));
    var handle := ParseHandle(handleValue);
    if handle.None? {
      assert false;  // a bad handle
      return None;
    }
    filter := ReadBlock(file, verify, handle.value.value);
  }

  class Table {
    const rank: Order
    const policy: Option<FB.Policy>
    const file: seq<byte>
    const verify: bool
    const filter: Option<seq<byte>>
    const indexBlock: seq<byte>
    ghost const filterKey: Key
    ghost const t: TableParts

    ghost predicate Ok() {
      && TableFile(rank, policy, filterKey, file, t) && indexBlock == t.index.block
         && Sorted(rank, t.index.layout.entries)
      && filter == (if policy.None? then None else Some(FilterContents(policy.value, t.chunks, t.end)))
    }

    constructor (rank: Order, policy: Option<FB.Policy>, file: seq<byte>, verify: bool, filter: Option<seq<byte>>,
        indexBlock: seq<byte>,
                 ghost filterKey: Key, ghost t: TableParts)
      requires TableFile(rank, policy, filterKey, file, t) && indexBlock == t.index.block
      requires filter == (if policy.None? then None else Some(FilterContents(policy.value, t.chunks, t.end)))
      ensures Ok() && this.rank == rank && this.policy == policy && this.file == file && this.t == t
    {
      this.rank, this.policy, this.file, this.verify, this.filter, this.indexBlock := rank, policy, file, verify,
        filter, indexBlock;
      this.filterKey, this.t := filterKey, t;
      IndexSorted(rank, t.chunks);
    }

    /** An iterator over the block that the value of index entry `j` names. */
    method BlockReader(indexValue: seq<byte>, ghost j: nat) returns (iter: Iter)
      requires Ok() && j < |t.chunks| && indexValue == EncodeHandle(t.chunks[j].handle)
      ensures fresh(iter) && iter.Ok() && iter.layout == t.chunks[j].layout && iter.rank == rank
    {
      ghost var c := t.chunks[j];
      HandleRoundTrip(c.handle, []);
      assert indexValue + [] == indexValue;
      assert ChunkOk(file, c);
      StoredIsRead(file, verify, c.handle, c.block);
      BlockSorted(rank, t.chunks, j);
      var handle := ParseHandle(indexValue);
      var contents := ReadBlock(file, verify, handle.value.value);
      iter := NewIterator(contents.value, rank, c.limit, c.layout);
    }

    /** The first entry at or after `k`, if it is in the block the index names and the filter does not rule it out. */
    method InternalGet(k: Key) returns (r: Option<KV>)
      requires Ok() && IsInternalOrder(rank) && IsInternal(k) && (policy.Some? ==> HonestToUsers(policy.value))
      requires FiltersFit()
      ensures Answers(rank, Flat(t.chunks), k, r)
    {
      hide Table.Ok, Answers, Ordered, IndexFinds, IsInternalOrder, HonestToUsers, Flat, TableFile;
      OkOrdered();
      var iiter := IndexIterator();
      iiter.Seek(k);
      ghost var j := iiter.at;
      IndexFound(k, iiter);
      if !iiter.Valid() {
        NoBlock(rank, t.chunks, k);
        return None;
      }
      IndexValueAt(j);
      var handleValue := iiter.Entry().value;
      var denied := Denies(handleValue, k, j);
      if denied {
        return None;
      }
      var blockIter := BlockReader(handleValue, j);
      blockIter.Seek(k);
      if blockIter.Valid() {
        r := Some(blockIter.Entry());
      } else {
        r := None;
      }
      BlockAnswers(rank, t.chunks, k, j, blockIter.at, r);
    }

    lemma OkOrdered()
      requires Ok()
      ensures Ordered(rank, t.chunks) && |t.index.layout.entries| == |t.chunks|
    {
    }

    /** The value of an index entry is the handle of its block. */
    lemma IndexValueAt(j: nat)
      requires Ok() && j < |t.index.layout.entries|
      ensures j < |t.chunks| && t.index.layout.entries[j].value == EncodeHandle(t.chunks[j].handle)
    {
    }

    /** A seek in the index block finds the first index key at or after `k`. */
    lemma IndexFound(k: Key, iiter: Iter)
      requires Ok() && iiter.layout == t.index.layout && iiter.rank == rank && iiter.AllBefore(k, iiter.at)
      requires forall i :: iiter.at <= i < |iiter.layout.entries| ==> rank(iiter.layout.entries[i].key) >= rank(k)
      ensures IndexFinds(rank, t.chunks, k, iiter.at)
    {
      hide BlockLaid, BlockFormat.Sorted, StoredAt, FilterStored, Placed, KeysOrdered, ChunksOk, ChunkOk;
      var es, j := IndexEntries(t.chunks), iiter.at;
      assert iiter.layout.entries == es;
      assert j > 0 ==> es[j - 1].key == t.chunks[j - 1].key;
      assert j < |es| ==> es[j].key == t.chunks[j].key;
    }

    /** Whether the filter rules out the block that the index names. */
    method Denies(handleValue: seq<byte>, k: Key, ghost j: nat) returns (denied: bool)
      requires Ok() && IsInternalOrder(rank) && IsInternal(k) && (policy.Some? ==> HonestToUsers(policy.value))
               && FiltersFit()
      requires j < |t.chunks| && handleValue == EncodeHandle(t.chunks[j].handle) && IndexFinds(rank, t.chunks, k, j)
      ensures denied ==> Answers(rank, Flat(t.chunks), k, None)
    {
      hide Answers, Flat, IndexFinds, HonestToUsers, IsInternalOrder, EncodeHandle, ParseHandle;
      denied := false;
      if filter.Some? {
        HandleRoundTrip(t.chunks[j].handle, []);
        assert handleValue + [] == handleValue;
        var handle := ParseHandle(handleValue);
        if handle.Some? && !FB.MayMatch(policy.value, filter.value, handle.value.value.offset, k) {
          DeniedAnswers(rank, policy.value, t.chunks, t.end, k, j);
          denied := true;
        }
      }
    }

    /** The filters of the table, if it has any, start at offsets of 32 bits. */
    ghost predicate FiltersFit()
      requires Ok()
      reads this
    {
      policy.Some? ==>
        |FB.Filters(policy.value, FB.FinalSlots(FB.SlotsAfter(FilterInput(t.chunks, t.end, []))))| < 0x1_0000_0000
    }

    /** The filters are in the file. */
    lemma SmallFileFits()
      requires Ok() && |file| < 0x1_0000_0000
      ensures FiltersFit()
    {
    }

    method IndexIterator() returns (iter: Iter)
      requires Ok()
      ensures fresh(iter) && iter.Ok() && iter.layout == t.index.layout && iter.rank == rank
    {
      iter := NewIterator(indexBlock, rank, t.index.limit, t.index.layout);
    }
  }

  lemma BlockSorted(rank: Order, chunks: seq<Chunk>, j: nat)
    requires KeysOrdered(rank, Flat(chunks)) && j < |chunks|
    ensures Sorted(rank, chunks[j].layout.entries)
  {
    PartOrdered(rank, EntriesOf(chunks), j);
    assert EntriesOf(chunks)[j] == chunks[j].layout.entries;
  }

  /** Table::Open on a file that a table builder wrote. */
  method Open(rank: Order, policy: Option<FB.Policy>, filterKey: Key, file: seq<byte>, verify: bool,
      ghost t: TableParts) returns (r: Option<Table>)
    requires TableFile(rank, policy, filterKey, file, t)
    ensures r.Some? && fresh(r.value) && r.value.Ok() && r.value.t == t && r.value.rank == rank
            && r.value.policy == policy
  {
    IndexIsRead(rank, policy, filterKey, file, verify, t);
    var index := ReadIndex(file, verify);
    if index.None? {
      assert false;  // too short, a bad footer, or a bad index block
      return None;
    }
    var filter := ReadMeta(file, verify, index.value.0.metaindex, policy, filterKey, rank, t);
    var table := new Table(rank, policy, file, verify, filter, index.value.1, filterKey, t);
    r := Some(table);
  }
}
