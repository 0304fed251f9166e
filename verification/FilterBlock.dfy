/**
 The filter block of a table (table/filter_block.cc): one filter for each 2048 bytes of file
 offsets, over the keys of the data blocks that start there.
 */
module FilterBlock {
  import opened Words
  import opened Coding
  import opened Sequences

  type Key = seq<byte>

  const FILTER_BASE_LG: byte := 11
  const FILTER_BASE: nat := 2048

  /** FilterPolicy: how a filter is made of keys, and whether it lets a key pass. */
  datatype Policy = Policy(create: seq<Key> -> seq<byte>, mayMatch: (Key, seq<byte>) -> bool)

  /** What a policy owes: a filter lets all its keys pass. */
  ghost predicate Honest(p: Policy) {
    forall keys: seq<Key>, key: Key {:trigger p.mayMatch(key, p.create(keys))} :: key in keys ==>
        p.mayMatch(key, p.create(keys))
  }

  /** No filter for no keys. */
  function SlotFilter(p: Policy, keys: seq<Key>): seq<byte> {
    if keys == [] then [] else p.create(keys)
  }

  function SlotFilters(p: Policy, slots: seq<seq<Key>>): (filters: seq<seq<byte>>)
    ensures |filters| == |slots| && forall i {:trigger filters[i]} :: 0 <= i < |slots| ==>
            filters[i] == SlotFilter(p, slots[i])
  {
    seq(|slots|, i requires 0 <= i < |slots| => SlotFilter(p, slots[i]))
  }

  function Filters(p: Policy, slots: seq<seq<Key>>): seq<byte> {
    Concat(SlotFilters(p, slots))
  }

  function Low32(n: nat): (low: uint32)
    ensures n < 0x1_0000_0000 ==> low == n
  {
    n % 0x1_0000_0000
  }

  /** Where the filter of slot `i` starts; offsets are stored in 32 bits. */
  function FilterStart(p: Policy, slots: seq<seq<Key>>, i: nat): uint32
    requires i <= |slots|
  {
    Low32(|Filters(p, slots[..i])|)
  }

  function FilterStarts(p: Policy, slots: seq<seq<Key>>): (offsets: seq<uint32>)
    ensures |offsets| == |slots| && forall i {:trigger offsets[i]} :: 0 <= i < |slots| ==>
            offsets[i] == FilterStart(p, slots, i)
  {
    seq(|slots|, i requires 0 <= i < |slots| => FilterStart(p, slots, i))
  }

  /** The block: filters, where each starts, where that table starts, and the slot size. */
  function FilterImage(p: Policy, slots: seq<seq<Key>>): seq<byte> {
    Filters(p, slots) + EncodeOffsets(FilterStarts(p, slots)) + EncodeFixed32(FilterStart(p, slots, |slots|)) +
      [FILTER_BASE_LG]
  }

  lemma FiltersOfMore(p: Policy, slots: seq<seq<Key>>, keys: seq<Key>)
    ensures Filters(p, slots + [keys]) == Filters(p, slots) + SlotFilter(p, keys)
    ensures FilterStarts(p, slots + [keys]) == FilterStarts(p, slots) + [FilterStart(p, slots, |slots|)]
  {
    var filters, more := SlotFilters(p, slots), SlotFilters(p, slots + [keys]);
    assert more == filters + [SlotFilter(p, keys)] && more[..|filters|] == filters;
    assert (slots + [keys])[..|slots|] == slots == slots[..|slots|];
    forall i | 0 <= i < |slots| ensures FilterStart(p, slots + [keys], i) == FilterStart(p, slots, i) {
      assert (slots + [keys])[..i] == slots[..i];
    }
  }

  // ---- What is in the slots

  /** Slots that are closed, and the keys for the next one. */
  datatype Slots = Slots(closed: seq<seq<Key>>, pending: seq<Key>)

  function EmptySlots(n: nat): (s: seq<seq<Key>>)
    ensures |s| == n && forall i :: 0 <= i < n ==> s[i] == []
  {
    seq(n, i => [])
  }

  /** A block that starts in a later slot closes the slots before. */
  function Started(s: Slots, slot: nat): Slots
    requires slot >= |s.closed|
  {
    if slot == |s.closed| then s
    else Slots(s.closed + [s.pending] + EmptySlots(slot - |s.closed| - 1), [])
  }

  function FinalSlots(s: Slots): seq<seq<Key>> {
    if s.pending == [] then s.closed else s.closed + [s.pending]
  }

  /** A data block: where it starts and the keys added under it. */
  datatype DataBlock = DataBlock(offset: nat, keys: seq<Key>)

  ghost predicate StartsBefore(blocks: seq<DataBlock>, i: nat, j: nat)
    requires i < |blocks| && j < |blocks|
  {
    blocks[i].offset <= blocks[j].offset
  }

  ghost predicate Ascending(blocks: seq<DataBlock>) {
    forall i, j {:trigger StartsBefore(blocks, i, j)} :: 0 <= i < j < |blocks| ==> StartsBefore(blocks, i, j)
  }

  lemma FrontAscends(blocks: seq<DataBlock>, n: nat)
    requires Ascending(blocks) && n <= |blocks|
    ensures Ascending(blocks[..n])
  {
    forall i, j {:trigger StartsBefore(blocks[..n], i, j)} | 0 <= i < j < n ensures StartsBefore(blocks[..n], i, j) {
      assert StartsBefore(blocks, i, j);
    }
  }

  /** The slots after some blocks, each started and then given its keys. */
  ghost function SlotsAfter(blocks: seq<DataBlock>): (s: Slots)
    requires Ascending(blocks)
    ensures if blocks == [] then s == Slots([], []) else |s.closed| == blocks[|blocks| - 1].offset / FILTER_BASE
  {
    if blocks == [] then Slots([], [])
    else
      var last := blocks[|blocks| - 1];
      FrontAscends(blocks, |blocks| - 1);
      assert |blocks| > 1 ==> StartsBefore(blocks, |blocks| - 2, |blocks| - 1);
      var s := Started(SlotsAfter(blocks[..|blocks| - 1]), last.offset / FILTER_BASE);
      Slots(s.closed, s.pending + last.keys)
  }

  ghost predicate InSlot(s: Slots, slot: nat, key: Key) {
    if slot < |s.closed| then key in s.closed[slot] else slot == |s.closed| && key in s.pending
  }

  lemma StartedKeeps(s: Slots, to: nat, slot: nat, key: Key)
    requires to >= |s.closed|
    ensures InSlot(Started(s, to), slot, key) <==> InSlot(s, slot, key)
  {
  }

  /** Some block that starts in the slot has the key. */
  ghost predicate AddedUnder(blocks: seq<DataBlock>, slot: nat, key: Key) {
    exists i :: 0 <= i < |blocks| && blocks[i].offset / FILTER_BASE == slot && key in blocks[i].keys
  }

  /** A slot has exactly the keys of the blocks that start in it. */
  lemma {:induction false} SlotsHoldTheirKeys(blocks: seq<DataBlock>, slot: nat, key: Key)
    requires Ascending(blocks)
    ensures InSlot(SlotsAfter(blocks), slot, key) <==> AddedUnder(blocks, slot, key)
    decreases |blocks|
  {
    if blocks != [] {
      var front, last := blocks[..|blocks| - 1], blocks[|blocks| - 1];
      FrontAscends(blocks, |front|);
      assert |blocks| > 1 ==> StartsBefore(blocks, |blocks| - 2, |blocks| - 1);
      SlotsHoldTheirKeys(front, slot, key);
      StartedKeeps(SlotsAfter(front), last.offset / FILTER_BASE, slot, key);
      if AddedUnder(front, slot, key) {
        var i :| 0 <= i < |front| && front[i].offset / FILTER_BASE == slot && key in front[i].keys;
        assert blocks[i] == front[i];
      }
      if AddedUnder(blocks, slot, key) {
        var i :| 0 <= i < |blocks| && blocks[i].offset / FILTER_BASE == slot && key in blocks[i].keys;
        assert i < |front| ==> front[i] == blocks[i];
      }
    }
  }

  lemma FinalSlotsHold(s: Slots, slot: nat, key: Key)
    ensures InSlot(s, slot, key) <==> slot < |FinalSlots(s)| && key in FinalSlots(s)[slot]
  {
  }

  // ---- Building

  /** Key `i` starts behind those before it. */
  ghost predicate StartsAt(keys: seq<Key>, start: seq<nat>, i: nat)
    requires i < |start| && i <= |keys|
  {
    start[i] == |Concat(keys[..i])|
  }

  class FilterBlockBuilder {
    const policy: Policy
    var keys: seq<byte>             // flattened key contents
    var start: seq<nat>             // where each key starts in them
    var result: seq<byte>           // filters so far
    var filterOffsets: seq<uint32>
    ghost var slots: Slots

    ghost predicate Valid()
      reads this
    {
      && Flattened() && result == Filters(policy, slots.closed) && filterOffsets == FilterStarts(policy, slots.closed)
    }

    ghost predicate Flattened()
      reads this
    {
      && keys == Concat(slots.pending) && |start| == |slots.pending|
      && forall i {:trigger StartsAt(slots.pending, start, i)} :: 0 <= i < |start| ==> StartsAt(slots.pending, start, i)
    }

    constructor (policy: Policy)
      ensures Valid() && slots == Slots([], []) && this.policy == policy
    {
      this.policy := policy;
      keys, start, result, filterOffsets, slots := [], [], [], [], Slots([], []);
    }

    /** Data blocks are started in the order of their offsets. */
    method StartBlock(blockOffset: nat)
      requires Valid() && blockOffset / FILTER_BASE >= |slots.closed|
      modifies this
      ensures Valid() && slots == Started(old(slots), blockOffset / FILTER_BASE)
    {
      var filterIndex := blockOffset / FILTER_BASE;
      while filterIndex > |filterOffsets|
        invariant Valid() && |slots.closed| <= filterIndex
        invariant Started(slots, filterIndex) == Started(old(slots), filterIndex)
        decreases filterIndex - |filterOffsets|
      {
        OneSlotAtATime(slots, filterIndex);
        GenerateFilter();
      }
    }

    method AddKey(key: Key)
      requires Valid()
      modifies this`keys, this`start, this`slots
      ensures Valid() && slots == Slots(old(slots).closed, old(slots).pending + [key])
    {
      ghost var more := slots.pending + [key];
      assert more[..|more| - 1] == slots.pending;
      forall i {:trigger StartsAt(more, start + [|keys|], i)} | 0 <= i < |more|
        ensures StartsAt(more, start + [|keys|], i)
      {
        assert more[..i] == slots.pending[..i];
        assert i < |start| ==> StartsAt(slots.pending, start, i);
      }
      start := start + [|keys|];
      keys := keys + key;
      slots := Slots(slots.closed, more);
    }

    method Finish() returns (contents: seq<byte>)
      requires Valid()
      modifies this
      ensures contents == FilterImage(policy, FinalSlots(old(slots)))
    {
      if start != [] {
        GenerateFilter();
      }
      var arrayOffset := Low32(|result|);
      assert slots.closed[..|slots.closed|] == slots.closed;
      result := PutOffsets(result, filterOffsets);
      result := result + EncodeFixed32(arrayOffset);
      result := result + [FILTER_BASE_LG];
      contents := result;
    }

    /** Closes a slot with the filter of its keys, if there are any. */
    method GenerateFilter()
      requires Valid()
      modifies this
      ensures Valid() && slots == Slots(old(slots).closed + [old(slots).pending], [])
    {
      var numKeys := |start|;
      FiltersOfMore(policy, slots.closed, slots.pending);
      assert slots.closed[..|slots.closed|] == slots.closed;
      filterOffsets := filterOffsets + [Low32(|result|)];
      if numKeys == 0 {
        slots := Slots(slots.closed + [slots.pending], []);
        return;
      }
      var tmpKeys := ListKeys();
      result := result + policy.create(tmpKeys);
      keys, start := [], [];
      slots := Slots(slots.closed + [slots.pending], []);
    }

    /** Makes a list of keys from the flattened key structure. */
    method ListKeys() returns (tmpKeys: seq<Key>)
      requires Flattened()
      modifies this`start
      ensures tmpKeys == slots.pending
    {
      var numKeys := |start|;
      assert slots.pending[..numKeys] == slots.pending;
      ghost var starts := start;
      start := start + [|keys|];
      forall j {:trigger StartsAt(slots.pending, start, j)} | 0 <= j <= numKeys
        ensures StartsAt(slots.pending, start, j)
      {
        assert j < numKeys ==> StartsAt(slots.pending, starts, j);
      }
      tmpKeys := [];
      for i := 0 to numKeys
        invariant tmpKeys == slots.pending[..i] && |start| == numKeys + 1
        invariant forall j {:trigger StartsAt(slots.pending, start, j)} :: 0 <= j <= numKeys ==>
                  StartsAt(slots.pending, start, j)
      {
        ConcatSlice(slots.pending, i);
        assert StartsAt(slots.pending, start, i) && StartsAt(slots.pending, start, i + 1);
        var base, limit := start[i], start[i + 1];
        tmpKeys := tmpKeys + [keys[base..limit]];
      }
    }
  }

  lemma OneSlotAtATime(s: Slots, slot: nat)
    requires slot > |s.closed|
    ensures Started(Slots(s.closed + [s.pending], []), slot) == Started(s, slot)
  {
    var n := slot - |s.closed| - 1;
    if n > 0 {
      assert [[]] + EmptySlots(n - 1) == EmptySlots(n);
      assert s.closed + [s.pending] + EmptySlots(n) == s.closed + [s.pending] + [[]] + EmptySlots(n - 1);
    } else {
      assert s.closed + [s.pending] + EmptySlots(0) == s.closed + [s.pending];
    }
  }

  // ---- Reading

  /** Whether the filter between two words lets `key` pass; words out of place let all pass. */
  function PassesAt(p: Policy, contents: seq<byte>, start: nat, limit: nat, end: nat, key: Key): bool
    requires end <= |contents|
  {
    if start <= limit <= end then p.mayMatch(key, contents[start..limit]) else start != limit
  }

  /** Whether the filter for a block at `blockOffset` lets `key` pass; a malformed filter block lets all pass. */
  function MayMatch(p: Policy, contents: seq<byte>, blockOffset: nat, key: Key): bool {
    var n := |contents|;
    if n < 5 then true else
      var baseLg, lastWord := contents[n - 1], DecodeFixed32(contents[n - 5..]);
      if lastWord > n - 5 then true else
        var num, index := (n - 5 - lastWord) / 4, blockOffset / Pow2(baseLg);
        index >= num
        || PassesAt(p, contents, DecodeFixed32(contents[lastWord + 4 * index..]),
           DecodeFixed32(contents[lastWord + 4 * index + 4..]), lastWord, key)
  }

  /** Contents that are too short, or that say the offsets begin behind their end, let all keys pass. */
  lemma BrokenFilterPasses(p: Policy, contents: seq<byte>, blockOffset: nat, key: Key)
    requires |contents| >= 5 ==> DecodeFixed32(contents[|contents| - 5..]) > |contents| - 5
    ensures MayMatch(p, contents, blockOffset, key)
  {
  }

  /** How a filter block of `num` filters that end at `end` is read. */
  lemma ReaderFinds(p: Policy, contents: seq<byte>, end: nat, num: nat, blockOffset: nat, key: Key)
    requires |contents| == end + 4 * num + 5 && contents[|contents| - 1] == FILTER_BASE_LG
    requires DecodeFixed32(contents[|contents| - 5..]) == end && Pow2(FILTER_BASE_LG) == FILTER_BASE
    ensures var i := blockOffset / FILTER_BASE;
      MayMatch(p, contents, blockOffset, key)
      == (i >= num || PassesAt(p, contents, DecodeFixed32(contents[end + 4 * i..]),
        DecodeFixed32(contents[end + 4 * i + 4..]), end, key))
  {
  }

  lemma FiltersGrow(p: Policy, slots: seq<seq<Key>>, i: nat)
    requires i < |slots|
    ensures |Filters(p, slots[..i])| <= |Filters(p, slots[..i + 1])| <= |Filters(p, slots)|
    ensures Filters(p, slots)[|Filters(p, slots[..i])|..|Filters(p, slots[..i + 1])|] == SlotFilter(p, slots[i])
  {
    var filters := SlotFilters(p, slots);
    assert filters[..i] == SlotFilters(p, slots[..i]) && filters[..i + 1] == SlotFilters(p, slots[..i + 1]);
    ConcatSlice(filters, i);
  }

  /** A word behind some bytes, of several or the one after them. */
  lemma WordsBehind(f: seq<byte>, starts: seq<uint32>, end: uint32, lg: byte, i: nat)
    requires i <= |starts|
    ensures var image := f + EncodeOffsets(starts) + EncodeFixed32(end) + [lg];
            && |image| == |f| + 4 * |starts| + 5
            && DecodeFixed32(image[|f| + 4 * i..]) == if i < |starts| then starts[i] else end
  {
    var words := starts + [end];
    assert words[..|starts|] == starts;
    Append3(f, EncodeOffsets(starts), EncodeFixed32(end));
    OffsetAt(f, words, [lg], i);
  }

  lemma FilterStartFits(p: Policy, slots: seq<seq<Key>>, i: nat)
    requires i <= |slots| && |Filters(p, slots)| < 0x1_0000_0000
    ensures FilterStart(p, slots, i) == |Filters(p, slots[..i])| <= |Filters(p, slots)|
  {
    FrontIsShorter(p, slots, i);
  }

  lemma FrontIsShorter(p: Policy, slots: seq<seq<Key>>, i: nat)
    requires i <= |slots|
    ensures |Filters(p, slots[..i])| <= |Filters(p, slots)|
  {
    if i < |slots| {
      FiltersGrow(p, slots, i);
    } else {
      assert slots[..i] == slots;
    }
  }

  lemma SliceOfFront(f: seq<byte>, a: seq<byte>, b: seq<byte>, c: seq<byte>, from: nat, to: nat)
    requires from <= to <= |f|
    ensures (f + a + b + c)[from..to] == f[from..to]
  {
  }

  /** The words behind the filters are where they start and, last, where they all end. */
  lemma WordsOfImage(p: Policy, slots: seq<seq<Key>>, i: nat)
    requires i <= |slots| && |Filters(p, slots)| < 0x1_0000_0000
    ensures var image, at := FilterImage(p, slots), |Filters(p, slots)| + 4 * i;
            |image| == |Filters(p, slots)| + 4 * |slots| + 5 && DecodeFixed32(image[at..]) == |Filters(p, slots[..i])|
  {
    WordsBehind(Filters(p, slots), FilterStarts(p, slots), FilterStart(p, slots, |slots|), FILTER_BASE_LG, i);
    FilterStartFits(p, slots, i);
  }

  /** What a reader finds at the end of the block. */
  lemma EndOfImage(p: Policy, slots: seq<seq<Key>>)
    requires |Filters(p, slots)| < 0x1_0000_0000
    ensures var image := FilterImage(p, slots);
            && |image| == |Filters(p, slots)| + 4 * |slots| + 5 && image[|image| - 1] == FILTER_BASE_LG
            && DecodeFixed32(image[|image| - 5..]) == |Filters(p, slots)|
    ensures Pow2(FILTER_BASE_LG) == FILTER_BASE
  {
    WordsOfImage(p, slots, |slots|);
    assert slots[..|slots|] == slots;
    assert Pow2(11) == 2048 by {
      assert Pow2(5) == 32;
    }
  }

  /** The bytes of one filter are where the words say. */
  lemma FilterInImage(p: Policy, slots: seq<seq<Key>>, i: nat)
    requires i < |slots|
    ensures var from, to := |Filters(p, slots[..i])|, |Filters(p, slots[..i + 1])|;
            from <= to <= |Filters(p, slots)| <= |FilterImage(p, slots)|
              && FilterImage(p, slots)[from..to] == SlotFilter(p, slots[i])
  {
    FiltersGrow(p, slots, i);
    var from, to := |Filters(p, slots[..i])|, |Filters(p, slots[..i + 1])|;
    SliceOfFront(Filters(p, slots), EncodeOffsets(FilterStarts(p, slots)),
      EncodeFixed32(FilterStart(p, slots, |slots|)), [FILTER_BASE_LG], from, to);
  }

  /** A reader's answer: the filter of the slot decides, and all keys pass if there is none. */
  lemma ImageAnswers(p: Policy, slots: seq<seq<Key>>, blockOffset: nat, key: Key)
    requires |Filters(p, slots)| < 0x1_0000_0000
    ensures var i := blockOffset / FILTER_BASE;
            MayMatch(p, FilterImage(p, slots), blockOffset, key)
            == (i >= |slots| || p.mayMatch(key, SlotFilter(p, slots[i])))
  {
    var i, image := blockOffset / FILTER_BASE, FilterImage(p, slots);
    EndOfImage(p, slots);
    ReaderFinds(p, image, |Filters(p, slots)|, |slots|, blockOffset, key);
    if i < |slots| {
      SlotAnswers(p, slots, i, key);
    }
  }

  lemma SlotAnswers(p: Policy, slots: seq<seq<Key>>, i: nat, key: Key)
    requires i < |slots| && |Filters(p, slots)| < 0x1_0000_0000
    ensures |FilterImage(p, slots)| == |Filters(p, slots)| + 4 * |slots| + 5
    ensures var image, end := FilterImage(p, slots), |Filters(p, slots)|;
      PassesAt(p, image, DecodeFixed32(image[end + 4 * i..]), DecodeFixed32(image[end + 4 * i + 4..]), end, key)
      == p.mayMatch(key, SlotFilter(p, slots[i]))
  {
    hide FilterImage, Filters, SlotFilter, DecodeFixed32;
    WordsOfImage(p, slots, i);
    WordsOfImage(p, slots, i + 1);
    FilterInImage(p, slots, i);
  }

  /** A block starts in an open slot, and then has its keys added. */
  lemma NextBlock(blocks: seq<DataBlock>, i: nat)
    requires Ascending(blocks) && i < |blocks|
    ensures Ascending(blocks[..i]) && Ascending(blocks[..i + 1])
    ensures var s, slot := SlotsAfter(blocks[..i]), blocks[i].offset / FILTER_BASE;
      && |s.closed| <= slot
      && SlotsAfter(blocks[..i + 1]) == Slots(Started(s, slot).closed, Started(s, slot).pending + blocks[i].keys)
  {
    FrontAscends(blocks, i);
    FrontAscends(blocks, i + 1);
    assert blocks[..i + 1][..i] == blocks[..i];
    assert i > 0 ==> StartsBefore(blocks, i - 1, i);
  }

  method AddKeys(builder: FilterBlockBuilder, keys: seq<Key>)
    requires builder.Valid()
    modifies builder
    ensures builder.Valid() && builder.slots == Slots(old(builder.slots).closed, old(builder.slots).pending + keys)
  {
    for j := 0 to |keys|
      invariant builder.Valid()
      invariant builder.slots == Slots(old(builder.slots).closed, old(builder.slots).pending + keys[..j])
    {
      assert keys[..j + 1] == keys[..j] + [keys[j]];
      builder.AddKey(keys[j]);
    }
    assert keys[..|keys|] == keys;
  }

  /** Building the filter block of a table. */
  method BuildFilterBlock(policy: Policy, blocks: seq<DataBlock>) returns (contents: seq<byte>)
    requires Ascending(blocks)
    ensures contents == FilterImage(policy, FinalSlots(SlotsAfter(blocks)))
  {
    var builder := new FilterBlockBuilder(policy);
    for i := 0 to |blocks|
      invariant fresh(builder) && builder.Valid() && builder.policy == policy && Ascending(blocks[..i])
      invariant builder.slots == SlotsAfter(blocks[..i])
    {
      NextBlock(blocks, i);
      builder.StartBlock(blocks[i].offset);
      AddKeys(builder, blocks[i].keys);
    }
    assert blocks[..|blocks|] == blocks;
    contents := builder.Finish();
  }

  /** The filter that decides for a block was made from its keys, among others. */
  lemma FilterOfBlock(p: Policy, blocks: seq<DataBlock>, b: DataBlock, key: Key, sought: Key) returns (keys: seq<Key>)
    requires Ascending(blocks) && b in blocks && key in b.keys
    requires |Filters(p, FinalSlots(SlotsAfter(blocks)))| < 0x1_0000_0000
    ensures key in keys && MayMatch(p, FilterImage(p, FinalSlots(SlotsAfter(blocks))), b.offset, sought) ==
            p.mayMatch(sought, p.create(keys))
  {
    var slots, i := FinalSlots(SlotsAfter(blocks)), b.offset / FILTER_BASE;
    ImageAnswers(p, slots, b.offset, sought);
    SlotsHoldTheirKeys(blocks, i, key);
    FinalSlotsHold(SlotsAfter(blocks), i, key);
    keys := slots[i];
  }

  /** No key added under a block is denied for that block. */
  lemma NoKeyIsDenied(p: Policy, blocks: seq<DataBlock>, b: DataBlock, key: Key)
    requires Honest(p) && Ascending(blocks) && b in blocks && key in b.keys
    requires |Filters(p, FinalSlots(SlotsAfter(blocks)))| < 0x1_0000_0000
    ensures MayMatch(p, FilterImage(p, FinalSlots(SlotsAfter(blocks))), b.offset, key)
  {
    var keys := FilterOfBlock(p, blocks, b, key, key);
  }

  /** A slot in which no block has a key has the empty filter, unless it is behind the last filter. */
  lemma EmptySlotAnswers(p: Policy, blocks: seq<DataBlock>, blockOffset: nat, key: Key)
    requires Ascending(blocks) && |Filters(p, FinalSlots(SlotsAfter(blocks)))| < 0x1_0000_0000
    requires blockOffset / FILTER_BASE < |FinalSlots(SlotsAfter(blocks))|
    requires forall k :: !AddedUnder(blocks, blockOffset / FILTER_BASE, k)
    ensures MayMatch(p, FilterImage(p, FinalSlots(SlotsAfter(blocks))), blockOffset, key) == p.mayMatch(key, [])
  {
    var slots, i := FinalSlots(SlotsAfter(blocks)), blockOffset / FILTER_BASE;
    ImageAnswers(p, slots, blockOffset, key);
    if slots[i] != [] {
      FinalSlotsHold(SlotsAfter(blocks), i, slots[i][0]);
      SlotsHoldTheirKeys(blocks, i, slots[i][0]);
    }
  }
}
