/** Building a block (table/block_builder.cc). */
module BlockBuilder {
  import opened Options
  import opened Words
  import opened Coding
  import opened BlockFormat

  /** The offsets of the restart points of a layout. */
  ghost predicate RestartsAre(l: Layout, restarts: seq<uint32>)
    requires |l.offsets| == |l.entries| + 1
  {
    && |restarts| == |l.marks|
    && forall r {:trigger restarts[r]} {:trigger l.marks[r]} :: 0 <= r < |restarts| ==>
       l.marks[r] <= |l.entries| && restarts[r] == l.offsets[l.marks[r]]
  }

  /** The layout with one entry more. */
  function Extended(l: Layout, e: KV, shared: nat, size: nat, isRestart: bool): Layout
    requires |l.offsets| > 0
  {
    Layout(l.entries + [e], l.offsets + [l.offsets[|l.offsets| - 1] + size], l.shared + [shared],
           if isRestart then l.marks + [|l.entries|] else l.marks)
  }

  /** The key may leave out `shared` bytes of the one before. */
  ghost predicate MayShare(l: Layout, key: Key, shared: nat) {
    && shared <= |key|
    && (shared > 0 ==>
          && l.entries != []
          && (var last := l.entries[|l.entries| - 1].key; shared <= |last| && last[..shared] == key[..shared]))
  }

  lemma ExtendedIsLaid(data: seq<byte>, l: Layout, e: KV, shared: nat, isRestart: bool)
    requires EntriesLaid(data, l) && l.offsets[|l.entries|] == |data| && MayShare(l, e.key, shared)
    requires |e.key| + |e.value| < 0x1_0000_0000
    ensures var t := EncodeEntry(shared, e);
            EntriesLaid(data + t, Extended(l, e, shared, |t|, isRestart))
  {
    var t := EncodeEntry(shared, e);
    var all, l' := data + t, Extended(l, e, shared, |t|, isRestart);
    forall i | 0 <= i < |l'.entries| ensures EntryLaid(all, l', i) {
      if i < |l.entries| {
        assert EntryLaid(data, l, i);
        assert all[l.offsets[i]..l.offsets[i + 1]] == data[l.offsets[i]..l.offsets[i + 1]];
      } else {
        assert all[|data|..] == t;
      }
    }
  }

  lemma ExtendedKeepsMarks(l: Layout, e: KV, shared: nat, size: nat, isRestart: bool)
    requires |l.shared| == |l.entries| && |l.offsets| == |l.entries| + 1 && MarksOk(l) && MayShare(l, e.key, shared)
    requires isRestart ==> shared == 0 && l.entries != []
    ensures MarksOk(Extended(l, e, shared, size, isRestart))
  {
    var l' := Extended(l, e, shared, size, isRestart);
    forall r {:trigger l'.marks[r]} | 0 <= r < |l'.marks| && l'.marks[r] < |l'.entries|
      ensures l'.shared[l'.marks[r]] == 0
    {
      if r < |l.marks| {
        assert l'.marks[r] == l.marks[r];
      }
    }
    forall r, q {:trigger MarkBefore(l', r, q)} | 0 <= r < q < |l'.marks| ensures MarkBefore(l', r, q) {
      assert q < |l.marks| ==> MarkBefore(l, r, q);
      assert l.marks[r] < |l.entries|;
    }
  }

  lemma ExtendedKeepsOrder(rank: Order, es: seq<KV>, e: KV)
    requires Sorted(rank, es) && (es != [] ==> rank(es[|es| - 1].key) < rank(e.key))
    ensures Sorted(rank, es + [e])
  {
    forall i, j {:trigger KeyLess(rank, es + [e], i, j)} | 0 <= i < j < |es + [e]|
      ensures KeyLess(rank, es + [e], i, j)
    {
      assert j < |es| ==> KeyLess(rank, es, i, j);
      assert i < |es| - 1 ==> KeyLess(rank, es, i, |es| - 1);
    }
  }

  function LastKey(es: seq<KV>): Key {
    if es == [] then [] else es[|es| - 1].key
  }

  /** What is in the buffer is the layout, and the restart offsets are those of its restart points. */
  ghost predicate Holds(l: Layout, buffer: seq<byte>, restarts: seq<uint32>, rank: Order) {
    && EntriesLaid(buffer, l) && MarksOk(l) && Sorted(rank, l.entries)
    && l.offsets[|l.entries|] == |buffer| && RestartsAre(l, restarts)
  }

  lemma ExtendedHolds(l: Layout, buffer: seq<byte>, restarts: seq<uint32>, rank: Order, e: KV, shared: nat,
      isRestart: bool)
    requires Holds(l, buffer, restarts, rank) && |buffer| < 0x1_0000_0000
    requires MayShare(l, e.key, shared) && |e.key| + |e.value| < 0x1_0000_0000
    requires l.entries != [] ==> rank(LastKey(l.entries)) < rank(e.key)
    requires isRestart ==> shared == 0 && l.entries != []
    ensures var t := EncodeEntry(shared, e);
            Holds(Extended(l, e, shared, |t|, isRestart), buffer + t,
              if isRestart then restarts + [|buffer|] else restarts, rank)
  {
    var t := EncodeEntry(shared, e);
    ExtendedIsLaid(buffer, l, e, shared, isRestart);
    ExtendedKeepsMarks(l, e, shared, |t|, isRestart);
    ExtendedKeepsOrder(rank, l.entries, e);
    ExtendedRestarts(l, restarts, e, shared, |t|, isRestart, |buffer|);
  }

  lemma ExtendedRestarts(l: Layout, restarts: seq<uint32>, e: KV, shared: nat, size: nat, isRestart: bool, end: uint32)
    requires |l.offsets| == |l.entries| + 1 && l.offsets[|l.entries|] == end && RestartsAre(l, restarts)
    ensures RestartsAre(Extended(l, e, shared, size, isRestart), if isRestart then restarts + [end] else restarts)
  {
  }

  /** Restart points are `interval` entries apart, and `counter` entries came since the last. */
  ghost predicate Spaced(marks: seq<nat>, interval: nat, n: nat, counter: nat) {
    && marks != [] && n == marks[|marks| - 1] + counter
    && forall r {:trigger StepAt(marks, interval, r)} :: 0 <= r < |marks| - 1 ==> StepAt(marks, interval, r)
  }

  ghost predicate StepAt(marks: seq<nat>, interval: nat, r: nat)
    requires r + 1 < |marks|
  {
    marks[r + 1] == marks[r] + interval
  }

  lemma StillSpaced(marks: seq<nat>, interval: nat, n: nat, counter: nat)
    requires Spaced(marks, interval, n, counter)
    ensures Spaced(marks, interval, n + 1, counter + 1)
    ensures counter == interval ==> Spaced(marks + [n], interval, n + 1, 1)
  {
    if counter == interval {
      forall r | 0 <= r < |marks + [n]| - 1 ensures StepAt(marks + [n], interval, r) {
        assert r < |marks| - 1 ==> StepAt(marks, interval, r);
      }
    }
  }

  function EmptyLayout(): Layout {
    Layout([], [0], [], [0])
  }

  lemma EmptyHolds(rank: Order)
    ensures Holds(EmptyLayout(), [], [0], rank)
  {
  }

  lemma EntryLength(shared: nat, e: KV)
    requires shared <= |e.key| && |e.key| + |e.value| < 0x1_0000_0000
    ensures |EncodeEntry(shared, e)| <= 15 + |e.key| + |e.value|
  {
    Pow128Values();
    VarintLength(shared, 5);
    VarintLength(|e.key| - shared, 5);
    VarintLength(|e.value|, 5);
  }

  class BlockBuilder {
    const restartInterval: nat
    const rank: Order
    var buffer: seq<byte>
    var restarts: seq<uint32>
    var counter: nat
    var finished: bool
    var lastKey: Key
    ghost var layout: Layout

    ghost predicate Valid()
      reads this
    {
      && restartInterval >= 1 && counter <= restartInterval && !finished
      && Holds(layout, buffer, restarts, rank) && lastKey == LastKey(layout.entries)
      && Spaced(layout.marks, restartInterval, |layout.entries|, counter)
    }

    constructor (restartInterval: nat, rank: Order)
      requires restartInterval >= 1
      ensures Valid() && buffer == [] && restarts == [0] && layout.entries == []
              && this.restartInterval == restartInterval && this.rank == rank
    {
      this.restartInterval, this.rank := restartInterval, rank;
      EmptyHolds(rank);
      buffer, restarts, counter, finished, lastKey := [], [0], 0, false, [];
      layout := EmptyLayout();
    }

    method Reset()
      requires restartInterval >= 1
      modifies this
      ensures Valid() && buffer == [] && restarts == [0] && layout.entries == []
    {
      EmptyHolds(rank);
      buffer, restarts, counter, finished, lastKey := [], [0], 0, false, [];
      layout := EmptyLayout();
    }

    /** The size of the block if it were finished now. */
    function CurrentSizeEstimate(): nat
      reads this
    {
      |buffer| + 4 * |restarts| + 4
    }

    predicate Empty()
      reads this
    {
      buffer == []
    }

    lemma EmptyMeans()
      requires Valid()
      ensures Empty() <==> layout.entries == []
      ensures Empty() ==> CurrentSizeEstimate() == 8
    {
      OffsetsGrow(buffer, layout, 0, |layout.entries|);
      assert |layout.marks| > 1 ==> layout.marks[1] < |layout.entries|;
    }

    /** Appends an entry; every `restartInterval` entries its whole key is stored. */
    method Add(key: Key, value: seq<byte>)
      requires Valid() && (layout.entries != [] ==> rank(lastKey) < rank(key))
      requires |key| + |value| < 0x1_0000_0000 && |buffer| < 0x1_0000_0000
      modifies this
      ensures Valid() && layout.entries == old(layout.entries) + [KV(key, value)]
      ensures old(buffer) <= buffer
      ensures |buffer| <= |old(buffer)| + 15 + |key| + |value| && |restarts| <= |old(restarts)| + 1
    {
      var shared := 0;
      ghost var restart := counter == restartInterval;
      StillSpaced(layout.marks, restartInterval, |layout.entries|, counter);
      if counter < restartInterval {
        shared := SharedWithLast(key);
      } else {
        restarts := restarts + [|buffer|];
        counter := 0;
      }
      EntryLength(shared, KV(key, value));
      Append(KV(key, value), shared, restart, old(restarts));
      assert key == key[..shared] + key[shared..];
      lastKey := lastKey[..shared] + key[shared..];
      counter := counter + 1;
    }

    /** See how much sharing to do with the previous key. */
    method SharedWithLast(key: Key) returns (shared: nat)
      ensures shared <= |lastKey| && shared <= |key| && lastKey[..shared] == key[..shared]
      ensures shared < |lastKey| && shared < |key| ==> lastKey[shared] != key[shared]
    {
      shared := 0;
      while shared < |lastKey| && shared < |key| && lastKey[shared] == key[shared]
        invariant shared <= |lastKey| && shared <= |key| && lastKey[..shared] == key[..shared]
      {
        shared := shared + 1;
      }
    }

    /** Adds the bytes of an entry, whose restart point is noted already. */
    method Append(e: KV, shared: nat, ghost restart: bool, ghost before: seq<uint32>)
      requires Holds(layout, buffer, before, rank) && |buffer| < 0x1_0000_0000
      requires restarts == if restart then before + [|buffer|] else before
      requires MayShare(layout, e.key, shared) && |e.key| + |e.value| < 0x1_0000_0000
      requires layout.entries != [] ==> rank(LastKey(layout.entries)) < rank(e.key)
      requires restart ==> shared == 0 && layout.entries != []
      modifies this`buffer, this`layout
      ensures Holds(layout, buffer, restarts, rank) && buffer == old(buffer) + EncodeEntry(shared, e)
      ensures layout == Extended(old(layout), e, shared, |EncodeEntry(shared, e)|, restart)
    {
      ExtendedHolds(layout, buffer, before, rank, e, shared, restart);
      AppendEntry(e.key, e.value, shared);
      layout := Extended(layout, e, shared, |EncodeEntry(shared, e)|, restart);
    }

    method AppendEntry(key: Key, value: seq<byte>, shared: nat)
      requires shared <= |key|
      modifies this`buffer
      ensures buffer == old(buffer) + EncodeEntry(shared, KV(key, value))
    {
      ghost var a, b, c := EncodeVarint(shared), EncodeVarint(|key| - shared), EncodeVarint(|value|);
      EntryInOrder(buffer, a, b, c, key[shared..], value);
      EntryInOrder([], a, b, c, key[shared..], value);
      buffer := buffer + EncodeVarint(shared);
      buffer := buffer + EncodeVarint(|key| - shared);
      buffer := buffer + EncodeVarint(|value|);
      buffer := buffer + key[shared..];
      buffer := buffer + value;
      assert [] + a == a;
    }

    /** The whole block: entries, restart offsets and their number. */
    method Finish() returns (block: seq<byte>)
      requires Valid() && |restarts| < 0x1_0000_0000
      modifies this
      ensures finished && layout == old(layout)
      ensures block == old(buffer) + EncodeOffsets(old(restarts)) + EncodeFixed32(|old(restarts)|)
    {
      buffer := PutOffsets(buffer, restarts);
      buffer := buffer + EncodeFixed32(|restarts|);
      finished := true;
      block := buffer;
    }
  }
}
