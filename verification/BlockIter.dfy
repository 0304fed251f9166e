/**
 Iterating over a block (table/block.cc): only restart points are searched by halving, and
 keys are rebuilt by reading forward from one.
 */
module BlockIter {
  import opened Options
  import opened Words
  import opened Coding
  import opened BlockFormat
  import opened BlockBuilder

  /** A whole block: entries up to `limit`, then the restart array. */
  ghost predicate BlockLaid(block: seq<byte>, limit: nat, l: Layout) {
    && limit <= |block| < 0x1_0000_0000 && EntriesLaid(block[..limit], l) && MarksOk(l)
       && l.offsets[|l.entries|] == limit
    && |block| == limit + 4 * |l.marks| + 4
    && DecodeFixed32(block[|block| - 4..]) == |l.marks|
    && forall r {:trigger l.marks[r]} :: 0 <= r < |l.marks| ==>
         l.marks[r] <= |l.entries| && DecodeFixed32(block[limit + 4 * r..]) == l.offsets[l.marks[r]]
  }

  /** What the builder returns is a block of its entries. */
  lemma FinishedIsLaid(data: seq<byte>, restarts: seq<uint32>, l: Layout, rank: Order, block: seq<byte>)
    requires Holds(l, data, restarts, rank) && |restarts| < 0x1_0000_0000
    requires block == data + EncodeOffsets(restarts) + EncodeFixed32(|restarts|) && |block| < 0x1_0000_0000
    ensures BlockLaid(block, |data|, l)
  {
    hide DecodeFixed32, EncodeFixed32, EncodeOffsets, EntryLaid, ShareOk;
    CountAtEnd(data + EncodeOffsets(restarts), |restarts|);
    assert block[..|data|] == data;
    forall r {:trigger l.marks[r]} | 0 <= r < |l.marks|
      ensures l.marks[r] <= |l.entries| && DecodeFixed32(block[|data| + 4 * r..]) == l.offsets[l.marks[r]]
    {
      OffsetAt(data, restarts, EncodeFixed32(|restarts|), r);
    }
  }

  lemma CountAtEnd(data: seq<byte>, n: uint32)
    ensures DecodeFixed32((data + EncodeFixed32(n))[|data|..]) == n
  {
    assert (data + EncodeFixed32(n))[|data|..|data| + 4] == EncodeFixed32(n);
    Fixed32At(data + EncodeFixed32(n), |data|, n);
  }

  /** Where the restart array starts, unless the block is too small for it. */
  function RestartOffset(block: seq<byte>): Option<nat> {
    if |block| < 4 then None else
      var n := DecodeFixed32(block[|block| - 4..]);
      if n > (|block| - 4) / 4 then None else Some(|block| - (1 + n) * 4)
  }

  /** The bytes from entry `i` on are the entry and what follows it. */
  lemma EntryBytes(block: seq<byte>, limit: nat, l: Layout, i: nat)
    requires BlockLaid(block, limit, l) && i < |l.entries|
    ensures EntryLaid(block[..limit], l, i) && ShareOk(l, i) && l.offsets[i] < l.offsets[i + 1] <= limit
    ensures block[l.offsets[i]..limit] == EncodeEntry(l.shared[i], l.entries[i]) + block[l.offsets[i + 1]..limit]
    ensures block[l.offsets[i]..l.offsets[i + 1]] == EncodeEntry(l.shared[i], l.entries[i])
  {
    var data := block[..limit];
    assert EntryLaid(data, l, i);
    OffsetsGrow(data, l, i + 1, |l.entries|);
    assert data[l.offsets[i]..l.offsets[i + 1]] == block[l.offsets[i]..l.offsets[i + 1]];
  }

  /** The shared part of the key before and the stored rest make the key. */
  lemma KeyRebuilt(e: KV, shared: nat, before: Key, rest: seq<byte>)
    requires shared <= |e.key| && shared <= |before| && before[..shared] == e.key[..shared]
    ensures before[..shared] + (e.key[shared..] + e.value + rest)[..|e.key| - shared] == e.key
  {
    assert (e.key[shared..] + e.value + rest)[..|e.key| - shared] == e.key[shared..];
    assert e.key == e.key[..shared] + e.key[shared..];
  }

  lemma ValueAtEnd(block: seq<byte>, from: nat, to: nat, shared: nat, e: KV)
    requires from <= to <= |block| && shared <= |e.key| && block[from..to] == EncodeEntry(shared, e)
    ensures to - from >= |e.value| && block[to - |e.value|..to] == e.value
  {
    var t := EncodeEntry(shared, e);
    assert t[|t| - |e.value|..] == e.value;
    assert block[from..to][|t| - |e.value|..] == block[to - |e.value|..to];
  }

  /** The entry at offset `i`, read with the key before it. */
  lemma EntryIsRead(block: seq<byte>, limit: nat, l: Layout, i: nat, key: Key)
    requires BlockLaid(block, limit, l) && i < |l.entries|
    requires l.shared[i] == 0 || (i > 0 && key == l.entries[i - 1].key)
    ensures l.offsets[i] < l.offsets[i + 1] <= limit
    ensures var e := l.entries[i];
            var h := DecodeEntry(block[l.offsets[i]..limit]);
            && h.Some? && h.value.shared == l.shared[i] <= |key| && |h.value.rest| >= h.value.nonShared
               && h.value.valueLength == |e.value|
            && key[..h.value.shared] + h.value.rest[..h.value.nonShared] == e.key
            && limit - |h.value.rest| + h.value.nonShared + h.value.valueLength == l.offsets[i + 1]
    ensures var e, end := l.entries[i], l.offsets[i + 1];
            |e.value| <= end && block[end - |e.value|..end] == e.value
  {
    EntryBytes(block, limit, l, i);
    var e, rest := l.entries[i], block[l.offsets[i + 1]..limit];
    EntryRoundTrip(l.shared[i], e, rest);
    KeyRebuilt(e, l.shared[i], key, rest);
    ValueAtEnd(block, l.offsets[i], l.offsets[i + 1], l.shared[i], e);
  }

  class Iter {
    const data: seq<byte>
    const restarts: nat       // where the restart array starts
    const numRestarts: nat
    const rank: Order
    ghost const layout: Layout
    var current: nat          // offset of the current entry; `restarts` or more when not valid
    var restartIndex: nat
    var key: Key
    var valueStart: nat
    var valueSize: nat
    ghost var at: nat         // index of the current entry; the number of entries when not valid

    ghost predicate Sources() {
      BlockLaid(data, restarts, layout) && numRestarts == |layout.marks| && Sorted(rank, layout.entries)
    }

    /** The iterator stands on entry `at` and holds its key and value. */
    ghost predicate OnEntry()
      reads this
    {
      && Sources() && at < |layout.entries| && current == layout.offsets[at] < restarts
      && key == layout.entries[at].key
      && valueStart + valueSize == layout.offsets[at + 1] && valueSize == |layout.entries[at].value|
      && restartIndex < numRestarts && layout.marks[restartIndex] <= at
    }

    ghost predicate Ok()
      reads this
    {
      Sources() && if at == |layout.entries| then current == restarts else OnEntry()
    }

    constructor (data: seq<byte>, restarts: nat, numRestarts: nat, rank: Order, ghost layout: Layout)
      requires BlockLaid(data, restarts, layout) && numRestarts == |layout.marks| && Sorted(rank, layout.entries)
      ensures Ok() && !Valid() && this.data == data && this.layout == layout && this.rank == rank
    {
      this.data, this.restarts, this.numRestarts, this.rank, this.layout := data, restarts, numRestarts, rank, layout;
      current, restartIndex, key, valueStart, valueSize := restarts, numRestarts, [], 0, 0;
      at := |layout.entries|;
    }

    predicate Valid(): (valid: bool)
      reads this
      ensures Ok() ==> (valid <==> at < |layout.entries|) && at <= |layout.entries|
    {
      current < restarts
    }

    /** The entry under the iterator. */
    function Entry(): (e: KV)
      requires Ok() && Valid()
      reads this
      ensures e == layout.entries[at]
    {
      EntryHere();
      KV(key, data[valueStart..valueStart + valueSize])
    }

    lemma EntryHere()
      requires Ok() && Valid()
      ensures at < |layout.entries| && valueStart + valueSize <= |data|
      ensures KV(key, data[valueStart..valueStart + valueSize]) == layout.entries[at]
    {
      hide Sorted, DecodeEntry, EncodeEntry;
      EntryIsRead(data, restarts, layout, at, if at > 0 then layout.entries[at - 1].key else []);
    }

    function NextEntryOffset(): nat
      reads this
    {
      valueStart + valueSize
    }

    function GetRestartPoint(index: nat): (offset: nat)
      requires Sources() && index < numRestarts
      ensures layout.marks[index] <= |layout.entries| && offset == layout.offsets[layout.marks[index]]
    {
      DecodeFixed32(data[restarts + 4 * index..])
    }

    /** The next entry to parse is entry `i`, and the key before it is at hand if it is needed. */
    ghost predicate Before(i: nat)
      reads this
    {
      && Sources() && i <= |layout.entries| && NextEntryOffset() == layout.offsets[i]
      && (i < |layout.entries| ==> layout.shared[i] == 0 || (i > 0 && key == layout.entries[i - 1].key))
      && restartIndex < numRestarts && layout.marks[restartIndex] <= i
    }

    method SeekToRestartPoint(index: nat)
      requires Sources() && index < numRestarts
      modifies this`key, this`restartIndex, this`valueStart, this`valueSize
      ensures Before(layout.marks[index]) && restartIndex == index
    {
      key, restartIndex := [], index;
      valueStart, valueSize := GetRestartPoint(index), 0;
    }

    /** Moves to the entry behind the current value, if there is one. */
    method ParseNextKey(ghost i: nat) returns (more: bool)
      requires Before(i)
      modifies this
      ensures Ok() && at == i && more == (i < |layout.entries|)
    {
      at := i;
      current := NextEntryOffset();
      OffsetBehind(i);
      if current >= restarts {
        current, restartIndex := restarts, numRestarts;
        return false;
      }
      ParseEntry();
      AdvanceRestartIndex();
      more := true;
    }

    method ParseEntry()
      requires at < |layout.entries| && Before(at) && current == layout.offsets[at] < restarts
      modifies this`key, this`valueStart, this`valueSize
      ensures OnEntry()
    {
      EntryIsRead(data, restarts, layout, at, key);
      var h := DecodeEntry(data[current..restarts]);
      key := key[..h.value.shared] + h.value.rest[..h.value.nonShared];
      valueStart, valueSize := restarts - |h.value.rest| + h.value.nonShared, h.value.valueLength;
    }

    method AdvanceRestartIndex()
      requires OnEntry()
      modifies this`restartIndex
      ensures OnEntry()
    {
      while restartIndex + 1 < numRestarts && GetRestartPoint(restartIndex + 1) < current
        invariant OnEntry()
        decreases numRestarts - restartIndex
      {
        MarkBehind(restartIndex + 1);
        restartIndex := restartIndex + 1;
      }
    }

    /** The loops of SeekToLast and Prev: entries are parsed until one ends at `bound`, where entry `j` ends. */
    method ParseUpTo(bound: nat, ghost i: nat, ghost j: nat)
      requires Before(i) && i <= j && if i == |layout.entries| then j == i
               else j < |layout.entries| && bound == layout.offsets[j + 1]
      modifies this
      ensures Ok() && at == j
    {
      var more := ParseNextKey(i);
      while more && NextEntryOffset() < bound
        invariant Ok() && at <= j && more == (at < |layout.entries|)
        decreases j - at
      {
        EndOfEntry(at, j);
        NextIsReady();
        more := ParseNextKey(at + 1);
      }
      if more {
        EndOfEntry(at, j);
      }
    }

    lemma EndOfEntry(i: nat, j: nat)
      requires Sources() && i <= j < |layout.entries|
      ensures layout.offsets[i + 1] < layout.offsets[j + 1] <==> i < j
    {
      OffsetsGrow(data[..restarts], layout, i + 1, j + 1);
    }

    /** A restart point before the offset of the current entry is at an entry before it. */
    lemma MarkBehind(r: nat)
      requires OnEntry() && r < numRestarts && layout.offsets[layout.marks[r]] < current
      ensures layout.marks[r] < at
    {
      if layout.marks[r] >= at {
        OffsetsGrow(data[..restarts], layout, at, layout.marks[r]);
      }
    }

    method Next()
      requires Ok() && Valid()
      modifies this
      ensures Ok() && at == old(at) + 1
    {
      NextIsReady();
      var more := ParseNextKey(at + 1);
    }

    /** From the current entry the next one can be read. */
    lemma NextIsReady()
      requires OnEntry()
      ensures Before(at + 1)
    {
      if at + 1 < |layout.entries| {
        EntryBytes(data, restarts, layout, at + 1);
      }
    }

    method SeekToFirst()
      requires Ok()
      modifies this
      ensures Ok() && at == 0
    {
      SeekToRestartPoint(0);
      var more := ParseNextKey(0);
    }

    method SeekToLast()
      requires Ok()
      modifies this
      ensures Ok() && at == if |layout.entries| == 0 then 0 else |layout.entries| - 1
    {
      SeekToRestartPoint(numRestarts - 1);
      ParseUpTo(restarts, layout.marks[numRestarts - 1], if |layout.entries| == 0 then 0 else |layout.entries| - 1);
    }

    /** Only the end of the last entry is at the restart array. */
    lemma OffsetBehind(i: nat)
      requires Sources() && i <= |layout.entries|
      ensures layout.offsets[i] < restarts <==> i < |layout.entries|
    {
      OffsetsGrow(data[..restarts], layout, i, |layout.entries|);
    }

    /** Back to a restart point before the current entry, and forward again to the entry before it. */
    method Prev()
      requires Ok() && Valid()
      modifies this
      ensures Ok() && at == if old(at) == 0 then |layout.entries| else old(at) - 1
    {
      hide EntriesLaid, Sorted, DecodeFixed32;
      ghost var i := at;
      var original := current;
      while GetRestartPoint(restartIndex) >= original
        invariant OnEntry() && at == i && current == original
        decreases restartIndex
      {
        if restartIndex == 0 {
          FirstOffset();
          current, restartIndex := restarts, numRestarts;
          at := |layout.entries|;
          return;
        }
        assert MarkBefore(layout, restartIndex - 1, restartIndex);
        restartIndex := restartIndex - 1;
      }
      MarkBehind(restartIndex);
      SeekToRestartPoint(restartIndex);
      ParseUpTo(original, layout.marks[restartIndex], i - 1);
    }

    /** The first restart point is at the first entry. */
    lemma FirstOffset()
      requires OnEntry()
      ensures layout.offsets[layout.marks[0]] >= current ==> at == 0
    {
      OffsetsGrow(data[..restarts], layout, 0, at);
    }

    /** The key stored whole at restart point `index`. */
    method RestartKey(index: nat) returns (k: Option<Key>)
      requires Sources() && 0 < index < numRestarts
      ensures layout.marks[index] < |layout.entries| && k == Some(layout.entries[layout.marks[index]].key)
    {
      var offset := GetRestartPoint(index);
      assert layout.shared[layout.marks[index]] == 0;
      EntryIsRead(data, restarts, layout, layout.marks[index], []);
      var h := DecodeEntry(data[offset..restarts]);
      if h.None? || h.value.shared != 0 {
        assert false;  // a corrupted block
        return None;
      }
      assert [] + h.value.rest[..h.value.nonShared] == h.value.rest[..h.value.nonShared];
      return Some(h.value.rest[..h.value.nonShared]);
    }

    /** All keys before entry `i` are before `target`. */
    ghost predicate AllBefore(target: Key, i: nat) {
      Sources() && i <= |layout.entries| && forall j :: 0 <= j < i ==> rank(layout.entries[j].key) < rank(target)
    }

    lemma BeforeKey(target: Key, i: nat)
      requires Sources() && i < |layout.entries| && rank(layout.entries[i].key) < rank(target)
      ensures AllBefore(target, i + 1)
    {
      forall j | 0 <= j < i + 1 ensures rank(layout.entries[j].key) < rank(target) {
        assert j < i ==> KeyLess(rank, layout.entries, j, i);
      }
    }

    /** From entry `i` on no key is before `target` if its own is not. */
    lemma FromKey(target: Key, i: nat)
      requires Sources() && i < |layout.entries| && rank(layout.entries[i].key) >= rank(target)
      ensures forall j :: i <= j < |layout.entries| ==> rank(layout.entries[j].key) >= rank(target)
    {
      forall j | i <= j < |layout.entries| ensures rank(layout.entries[j].key) >= rank(target) {
        assert j > i ==> KeyLess(rank, layout.entries, i, j);
      }
    }

    /** Halving between restart points: the last one with a key before `target`. */
    method FindRestart(target: Key) returns (left: nat)
      requires Sources()
      ensures left < numRestarts && AllBefore(target, layout.marks[left])
    {
      left := 0;
      var right := numRestarts - 1;
      while left < right
        invariant left <= right < numRestarts && AllBefore(target, layout.marks[left])
      {
        var mid := (left + right + 1) / 2;
        var midKey := RestartKey(mid);
        if rank(midKey.value) < rank(target) {
          BeforeKey(target, layout.marks[mid]);
          left := mid;
        } else {
          right := mid - 1;
        }
      }
    }

    /** The first entry at or after `target`. */
    method Seek(target: Key)
      requires Ok()
      modifies this
      ensures Ok() && AllBefore(target, at)
      ensures forall j :: at <= j < |layout.entries| ==> rank(layout.entries[j].key) >= rank(target)
    {
      hide BlockLaid, Sorted;
      var left := FindRestart(target);
      SeekToRestartPoint(left);
      var more := ParseNextKey(layout.marks[left]);
      while more && rank(key) < rank(target)
        invariant Ok() && AllBefore(target, at) && more == (at < |layout.entries|)
        decreases |layout.entries| - at
      {
        BeforeKey(target, at);
        NextIsReady();
        more := ParseNextKey(at + 1);
      }
      if more {
        FromKey(target, at);
      }
    }
  }

  /** Block::NewIterator on a block that is large enough for its restart array. */
  method NewIterator(block: seq<byte>, rank: Order, ghost limit: nat, ghost l: Layout) returns (iter: Iter)
    requires BlockLaid(block, limit, l) && Sorted(rank, l.entries)
    ensures fresh(iter) && iter.Ok() && !iter.Valid() && iter.layout == l && iter.rank == rank
  {
    var n := DecodeFixed32(block[|block| - 4..]);
    assert n <= (|block| - 4) / 4;
    iter := new Iter(block, RestartOffset(block).value, n, rank, l);
  }

  /** A bound on the bytes of a block of some entries. */
  function BytesOf(es: seq<KV>): nat {
    if es == [] then 8 else BytesOf(es[..|es| - 1]) + |es[|es| - 1].key| + |es[|es| - 1].value| + 19
  }

  lemma {:induction false} BytesOfFirst(es: seq<KV>, i: nat)
    requires i <= |es|
    ensures BytesOf(es[..i]) <= BytesOf(es)
    decreases |es| - i
  {
    if i < |es| {
      assert es[..i + 1][..i] == es[..i];
      BytesOfFirst(es, i + 1);
    } else {
      assert es[..i] == es;
    }
  }

  /** Building a block of entries, unless it gets too large. */
  method BuildBlock(es: seq<KV>, restartInterval: nat, rank: Order)
      returns (block: Option<seq<byte>>, ghost limit: nat, ghost l: Layout)
    requires restartInterval >= 1 && Sorted(rank, es) && forall e :: e in es ==> |e.key| + |e.value| < 0x1_0000_0000
    ensures block.Some? ==> BlockLaid(block.value, limit, l) && l.entries == es
    ensures BytesOf(es) < 0x1_0000_0000 ==> block.Some?
  {
    var builder := new BlockBuilder(restartInterval, rank);
    for i := 0 to |es|
      invariant fresh(builder) && builder.Valid() && builder.layout.entries == es[..i] && builder.rank == rank
      invariant |builder.buffer| + 4 * |builder.restarts| + 4 <= BytesOf(es[..i])
    {
      BytesOfFirst(es, i);
      if |builder.buffer| >= 0x1_0000_0000 {
        return None, 0, builder.layout;
      }
      assert i > 0 ==> KeyLess(rank, es, i - 1, i);
      assert es[..i + 1][..i] == es[..i];
      builder.Add(es[i].key, es[i].value);
    }
    limit, l := |builder.buffer|, builder.layout;
    assert es[..|es|] == es;
    if |builder.buffer| + 4 * |builder.restarts| + 4 >= 0x1_0000_0000 {
      return None, limit, l;
    }
    ghost var data, restarts := builder.buffer, builder.restarts;
    var finished := builder.Finish();
    FinishedIsLaid(data, restarts, l, rank, finished);
    block := Some(finished);
  }

  /** Reading a block from the first entry to the last. */
  method ReadEntries(iter: Iter) returns (read: seq<KV>)
    requires iter.Ok()
    modifies iter
    ensures read == iter.layout.entries
  {
    read := [];
    iter.SeekToFirst();
    while iter.Valid()
      invariant iter.Ok() && read == iter.layout.entries[..iter.at]
      decreases |iter.layout.entries| - iter.at
    {
      read := read + [iter.Entry()];
      iter.Next();
    }
  }

  /** What is built into a block is read back, from the first entry to the last. */
  method BuildAndRead(es: seq<KV>, restartInterval: nat, rank: Order) returns (read: Option<seq<KV>>)
    requires restartInterval >= 1 && Sorted(rank, es) && forall e :: e in es ==> |e.key| + |e.value| < 0x1_0000_0000
    ensures read.Some? ==> read.value == es
    ensures BytesOf(es) < 0x1_0000_0000 ==> read.Some?
  {
    var block;
    ghost var limit, l;
    block, limit, l := BuildBlock(es, restartInterval, rank);
    if block.None? {
      return None;
    }
    var iter := NewIterator(block.value, rank, limit, l);
    var all := ReadEntries(iter);
    read := Some(all);
  }
}
