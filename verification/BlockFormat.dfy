/**
 Blocks of a table (table/block_builder.cc, table/block.cc): entries whose keys leave out the
 prefix they share with the key before, restart points where nothing is left out, and the
 offsets of the restart points at the end.
 */
module BlockFormat {
  import opened Options
  import opened Words
  import opened Coding

  type Key = seq<byte>

  /** A key's place in the comparator's order: a number, as Comparator.RankOf gives for internal keys. */
  type Order = Key -> real

  datatype KV = KV(key: Key, value: seq<byte>)

  function SharedPrefix(a: Key, b: Key): (n: nat)
    ensures n <= |a| && n <= |b| && a[..n] == b[..n]
    ensures n < |a| && n < |b| ==> a[n] != b[n]
  {
    if a == [] || b == [] || a[0] != b[0] then 0 else
      var n := SharedPrefix(a[1..], b[1..]);
      assert a[..n + 1] == [a[0]] + a[1..][..n] && b[..n + 1] == [b[0]] + b[1..][..n];
      n + 1
  }

  function EncodeEntry(shared: nat, e: KV): (s: seq<byte>)
    requires shared <= |e.key|
    ensures |s| >= 3
  {
    EncodeVarint(shared) + EncodeVarint(|e.key| - shared) + EncodeVarint(|e.value|) + e.key[shared..] + e.value
  }

  datatype Header = Header(shared: nat, nonShared: nat, valueLength: nat, rest: seq<byte>)

  function ParseLengths(s: seq<byte>): Option<Header> {
    var shared := ParseVarint32(s);
    if shared.None? then None else
      var nonShared := ParseVarint32(shared.value.rest);
      if nonShared.None? then None else
        var length := ParseVarint32(nonShared.value.rest);
        if length.None? then None else
          Some(Header(shared.value.value, nonShared.value.value, length.value.value, length.value.rest))
  }

  /** DecodeEntry: the lengths of an entry and the bytes behind them, if the key and value are all there. */
  function DecodeEntry(s: seq<byte>): Option<Header> {
    if |s| < 3 then None
    else if s[0] < 128 && s[1] < 128 && s[2] < 128 then
      if |s| - 3 < s[1] as int + s[2] as int then None else Some(Header(s[0], s[1], s[2], s[3..]))
    else
      var h := ParseLengths(s);
      if h.None? || |h.value.rest| < (h.value.nonShared + h.value.valueLength) % 0x1_0000_0000 then None else h
  }

  /** Short lengths are read the same either way. */
  lemma FastPath(s: seq<byte>)
    requires |s| >= 3 && s[0] < 128 && s[1] < 128 && s[2] < 128
    ensures ParseLengths(s) == Some(Header(s[0], s[1], s[2], s[3..]))
  {
    assert s[1..][1..] == s[2..] && s[2..][1..] == s[3..];
  }

  lemma LengthsRoundTrip(a: uint32, b: uint32, c: uint32, rest: seq<byte>)
    ensures ParseLengths(EncodeVarint(a) + (EncodeVarint(b) + (EncodeVarint(c) + rest))) == Some(Header(a, b, c, rest))
  {
    Varint32RoundTrip(a, EncodeVarint(b) + (EncodeVarint(c) + rest));
    Varint32RoundTrip(b, EncodeVarint(c) + rest);
    Varint32RoundTrip(c, rest);
  }

  /** The bytes of an entry, whatever follows, give its lengths and then the rest of its key and its value. */
  lemma EntryRoundTrip(shared: nat, e: KV, rest: seq<byte>)
    requires shared <= |e.key| && |e.key| + |e.value| < 0x1_0000_0000
    ensures DecodeEntry(EncodeEntry(shared, e) + rest) == Some(Header(shared, |e.key| - shared, |e.value|,
            e.key[shared..] + e.value + rest))
  {
    hide ParseLengths, EncodeVarint;
    var a, b, c := EncodeVarint(shared), EncodeVarint(|e.key| - shared), EncodeVarint(|e.value|);
    var k, v := e.key[shared..], e.value;
    var s := EncodeEntry(shared, e) + rest;
    var tail := k + v + rest;
    EntryInOrder(a, b, c, k, v, rest);
    LengthsRoundTrip(shared, |e.key| - shared, |e.value|, tail);
    if s[0] < 128 && s[1] < 128 && s[2] < 128 {
      FastPath(s);
    }
    assert (|k| + |v|) % 0x1_0000_0000 == |k| + |v|;
  }

  lemma EntryInOrder(a: seq<byte>, b: seq<byte>, c: seq<byte>, k: seq<byte>, v: seq<byte>, rest: seq<byte>)
    ensures a + b + c + k + v + rest == a + (b + (c + (k + v + rest)))
  {
    Append3(a + b + c + k, v, rest);
    Append3(a + b + c, k, v + rest);
    Append3(k, v, rest);
    Append3(a + b, c, k + (v + rest));
    Append3(a, b, c + (k + (v + rest)));
  }

  // ---- Layout

  /** Where entries start, how much of each key is left out, and which entries are restart points. */
  datatype Layout = Layout(entries: seq<KV>, offsets: seq<nat>, shared: seq<nat>, marks: seq<nat>)

  ghost predicate ShareOk(l: Layout, i: nat)
    requires i < |l.entries| == |l.shared|
  {
    && l.shared[i] <= |l.entries[i].key|
    && |l.entries[i].key| + |l.entries[i].value| < 0x1_0000_0000
    && (l.shared[i] > 0 ==>
          && i > 0 && l.shared[i] <= |l.entries[i - 1].key|
          && l.entries[i - 1].key[..l.shared[i]] == l.entries[i].key[..l.shared[i]])
  }

  ghost predicate EntryLaid(data: seq<byte>, l: Layout, i: nat)
    requires i < |l.entries| == |l.shared| && |l.offsets| == |l.entries| + 1
  {
    && ShareOk(l, i) && l.offsets[i] < l.offsets[i + 1] <= |data|
    && data[l.offsets[i]..l.offsets[i + 1]] == EncodeEntry(l.shared[i], l.entries[i])
  }

  ghost predicate EntriesLaid(data: seq<byte>, l: Layout) {
    && |l.shared| == |l.entries| && |l.offsets| == |l.entries| + 1 && l.offsets[0] == 0
    && forall i {:trigger EntryLaid(data, l, i)} :: 0 <= i < |l.entries| ==> EntryLaid(data, l, i)
  }

  ghost predicate MarkBefore(l: Layout, r: nat, q: nat)
    requires r < |l.marks| && q < |l.marks|
  {
    l.marks[r] < l.marks[q]
  }

  /** Restart points are entries that leave nothing out, the first one among them. */
  ghost predicate MarksOk(l: Layout)
    requires |l.shared| == |l.entries|
  {
    && l.marks != [] && l.marks[0] == 0
    && (forall r {:trigger l.marks[r]} :: 0 < r < |l.marks| ==> l.marks[r] < |l.entries|)
    && (forall r, q {:trigger MarkBefore(l, r, q)} :: 0 <= r < q < |l.marks| ==> MarkBefore(l, r, q))
    && (forall r {:trigger l.marks[r]} :: 0 <= r < |l.marks| && l.marks[r] < |l.entries| ==> l.shared[l.marks[r]] == 0)
  }

  ghost predicate KeyLess(rank: Order, es: seq<KV>, i: nat, j: nat)
    requires i < |es| && j < |es|
  {
    rank(es[i].key) < rank(es[j].key)
  }

  ghost predicate Sorted(rank: Order, es: seq<KV>) {
    forall i, j {:trigger KeyLess(rank, es, i, j)} :: 0 <= i < j < |es| ==> KeyLess(rank, es, i, j)
  }

  lemma {:induction false} OffsetsGrow(data: seq<byte>, l: Layout, i: nat, j: nat)
    requires EntriesLaid(data, l) && i <= j <= |l.entries|
    ensures l.offsets[i] <= l.offsets[j] && (i < j ==> l.offsets[i] < l.offsets[j])
    decreases j - i
  {
    if i < j {
      OffsetsGrow(data, l, i, j - 1);
      assert EntryLaid(data, l, j - 1);
    }
  }
}
