/**
 The memtable (db/memtable.cc): updates encoded one by one, in a skip list ordered by their
 internal keys. The list compares the ranks of keys where the code calls the comparator, which
 is the same by `RanksCompare`.
 */
module MemTable {
  import opened Options
  import opened Words
  import opened Coding
  import opened Comparator
  import opened TableFormat
  import opened WriteBatch
  import SkipList

  const MAX_SEQUENCE: nat := 0xff_ffff_ffff_ffff

  /** An update with its sequence number. */
  datatype Entry = Entry(seqno: nat, update: Update)

  ghost predicate ValidEntry(e: Entry) {
    e.seqno <= MAX_SEQUENCE && |e.update.key| + 8 < 0x1_0000_0000
  }

  function TypeOf(u: Update): byte {
    if u.Put? then VALUE else DELETION
  }

  function ValueOf(u: Update): Text {
    if u.Put? then u.value else []
  }

  /** The sequence number and the type, packed. */
  function TagOf(seqno: nat, kind: byte): nat {
    seqno * 256 + kind
  }

  function KeyOf(e: Entry): InternalKey {
    InternalKey(e.update.key, TagOf(e.seqno, TypeOf(e.update)))
  }

  // ---- Entries as bytes

  function EncodeKey(key: seq<byte>, tag: uint64): seq<byte> {
    EncodeVarint(|key| + 8) + (key + EncodeFixed64(tag))
  }

  function EncodeEntry(e: Entry): seq<byte>
    requires ValidEntry(e)
  {
    EncodeKey(e.update.key, TagOf(e.seqno, TypeOf(e.update))) + EncodeString(ValueOf(e.update))
  }

  /** GetLengthPrefixedSlice; what is stored in the table is not corrupted. */
  function Prefixed(s: seq<byte>): Parsed<seq<byte>> {
    var r := ParseString(s);
    if r.None? then Parsed([], []) else r.value
  }

  lemma KeyIsRead(key: seq<byte>, tag: uint64, rest: seq<byte>)
    requires |key| + 8 < 0x1_0000_0000
    ensures Prefixed(EncodeKey(key, tag) + rest) == Parsed(key + EncodeFixed64(tag), rest)
    ensures IsInternal(key + EncodeFixed64(tag)) && UserKey(key + EncodeFixed64(tag)) == key
    ensures Decoded(key + EncodeFixed64(tag)) == InternalKey(key, tag)
  {
    var k := key + EncodeFixed64(tag);
    assert EncodeKey(key, tag) == EncodeString(k);
    StringRoundTrip(k, rest);
    EncodedRoundTrip(InternalKey(key, tag));
  }

  lemma EntryIsRead(e: Entry)
    requires ValidEntry(e)
    ensures var key := Prefixed(EncodeEntry(e));
            && IsInternal(key.value) && Decoded(key.value) == KeyOf(e)
            && Prefixed(key.rest).value == ValueOf(e.update)
  {
    hide EncodeKey, ParseString, EncodeString;
    var value := EncodeString(ValueOf(e.update));
    KeyIsRead(e.update.key, TagOf(e.seqno, TypeOf(e.update)), value);
    assert value == value + [];
    StringRoundTrip(ValueOf(e.update), []);
  }

  /** MemTable::KeyComparator, as "less than". */
  predicate KeyLess(a: seq<byte>, b: seq<byte>) {
    var k, l := Prefixed(a).value, Prefixed(b).value;
    IsInternal(k) && IsInternal(l) && InternalLess(Decoded(k), Decoded(l))
  }

  lemma KeyLessIs(e: Entry, key: seq<byte>, tag: uint64)
    requires ValidEntry(e) && |key| + 8 < 0x1_0000_0000
    ensures KeyLess(EncodeEntry(e), EncodeKey(key, tag)) <==> InternalLess(KeyOf(e), InternalKey(key, tag))
  {
    hide EncodeKey, EncodeEntry, InternalLess, Prefixed;
    EntryIsRead(e);
    KeyIsRead(key, tag, []);
    assert EncodeKey(key, tag) + [] == EncodeKey(key, tag);
  }

  /** The place of an internal key in their order, as a number. */
  function Rank(k: InternalKey): real
    requires k.tag < 0x1_0000_0000_0000_0000
  {
    RankOf(k.user, k.tag)
  }

  /** The rank of the key at the front of an encoded entry. */
  function RankOfNode(node: seq<byte>): real
    requires IsInternal(Prefixed(node).value)
  {
    Rank(Decoded(Prefixed(node).value))
  }

  /** The comparator says of the bytes of two entries what their ranks say. */
  lemma RanksCompare(a: seq<byte>, b: seq<byte>)
    requires IsInternal(Prefixed(a).value) && IsInternal(Prefixed(b).value)
    ensures RankOfNode(a) < RankOfNode(b) <==> KeyLess(a, b)
    ensures RankOfNode(a) == RankOfNode(b) <==> Decoded(Prefixed(a).value) == Decoded(Prefixed(b).value)
  {
    hide Prefixed, RankOf;
    RanksOrder(Decoded(Prefixed(a).value), Decoded(Prefixed(b).value));
  }

  lemma RanksOrder(k: InternalKey, l: InternalKey)
    requires k.tag < 0x1_0000_0000_0000_0000 && l.tag < 0x1_0000_0000_0000_0000
    ensures Rank(k) < Rank(l) <==> InternalLess(k, l)
    ensures Rank(k) == Rank(l) <==> k == l
  {
    hide RankOf;
    RankIsOrder(k.user, k.tag, l.user, l.tag);
  }

  /** What MemTable::Get takes from an entry. */
  lemma FieldsAreRead(e: Entry)
    requires ValidEntry(e)
    ensures var key := Prefixed(EncodeEntry(e));
            && IsInternal(key.value) && UserKey(key.value) == e.update.key
            && DecodeFixed64(key.value[|key.value| - 8..]) % 256 == TypeOf(e.update)
            && Prefixed(key.rest).value == ValueOf(e.update)
  {
    hide EncodeEntry, Prefixed, DecodeFixed64;
    EntryIsRead(e);
  }

  // ---- What a lookup is for

  ghost predicate Visible(e: Entry, key: seq<byte>, s: nat) {
    e.update.key == key && e.seqno <= s
  }

  /** Of the entries of `key` at or below snapshot `s`, the newest. */
  ghost predicate IsNewest(es: set<Entry>, key: seq<byte>, s: nat, e: Entry) {
    && e in es && Visible(e, key, s)
    && forall f :: f in es && Visible(f, key, s) ==> KeyOf(f).tag <= KeyOf(e).tag
  }

  datatype Lookup = Missing | Found(value: Text) | NotFound

  function Answer(u: Update): Lookup {
    if u.Put? then Found(u.value) else NotFound
  }

  /** The tag a lookup at `s` seeks lies between those of entries it sees and those it does not. */
  lemma SeekTagSeparates(e: Entry, s: nat)
    requires ValidEntry(e) && s <= MAX_SEQUENCE
    ensures e.seqno <= s <==> KeyOf(e).tag <= TagOf(s, VALUE)
    ensures TagOf(s, VALUE) < 0x1_0000_0000_0000_0000 && KeyOf(e).tag < 0x1_0000_0000_0000_0000
  {
  }

  // ---- The table

  /** What node `i + 1` of the skip list holds. */
  ghost predicate Holds(rank: real, node: seq<byte>, e: Entry) {
    ValidEntry(e) && node == EncodeEntry(e) && rank == Rank(KeyOf(e))
  }

  ghost predicate AllValid(entries: seq<Entry>) {
    forall i {:trigger entries[i]} :: 0 <= i < |entries| ==> ValidEntry(entries[i])
  }

  ghost predicate KeysDiffer(entries: seq<Entry>) {
    forall i, j :: 0 <= i < j < |entries| ==> KeyOf(entries[i]) != KeyOf(entries[j])
  }

  ghost function Elements(entries: seq<Entry>): set<Entry> {
    set e | e in entries
  }

  ghost predicate AtOrAfter(e: Entry, k: InternalKey) {
    !InternalLess(KeyOf(e), k)
  }

  /** Of the entries at or after a key, `node` holds the first in key order; entry `i` is in node `i + 1`. */
  ghost predicate IsFirst(entries: seq<Entry>, node: int, k: InternalKey) {
    && (node == SkipList.NIL || (0 < node <= |entries| && AtOrAfter(entries[node - 1], k)))
    && (forall i :: 0 <= i < |entries| && AtOrAfter(entries[i], k) ==>
          node != SkipList.NIL && AtOrAfter(entries[i], KeyOf(entries[node - 1])))
  }

  /** The first entry at or after the key a lookup seeks is the newest it may see, if it has the user key. */
  lemma SoughtIsNewest(entries: seq<Entry>, node: int, key: seq<byte>, s: nat)
    requires AllValid(entries) && s <= MAX_SEQUENCE && IsFirst(entries, node, InternalKey(key, TagOf(s, VALUE)))
    ensures var found := node != SkipList.NIL && entries[node - 1].update.key == key;
            && (found ==> IsNewest(Elements(entries), key, s, entries[node - 1]))
            && (!found ==> forall e :: e in entries ==> !Visible(e, key, s))
  {
    var k := InternalKey(key, TagOf(s, VALUE));
    LessIsTotal(key, key);
    forall i | 0 <= i < |entries| && Visible(entries[i], key, s)
      ensures node != SkipList.NIL && entries[node - 1].update.key == key
              && KeyOf(entries[i]).tag <= KeyOf(entries[node - 1]).tag
    {
      SeekTagSeparates(entries[i], s);
      assert AtOrAfter(entries[i], k);
      FirstHasKey(entries[node - 1], entries[i], k);
    }
    if node != SkipList.NIL {
      SeekTagSeparates(entries[node - 1], s);
    }
  }

  /** An entry between the key sought and one with its user key has that user key. */
  lemma FirstHasKey(first: Entry, e: Entry, k: InternalKey)
    requires AtOrAfter(first, k) && AtOrAfter(e, KeyOf(first)) && e.update.key == k.user
    ensures first.update.key == k.user && KeyOf(e).tag <= KeyOf(first).tag
  {
    LessIsTotal(first.update.key, k.user);
  }

  lemma OnlyOneNewest(entries: seq<Entry>, key: seq<byte>, s: nat, e: Entry)
    requires KeysDiffer(entries) && IsNewest(Elements(entries), key, s, e)
    ensures forall f :: IsNewest(Elements(entries), key, s, f) ==> f == e
  {
    forall f | IsNewest(Elements(entries), key, s, f) ensures f == e {
      var i, j :| 0 <= i < |entries| && 0 <= j < |entries| && entries[i] == e && entries[j] == f;
      assert KeyOf(e) == KeyOf(f);
      assert i == j;
    }
  }

  /** Node 0 is the head; every other node is in the list and holds an entry under its rank. */
  ghost predicate Stored(list: SkipList.List, nodes: seq<seq<byte>>, entries: seq<Entry>) {
    && list.Valid() && |nodes| == |list.keys| == |entries| + 1
    && forall i {:trigger entries[i]} :: 0 <= i < |entries| ==>
         Holds(list.keys[i + 1], nodes[i + 1], entries[i]) && i + 1 in list.Members()
  }

  lemma OneMoreStored(list: SkipList.List, after: SkipList.List, nodes: seq<seq<byte>>, entries: seq<Entry>,
      rank: real, node: seq<byte>, e: Entry)
    requires Stored(list, nodes, entries) && after.Valid() && Holds(rank, node, e)
    requires after.keys == list.keys + [rank] && after.Members() == list.Members() + {|list.keys|}
    ensures Stored(after, nodes + [node], entries + [e])
  {
    hide Holds, SkipList.List.Members;
  }

  class MemTable {
    const list: SkipList.SkipList
    var nodes: seq<seq<byte>>
    ghost var entries: seq<Entry>

    ghost predicate Valid()
      reads this, list
    {
      Stored(list.list, nodes, entries)
    }

    ghost function Contents(): set<Entry>
      reads this
    {
      Elements(entries)
    }

    constructor ()
      ensures Valid() && Contents() == {} && fresh(list)
    {
      list := new SkipList.SkipList();
      nodes, entries := [[]], [];
      new;
      SkipList.EmptyListIsValid();
    }

    lemma EntryIn(i: nat)
      requires Valid() && i < |entries|
      ensures Holds(list.list.keys[i + 1], nodes[i + 1], entries[i]) && i + 1 in list.list.Members()
      ensures entries[i] in Contents() && KeyOf(entries[i]).tag < 0x1_0000_0000_0000_0000
    {
      SeekTagSeparates(entries[i], 0);
    }

    /** No two nodes hold one key. */
    lemma KeysAreDifferent()
      requires Valid()
      ensures AllValid(entries) && KeysDiffer(entries)
    {
      hide Rank, EncodeEntry;
      forall i {:trigger entries[i]} | 0 <= i < |entries| ensures ValidEntry(entries[i]) {
        EntryIn(i);
      }
      forall i, j | 0 <= i < j < |entries| ensures KeyOf(entries[i]) != KeyOf(entries[j]) {
        EntryIn(i);
        EntryIn(j);
        assert list.list.keys[i + 1] != list.list.keys[j + 1];
      }
    }

    /** The search of the skip list, for an encoded key. */
    method FindGreaterOrEqual(key: seq<byte>, tag: uint64) returns (node: int)
      requires Valid() && |key| + 8 < 0x1_0000_0000
      ensures IsFirst(entries, node, InternalKey(key, tag))
    {
      hide EncodeKey, Prefixed, Rank, IsFirst;
      var target := EncodeKey(key, tag);
      KeyIsRead(key, tag, []);
      assert target + [] == target;
      var prev;
      node, prev := list.FindGreaterOrEqual(RankOfNode(target));
      FoundIsFirst(InternalKey(key, tag), prev[0], node);
    }

    lemma FoundIsFirst(k: InternalKey, x: nat, node: int)
      requires Valid() && k.tag < 0x1_0000_0000_0000_0000 && SkipList.Between(list.list, Some(Rank(k)), x, node)
      ensures IsFirst(entries, node, k)
    {
      hide Rank, InternalLess, EncodeEntry, KeyOf;
      if node != SkipList.NIL {
        EntryIn(node - 1);
        RanksOrder(KeyOf(entries[node - 1]), k);
      }
      forall i | 0 <= i < |entries| && AtOrAfter(entries[i], k)
        ensures node != SkipList.NIL && AtOrAfter(entries[i], KeyOf(entries[node - 1]))
      {
        EntryIn(i);
        assert list.list.linked[i + 1] > 0;
        RanksOrder(KeyOf(entries[i]), k);
        RanksOrder(KeyOf(entries[i]), KeyOf(entries[node - 1]));
      }
    }

    /** MemTable::Add; as the skip list demands, no entry has the same internal key. */
    method Add(seqno: nat, u: Update)
      requires Valid() && ValidEntry(Entry(seqno, u))
      requires forall e :: e in Contents() ==> KeyOf(e) != KeyOf(Entry(seqno, u))
      modifies this, list
      ensures Valid() && Contents() == old(Contents()) + {Entry(seqno, u)}
    {
      hide Stored, EncodeEntry, Prefixed, Rank, SkipList.List.Members, SkipList.List.Valid;
      var e := Entry(seqno, u);
      var node := EncodeEntry(e);
      EntryIsRead(e);
      SeekTagSeparates(e, seqno);
      KeyIsNew(e);
      ghost var before := list.list;
      var height: nat :| 1 <= height <= SkipList.MAX_HEIGHT;
      list.Insert(RankOfNode(node), height);
      OneMoreStored(before, list.list, nodes, entries, RankOfNode(node), node, e);
      nodes, entries := nodes + [node], entries + [e];
    }

    lemma KeyIsNew(e: Entry)
      requires Valid() && KeyOf(e).tag < 0x1_0000_0000_0000_0000
      requires forall f :: f in Contents() ==> KeyOf(f) != KeyOf(e)
      ensures list.list.Valid()
      ensures forall n {:trigger list.list.keys[n]} :: 0 < n < |list.list.keys| ==> list.list.keys[n] != Rank(KeyOf(e))
    {
      hide Rank, EncodeEntry;
      forall n {:trigger list.list.keys[n]} | 0 < n < |list.list.keys| ensures list.list.keys[n] != Rank(KeyOf(e)) {
        EntryIn(n - 1);
        RanksOrder(KeyOf(entries[n - 1]), KeyOf(e));
      }
    }

    /** MemTable::Get: what the newest update of `key` at or below the snapshot says. */
    method Get(key: seq<byte>, s: nat) returns (r: Lookup)
      requires Valid() && s <= MAX_SEQUENCE && |key| + 8 < 0x1_0000_0000
      ensures r == Missing <==> forall e :: e in Contents() ==> !Visible(e, key, s)
      ensures r != Missing ==> exists e :: IsNewest(Contents(), key, s, e)
      ensures forall e :: IsNewest(Contents(), key, s, e) ==> r == Answer(e.update)
    {
      hide EncodeEntry, Prefixed, IsFirst, KeysDiffer;
      var node := FindGreaterOrEqual(key, TagOf(s, VALUE));
      KeysAreDifferent();
      SoughtIsNewest(entries, node, key, s);
      r := Missing;
      if node != SkipList.NIL {
        IsNode(node, InternalKey(key, TagOf(s, VALUE)));
        ghost var e := entries[node - 1];
        FieldsAreRead(e);
        var found := Prefixed(nodes[node]);
        if UserKey(found.value) == key {
          var tag := DecodeFixed64(found.value[|found.value| - 8..]);
          if tag % 256 == VALUE {
            r := Found(Prefixed(found.rest).value);
          } else {
            r := NotFound;
          }
          assert IsNewest(Contents(), key, s, e) && r == Answer(e.update);
          OnlyOneNewest(entries, key, s, e);
        }
      }
    }

    lemma IsNode(node: int, k: InternalKey)
      requires Valid() && IsFirst(entries, node, k) && node != SkipList.NIL
      ensures 0 < node < |nodes| == |entries| + 1 && ValidEntry(entries[node - 1])
      ensures nodes[node] == EncodeEntry(entries[node - 1])
    {
      EntryIn(node - 1);
    }
  }

  // ---- Applying a batch

  /** Updates with consecutive sequence numbers from `first`. */
  ghost function Numbered(first: nat, us: seq<Update>): set<Entry> {
    set i | 0 <= i < |us| :: Entry(first + i, us[i])
  }

  lemma NumberedOneMore(first: nat, us: seq<Update>, i: nat)
    requires i < |us|
    ensures Numbered(first, us[..i + 1]) == Numbered(first, us[..i]) + {Entry(first + i, us[i])}
  {
    var before, after := Numbered(first, us[..i]), Numbered(first, us[..i + 1]);
    forall e | e in after ensures e in before || e == Entry(first + i, us[i]) {
      var j :| 0 <= j < i + 1 && e == Entry(first + j, us[..i + 1][j]);
      assert j < i ==> e == Entry(first + j, us[..i][j]);
    }
    forall e | e in before ensures e in after {
      var j :| 0 <= j < i && e == Entry(first + j, us[..i][j]);
      assert e == Entry(first + j, us[..i + 1][j]);
    }
    assert Entry(first + i, us[..i + 1][i]) in after;
  }

  lemma LaterIsNew(e: Entry, f: Entry)
    requires e.seqno < f.seqno
    ensures KeyOf(e) != KeyOf(f)
  {
  }

  /** WriteBatchInternal::InsertInto: the updates that can be read are added, though a later one is corrupt. */
  method InsertInto(b: WriteBatch, mem: MemTable) returns (status: Status)
    requires b.Valid() && mem.Valid() && b.Sequence() + |Scan(b.Data()).updates| <= MAX_SEQUENCE
    requires forall u :: u in Scan(b.Data()).updates ==> |u.key| + 8 < 0x1_0000_0000
    requires forall e :: e in mem.Contents() ==> e.seqno < b.Sequence()
    modifies mem, mem.list
    ensures mem.Valid() && mem.Contents() == old(mem.Contents()) + Numbered(b.Sequence(), Scan(b.Data()).updates)
    ensures status == Fine ==> Scan(b.Data()).status == Fine && |Scan(b.Data()).updates| == b.Count()
  {
    hide Scan;
    var handed;
    handed, status := b.Iterate();
    var sequence := b.Sequence();
    assert Numbered(b.Sequence(), handed[..0]) == {};
    for i := 0 to |handed|
      invariant mem.Valid() && b.rep == old(b.rep) && sequence == b.Sequence() + i
      invariant mem.Contents() == old(mem.Contents()) + Numbered(b.Sequence(), handed[..i])
      invariant forall e :: e in mem.Contents() ==> e.seqno < sequence
    {
      forall e | e in mem.Contents() ensures KeyOf(e) != KeyOf(Entry(sequence, handed[i])) {
        LaterIsNew(e, Entry(sequence, handed[i]));
      }
      NumberedOneMore(b.Sequence(), handed, i);
      mem.Add(sequence, handed[i]);
      sequence := sequence + 1;
    }
    assert handed[..|handed|] == handed;
  }

  /** Of the updates of a key in one batch, the last is the one that is read. */
  lemma LastUpdateWins(es: set<Entry>, first: nat, us: seq<Update>, i: nat, s: nat)
    requires (forall e :: e in es ==> e.seqno < first) && i < |us| && first + |us| <= s + 1
    requires forall j :: i < j < |us| ==> us[j].key != us[i].key
    ensures IsNewest(es + Numbered(first, us), us[i].key, s, Entry(first + i, us[i]))
  {
    var e := Entry(first + i, us[i]);
    assert e in Numbered(first, us);
    forall f | f in es + Numbered(first, us) && Visible(f, us[i].key, s) ensures KeyOf(f).tag <= KeyOf(e).tag {
      if f in Numbered(first, us) {
        var j :| 0 <= j < |us| && f == Entry(first + j, us[j]);
        assert j <= i;
      }
    }
  }
}
