/**
 A whole compaction, from the files picked to the files written: SetupOtherInputs gathers the
 inputs (db/version_set.cc), a merging iterator reads them, and DoCompactionWork writes what
 is kept (db/db_impl.cc). What comes out is the `Work` that module Lsm takes as one step.
 */
module CompactionRun {
  import opened Config
  import opened DbFormat
  import opened Options
  import opened Iterators
  import opened VersionSet
  import opened Lookup
  import opened Merger
  import opened Compaction
  import opened Lsm

  // ---------------------------------------------------------------- the sorted union of lists

  /** Merging two sorted lists that share no key. */
  lemma {:induction false} MergeTwo(a: seq<Entry>, b: seq<Entry>) returns (m: seq<Entry>)
    requires Sorted(a) && Sorted(b) && NoCommonKey(a, b)
    ensures Sorted(m) && forall e :: e in m <==> e in a || e in b
    decreases |a| + |b|
  {
    if a == [] {
      m := b;
    } else if b == [] {
      m := a;
    } else {
      assert a[0] in a && b[0] in b;
      if Before(a[0].key, b[0].key) {
        m := MergeTwo(a[1..], b);
        PutInFront(a[0], a, b, m);
        m := [a[0]] + m;
      } else {
        m := MergeTwo(a, b[1..]);
        PutInFront(b[0], b, a, m);
        m := [b[0]] + m;
      }
    }
  }

  /** The first of one list goes before the merge of the rest with the other, if it is before all of that. */
  lemma PutInFront(e: Entry, a: seq<Entry>, b: seq<Entry>, m: seq<Entry>)
    requires a != [] && e == a[0] && b != [] && Before(e.key, b[0].key) && Sorted(a) && Sorted(b)
    requires Sorted(m) && forall x :: x in m <==> x in a[1..] || x in b
    ensures Sorted([e] + m) && forall x :: x in [e] + m <==> x in a || x in b
  {
    forall x | x in m ensures Before(e.key, x.key) {
      if x in b {
        var j :| 0 <= j < |b| && b[j] == x;
        assert j == 0 || Before(b[0].key, b[j].key);
      } else {
        var i :| 0 <= i < |a[1..]| && a[1..][i] == x;
        assert a[i + 1] == x;
      }
    }
    assert a == [a[0]] + a[1..];
  }

  ghost predicate Mergeable(lists: seq<seq<Entry>>) {
    && (forall i :: 0 <= i < |lists| ==> Sorted(lists[i]))
    && forall i, j :: 0 <= i < j < |lists| ==> NoCommonKey(lists[i], lists[j])
  }

  /** Sorted lists that share no key have a sorted union. */
  lemma {:induction false} SortedUnion(lists: seq<seq<Entry>>) returns (merged: seq<Entry>)
    requires Mergeable(lists)
    ensures IsUnion(lists, merged)
  {
    if lists == [] {
      merged := [];
    } else {
      var n := |lists| - 1;
      var front := SortedUnion(lists[..n]);
      assert NoCommonKey(front, lists[n]) by {
        forall e, e' | e in front && e' in lists[n] ensures e.key != e'.key {
          var i :| 0 <= i < n && e in lists[..n][i];
          assert NoCommonKey(lists[i], lists[n]);
        }
      }
      merged := MergeTwo(front, lists[n]);
      forall e ensures e in merged <==> exists i :: 0 <= i < |lists| && e in lists[i] {
        if e in front {
          var i :| 0 <= i < n && e in lists[..n][i];
          assert e in lists[i];
        }
        if i :| 0 <= i < n && e in lists[i] {
          assert e in lists[..n][i];
        }
      }
    }
  }

  // ---------------------------------------------------------------- reading the inputs

  function EntryLists(fs: seq<File>): seq<seq<Entry>> {
    seq(|fs|, i requires 0 <= i < |fs| => fs[i].entries)
  }

  /** No two of the files hold one key. */
  ghost predicate Separate(fs: seq<File>) {
    forall i, j :: 0 <= i < j < |fs| ==> NoCommonKey(fs[i].entries, fs[j].entries)
  }

  /** MakeInputIterator: a child for each file. */
  method MakeInputIterator(fs: seq<File>) returns (iter: MergingIterator)
    requires Separate(fs)
    ensures fresh(iter) && fresh(iter.children) && iter.Ok() && IsUnion(EntryLists(fs), iter.merged)
  {
    hide MergingIterator.Ok, Sorted, IsUnion;
    ghost var merged := SortedUnion(EntryLists(fs));
    var children: seq<Cursor> := [];
    for i := 0 to |fs|
      invariant |children| == i && fresh(children)
      invariant forall j :: 0 <= j < i ==> StandsBehind(children[j], fs[j].entries)
      invariant forall j, k :: 0 <= j < k < i ==> children[j] != children[k]
    {
      var child := new Cursor(fs[i].entries);
      children := children + [child];
    }
    iter := new MergingIterator(children, EntryLists(fs), merged);
  }

  ghost predicate StandsBehind(c: Cursor, es: seq<Entry>)
    reads c
  {
    c.entries == es && c.Ok() && !c.Valid()
  }

  /** The entries of all inputs, one after the other. */
  method ReadInputs(fs: seq<File>) returns (input: seq<Entry>)
    requires Separate(fs)
    ensures Sorted(input) && Elements(input) == Entries(fs)
  {
    hide Separate, Elements, Entries, Sorted, MergingIterator.Watched;
    var iter := MakeInputIterator(fs);
    iter.SeekToFirst();
    input := [];
    while iter.Valid()
      invariant fresh(iter) && fresh(iter.children) && iter.Ok()
      invariant iter.Position() <= |iter.merged| && input == iter.merged[..iter.Position()]
      invariant !iter.Valid() ==> iter.Position() == |iter.merged|
      decreases |iter.merged| - iter.Position()
    {
      input := input + [iter.Entry()];
      iter.Next();
      AtMostAll(iter);
    }
    assert input == iter.merged;
    UnionIsEntries(fs, input);
  }

  lemma AtMostAll(iter: MergingIterator)
    requires iter.Ok()
    ensures iter.Position() <= |iter.merged| && (!iter.Valid() ==> iter.Position() == |iter.merged|)
  {
  }

  lemma UnionIsEntries(fs: seq<File>, merged: seq<Entry>)
    requires IsUnion(EntryLists(fs), merged)
    ensures Sorted(merged) && Elements(merged) == Entries(fs)
  {
    var lists := EntryLists(fs);
    forall e ensures e in merged <==> e in Entries(fs) {
      if e in merged {
        var i :| 0 <= i < |lists| && e in lists[i];
        assert fs[i] in fs;
      }
      if e in Entries(fs) {
        var f :| f in fs && e in f.entries;
        var i :| 0 <= i < |fs| && fs[i] == f;
        assert e in lists[i];
      }
    }
  }

  // ---------------------------------------------------------------- the inputs share no key

  lemma OrderedIsDistinct(fs: seq<File>)
    requires LevelOrdered(fs)
    ensures Distinct(fs)
  {
    forall i, j | 0 <= i < j < |fs| ensures fs[i] != fs[j] {
      InRange(fs[i], fs[i].entries[0]);
    }
  }

  /** A level after an edit names each file once. */
  lemma EditedIsDistinct(before: seq<File>, deleted: set<nat>, added: seq<File>, after: seq<File>)
    requires LevelEdited(before, deleted, added, after)
    ensures Distinct(after)
  {
    forall i, j | 0 <= i < j < |after| ensures after[i] != after[j] {
      assert BySmallestKey(after[i], after[j]);
    }
  }

  /** Two files of a version hold no common key. */
  lemma FilesAreSeparate(v: Version, l: nat, m: nat, f: File, g: File)
    requires ValidVersion(v) && Recent(v) && l <= m < |v| && f in v[l] && g in v[m] && (l == m ==> f != g)
    ensures NoCommonKey(f.entries, g.entries)
  {
    if l < m {
      assert NewerThan(f, g);
    } else if l == 0 {
      assert NewerThan(f, g) || NewerThan(g, f);
    } else {
      OrderedIsApart(v[l], f, g);
      forall e, e' | e in f.entries && e' in g.entries ensures e.key != e'.key {
        InRange(f, e);
        InRange(g, e');
      }
    }
  }

  lemma InputsAreSeparate(v: Version, level: nat, in0: seq<File>, in1: seq<File>)
    requires ValidVersion(v) && Recent(v) && level + 1 < NUM_LEVELS
    requires Subset(in0, v[level]) && Subset(in1, v[level + 1]) && Distinct(in0) && Distinct(in1)
    ensures Separate(in0 + in1)
  {
    var fs := in0 + in1;
    forall i, j | 0 <= i < j < |fs| ensures NoCommonKey(fs[i].entries, fs[j].entries) {
      assert i < |in0| ==> fs[i] in in0;
      assert j < |in0| ==> fs[j] in in0;
      assert i >= |in0| ==> fs[i] in in1;
      assert j >= |in0| ==> fs[j] in in1;
      FilesAreSeparate(v, if i < |in0| then level else level + 1, if j < |in0| then level else level + 1, fs[i], fs[j]);
    }
  }

  // ---------------------------------------------------------------- the compaction

  /** Compacts the files picked from `level`, at level 0 a clean cut; the result is a step of the store. */
  method CompactFiles(v: Version, level: nat, picked: seq<File>, smallestSnapshot: nat, nextFile: nat,
      sizeOf: File -> nat, maxBytes: nat) returns (w: Work)
    requires ValidVersion(v) && Recent(v) && level + 1 < NUM_LEVELS && Distinct(v[level])
    requires picked != [] && Subset(picked, v[level]) && Distinct(picked) && (level == 0 ==> CleanCut(v[0], picked))
    requires smallestSnapshot < MAX_SEQUENCE
    ensures w.level == level && w.smallestSnapshot == smallestSnapshot && Subset(picked, w.in0) && ValidWork(v, w)
    ensures forall i :: 0 <= i < |w.outputs| ==> w.outputs[i].number == nextFile + i
    ensures NoGap(picked) ==> NoGap(w.in0 + w.in1)
  {
    hide NoGap, CoversNextLevel, CleanCut, Recent, Kept, Flatten, Sorted, Elements, Entries, Separate, LevelOrdered;
    var in0, in1 := SetupOtherInputs(v, level, picked, sizeOf, maxBytes);
    InputsOfNextLevel(v, level, in0, in1);
    InputsAreSeparate(v, level, in0, in1);
    var input := ReadInputs(in0 + in1);
    InputIsValid(in0 + in1, input);
    EntriesOfBoth(in0, in1);
    var state := new CompactionState(v, level);
    var outputs := state.DoCompactionWork(input, smallestSnapshot, nextFile);
    w := Work(level, in0, in1, input, outputs, smallestSnapshot);
    assert picked[0] in in0;
  }

  lemma InputsOfNextLevel(v: Version, level: nat, in0: seq<File>, in1: seq<File>)
    requires ValidVersion(v) && level + 1 < NUM_LEVELS && CoversNextLevel(v[level + 1], in0, in1)
    ensures Distinct(in1)
  {
    OrderedIsDistinct(v[level + 1]);
    var lo, hi :| IsRange(in0, lo, hi)
      && in1 == OverlappingUpTo(v[level + 1], |v[level + 1]|, Some(lo.ukey), Some(hi.ukey));
    OverlappingIsDistinct(v[level + 1], |v[level + 1]|, Some(lo.ukey), Some(hi.ukey));
  }

  lemma InputIsValid(fs: seq<File>, input: seq<Entry>)
    requires Elements(input) == Entries(fs)
    ensures forall e :: e in input ==> e.key.seqno <= MAX_SEQUENCE
  {
    forall e | e in input ensures e.key.seqno <= MAX_SEQUENCE {
      assert e in Entries(fs);
    }
  }

  lemma EntriesOfBoth(a: seq<File>, b: seq<File>)
    ensures Entries(a + b) == Entries(a) + Entries(b)
  {
  }
}
