/**
 The store as a state machine over its version-changing steps, and the promise that ties
 the steps together: a read at any snapshot a caller may still hold returns the newest
 write at or below it, however memtables were flushed and files moved or compacted.
 */
module Lsm {
  import opened Config
  import opened DbFormat
  import opened Options
  import opened VersionSet
  import opened Lookup
  import opened Compaction

  datatype State = State(
    mem: seq<Entry>,            // mem_, in key order
    imm: Option<seq<Entry>>,    // imm_
    v: Version,                 // versions_->current()
    lastSequence: nat,
    snapshots: multiset<nat>,
    nextFile: nat,
    history: set<Entry>,        // every entry ever written
    floor: nat)                 // the largest smallest_snapshot a compaction has used

  datatype Op = Op(ukey: UserKey, kind: Kind, value: Val)

  ghost function Elements(es: seq<Entry>): set<Entry> {
    set e | e in es
  }

  ghost function ImmElements(st: State): set<Entry> {
    if st.imm.Some? then Elements(st.imm.value) else {}
  }

  /** What the store still holds. */
  ghost function Live(st: State): set<Entry> {
    Elements(st.mem) + ImmElements(st) + VersionEntries(st.v)
  }

  // ---------------------------------------------------------------- steps

  /** MemTableInserter: the i-th operation of a batch gets sequence number `first + i`. */
  ghost function BatchEntries(batch: seq<Op>, first: nat): set<Entry> {
    set i | 0 <= i < |batch| :: Entry(IKey(batch[i].ukey, first + i, batch[i].kind), batch[i].value)
  }

  ghost predicate Write(st: State, st': State, batch: seq<Op>) {
    && st.lastSequence + |batch| < MAX_SEQUENCE
    && Sorted(st'.mem)
    && Elements(st'.mem) == Elements(st.mem) + BatchEntries(batch, st.lastSequence + 1)
    && st' == st.(mem := st'.mem, lastSequence := st.lastSequence + |batch|,
                  history := st.history + BatchEntries(batch, st.lastSequence + 1))
  }

  /** The memtable switch of MakeRoomForWrite. */
  ghost predicate SwitchMemTable(st: State, st': State) {
    st.imm.None? && st' == st.(imm := Some(st.mem), mem := [])
  }

  /** BySmallestKey. */
  predicate BySmallestKey(f: File, g: File) {
    Before(Smallest(f), Smallest(g)) || (Smallest(f) == Smallest(g) && f.number < g.number)
  }

  /** What applying an edit does to one level: files by smallest key, deleted numbers gone, new files in. */
  ghost predicate LevelEdited(old_: seq<File>, deleted: set<nat>, added: seq<File>, new_: seq<File>) {
    && (forall f :: f in new_ <==> (f in old_ && f.number !in deleted) || f in added)
    && forall i, j :: 0 <= i < j < |new_| ==> BySmallestKey(new_[i], new_[j])
  }

  ghost predicate VersionEdited(v: Version, v': Version, level: nat, del0: set<nat>, del1: set<nat>, add0: seq<File>,
      add1: seq<File>)
    requires |v| == NUM_LEVELS && level < NUM_LEVELS
  {
    && |v'| == NUM_LEVELS
    && LevelEdited(v[level], del0, add0, v'[level])
    && (level + 1 < NUM_LEVELS ==> LevelEdited(v[level + 1], del1, add1, v'[level + 1]))
    && forall l :: 0 <= l < NUM_LEVELS && l != level && l != level + 1 ==> v'[l] == v[l]
  }

  /** CompactMemTable with WriteLevel0Table; an empty memtable leaves no file. */
  ghost predicate Flush(st: State, st': State, level: nat) {
    && st.imm.Some?
    && |st.v| == NUM_LEVELS
    && if st.imm.value == [] then st' == st.(imm := None)
       else
         var t := Table(st.nextFile, st.imm.value);
         && ValidTable(t)
         && var f: File := t;
         && level <= MAX_MEM_COMPACT_LEVEL
         && (level > 0 ==> forall l :: 0 <= l <= level ==> NoOverlap(st.v[l], Smallest(f).ukey, Largest(f).ukey))
         && VersionEdited(st.v, st'.v, level, {}, {}, [f], [])
         && st' == st.(imm := None, v := st'.v, nextFile := st.nextFile + 1)
  }

  ghost function Numbers(fs: seq<File>): set<nat> {
    set f | f in fs :: f.number
  }

  /** A trivial move: one input file, nothing to merge with one level down. */
  ghost predicate TrivialMove(st: State, st': State, level: nat, f: File) {
    && |st.v| == NUM_LEVELS && level + 1 < NUM_LEVELS
    && f in st.v[level] && (level == 0 ==> CleanCut(st.v[0], [f]))
    && NoOverlap(st.v[level + 1], Smallest(f).ukey, Largest(f).ukey)
    && VersionEdited(st.v, st'.v, level, {f.number}, {}, [], [f])
    && st' == st.(v := st'.v)
  }

  /** smallest_snapshot of DoCompactionWork. */
  ghost predicate SmallestSnapshot(st: State, s: nat) {
    if st.snapshots == multiset{} then s == st.lastSequence
    else s in st.snapshots && forall x :: x in st.snapshots ==> s <= x
  }

  datatype Work = Work(level: nat, in0: seq<File>, in1: seq<File>, input: seq<Entry>, outputs: seq<File>,
      smallestSnapshot: nat)

  /** The inputs SetupOtherInputs gathers, merged in key order; only at level 0 are they sure to be a clean cut. */
  ghost predicate ValidWork(v: Version, w: Work) {
    && |v| == NUM_LEVELS && w.level + 1 < NUM_LEVELS
    && w.in0 != [] && Subset(w.in0, v[w.level]) && Subset(w.in1, v[w.level + 1])
    && CoversNextLevel(v[w.level + 1], w.in0, w.in1)
    && (w.level == 0 ==> CleanCut(v[0], w.in0))
    && Sorted(w.input) && Elements(w.input) == Entries(w.in0) + Entries(w.in1)
    && Flatten(w.outputs) == Kept(w.input, |w.input|, v, w.level, w.smallestSnapshot)
  }

  /** DoCompactionWork and InstallCompactionResults. */
  ghost predicate Compact(st: State, st': State, w: Work) {
    && ValidWork(st.v, w)
    && SmallestSnapshot(st, w.smallestSnapshot)
    && (forall i :: 0 <= i < |w.outputs| ==> w.outputs[i].number == st.nextFile + i)
    && VersionEdited(st.v, st'.v, w.level, Numbers(w.in0), Numbers(w.in1), [], w.outputs)
    && st' == st.(v := st'.v, nextFile := st.nextFile + |w.outputs|, floor := w.smallestSnapshot)
  }

  ghost predicate GetSnapshot(st: State, st': State) {
    st' == st.(snapshots := st.snapshots + multiset{st.lastSequence})
  }

  ghost predicate ReleaseSnapshot(st: State, st': State, s: nat) {
    s in st.snapshots && st' == st.(snapshots := st.snapshots - multiset{s})
  }

  ghost predicate Init(st: State) {
    st == State([], None, seq(NUM_LEVELS, i => []), 0, multiset{}, 2, {}, 0)
  }

  /** What may happen while a compaction runs. */
  ghost predicate Meanwhile(st: State, st': State) {
    || (exists batch :: Write(st, st', batch))
    || SwitchMemTable(st, st')
    || (exists level :: Flush(st, st', level))
    || GetSnapshot(st, st')
    || (exists s :: ReleaseSnapshot(st, st', s))
  }

  ghost predicate Next(st: State, st': State) {
    || Meanwhile(st, st')
    || (exists level, f :: TrivialMove(st, st', level, f))
    || (exists w :: Compact(st, st', w))
  }

  // ---------------------------------------------------------------- invariant

  ghost predicate AllNewer(a: set<Entry>, b: set<Entry>) {
    forall e, e' :: e in a && e' in b ==> e.key.seqno > e'.key.seqno
  }

  /** A file number names one file at one level. */
  ghost predicate UniqueNumbers(v: Version, nextFile: nat) {
    && (forall l, f {:trigger f in v[l]} :: 0 <= l < |v| && f in v[l] ==> f.number < nextFile)
    && forall l, m, f, g {:trigger f in v[l], g in v[m]} ::
       0 <= l < |v| && 0 <= m < |v| && f in v[l] && g in v[m] && f.number == g.number ==> l == m && f == g
  }

  ghost predicate WellFormed(st: State) {
    && ValidVersion(st.v) && Recent(st.v) && UniqueNumbers(st.v, st.nextFile)
    && Sorted(st.mem) && (st.imm.Some? ==> Sorted(st.imm.value))
    && AllNewer(Elements(st.mem), ImmElements(st))
    && AllNewer(Elements(st.mem), VersionEntries(st.v))
    && AllNewer(ImmElements(st), VersionEntries(st.v))
  }

  ghost predicate Bounded(st: State) {
    && st.lastSequence < MAX_SEQUENCE
    && Live(st) <= st.history && UniqueVersions(st.history)
    && (forall e :: e in st.history ==> e.key.seqno <= st.lastSequence)
    && st.floor <= st.lastSequence
    && forall s :: s in st.snapshots ==> st.floor <= s <= st.lastSequence
  }

  /** Reads at or above the floor see the whole history. */
  ghost predicate Faithful(st: State) {
    forall k, s :: s >= st.floor ==> ReadAt(Live(st), k, s) == ReadAt(st.history, k, s)
  }

  ghost predicate Inv(st: State) {
    WellFormed(st) && Bounded(st) && Faithful(st)
  }

  // ---------------------------------------------------------------- levels stay sorted and disjoint

  predicate Apart(f: File, g: File) {
    Before(Largest(f), Smallest(g)) || Before(Largest(g), Smallest(f))
  }

  /** Sorting pairwise disjoint files by smallest key gives a sorted, disjoint level. */
  lemma ApartIsOrdered(fs: seq<File>)
    requires forall i, j :: 0 <= i < j < |fs| ==> BySmallestKey(fs[i], fs[j])
    requires forall f, g :: f in fs && g in fs && f != g ==> Apart(f, g)
    ensures LevelOrdered(fs)
  {
    forall i, j | 0 <= i < j < |fs| ensures Before(Largest(fs[i]), Smallest(fs[j])) {
      var f, g := fs[i], fs[j];
      assert BySmallestKey(f, g);
      assert f in fs && g in fs;
      InRange(f, f.entries[0]);
      InRange(g, g.entries[0]);
    }
  }

  lemma OrderedIsApart(fs: seq<File>, f: File, g: File)
    requires LevelOrdered(fs) && f in fs && g in fs && f != g
    ensures Apart(f, g)
  {
    var i :| 0 <= i < |fs| && fs[i] == f;
    var j :| 0 <= j < |fs| && fs[j] == g;
  }

  lemma NoOverlapIsApart(fs: seq<File>, f: File, g: File)
    requires NoOverlap(fs, Smallest(f).ukey, Largest(f).ukey) && g in fs
    ensures Apart(f, g) && SharesNoKey(f, g)
  {
    assert !Overlaps(g, Some(Smallest(f).ukey), Some(Largest(f).ukey));
    forall e, e' | e in f.entries && e' in g.entries ensures e.key.ukey != e'.key.ukey {
      InRange(f, e);
      InRange(g, e');
    }
  }

  /** Adding one file whose range touches nothing keeps a level ordered. */
  lemma AddApart(old_: seq<File>, deleted: set<nat>, f: File, new_: seq<File>)
    requires LevelOrdered(old_) && LevelEdited(old_, deleted, [f], new_)
    requires NoOverlap(old_, Smallest(f).ukey, Largest(f).ukey)
    ensures LevelOrdered(new_)
  {
    forall a, b | a in new_ && b in new_ && a != b ensures Apart(a, b) {
      if a != f && b != f {
        OrderedIsApart(old_, a, b);
      } else {
        NoOverlapIsApart(old_, f, if a == f then b else a);
      }
    }
    ApartIsOrdered(new_);
  }

  lemma RemoveKeepsOrder(old_: seq<File>, deleted: set<nat>, new_: seq<File>)
    requires LevelOrdered(old_) && LevelEdited(old_, deleted, [], new_)
    ensures LevelOrdered(new_)
  {
    forall a, b | a in new_ && b in new_ && a != b ensures Apart(a, b) {
      OrderedIsApart(old_, a, b);
    }
    ApartIsOrdered(new_);
  }

  lemma FrontSorted(a: seq<Entry>, b: seq<Entry>)
    requires Sorted(a + b)
    ensures Sorted(a)
  {
    forall i, j | 0 <= i < j < |a| ensures Before(a[i].key, a[j].key) {
      assert Before((a + b)[i].key, (a + b)[j].key);
    }
  }

  lemma {:induction false} EntriesFlattened(fs: seq<File>, f: File, e: Entry)
    requires f in fs && e in f.entries
    ensures e in Flatten(fs)
    decreases |fs|
  {
    if f != fs[|fs| - 1] {
      assert f in fs[..|fs| - 1];
      EntriesFlattened(fs[..|fs| - 1], f, e);
    }
  }

  /** In a sorted run, a file ends before the last one starts. */
  lemma {:induction false} EndsBeforeLast(fs: seq<File>, i: nat)
    requires Sorted(Flatten(fs)) && i + 1 < |fs|
    ensures Before(Largest(fs[i]), Smallest(fs[|fs| - 1]))
  {
    var n := |fs| - 1;
    var a, e := Flatten(fs[..n]), fs[i].entries[|fs[i].entries| - 1];
    assert fs[..n][i] == fs[i];
    EntriesFlattened(fs[..n], fs[i], e);
    var j :| 0 <= j < |a| && a[j] == e;
    assert Flatten(fs) == a + fs[n].entries && Flatten(fs)[j] == e && Flatten(fs)[|a|] == fs[n].entries[0];
  }

  /** Cutting a sorted run into files yields an ordered level. */
  lemma {:induction false} CutIsOrdered(fs: seq<File>)
    requires Sorted(Flatten(fs))
    ensures LevelOrdered(fs)
    ensures forall f, e :: f in fs && e in f.entries ==> e in Flatten(fs)
  {
    forall f, e | f in fs && e in f.entries ensures e in Flatten(fs) {
      EntriesFlattened(fs, f, e);
    }
    if fs != [] {
      var front := fs[..|fs| - 1];
      FrontSorted(Flatten(front), fs[|fs| - 1].entries);
      CutIsOrdered(front);
      hide Flatten, Sorted;
      forall i, j | 0 <= i < j < |fs| ensures Before(Largest(fs[i]), Smallest(fs[j])) {
        if j < |front| {
          assert Before(Largest(front[i]), Smallest(front[j]));
        } else {
          EndsBeforeLast(fs, i);
        }
      }
    }
  }

  /** Every entry an output holds was read from the input. */
  lemma OutputIsInput(v: Version, w: Work, f: File, e: Entry)
    requires Sorted(w.input) && Flatten(w.outputs) == Kept(w.input, |w.input|, v, w.level, w.smallestSnapshot)
    requires f in w.outputs && e in f.entries
    ensures e in w.input
  {
    KeptSorted(w.input, |w.input|, v, w.level, w.smallestSnapshot);
    KeptMembers(w.input, |w.input|, v, w.level, w.smallestSnapshot);
    CutIsOrdered(w.outputs);
    assert e in Flatten(w.outputs);
  }

  lemma InputOrigin(w: Work, x: Entry) returns (h: File)
    requires Elements(w.input) == Entries(w.in0) + Entries(w.in1) && x in w.input
    ensures (h in w.in0 || h in w.in1) && x in h.entries
  {
    assert x in Elements(w.input);
    if x in Entries(w.in0) {
      h :| h in w.in0 && x in h.entries;
    } else {
      h :| h in w.in1 && x in h.entries;
    }
  }

  lemma AsideOfEach(next: seq<File>, w: Work, lo: IKey, hi: IKey, g: File, x: Entry)
    requires LevelOrdered(next) && IsRange(w.in0, lo, hi)
    requires forall h :: h in w.in1 ==> h in next && Overlaps(h, Some(lo.ukey), Some(hi.ukey))
    requires g in next && g !in w.in1
    requires Elements(w.input) == Entries(w.in0) + Entries(w.in1) && x in w.input
    ensures Largest(g).ukey < lo.ukey ==> Before(Largest(g), x.key)
    ensures Smallest(g).ukey > hi.ukey ==> Before(x.key, Smallest(g))
  {
    var h := InputOrigin(w, x);
    InRange(h, x);
    InRange(h, h.entries[0]);
    InRange(g, g.entries[0]);
    if h in w.in1 {
      OrderedIsApart(next, g, h);
    }
  }

  /** A file of level+1 left out of a compaction lies wholly before or wholly after everything merged. */
  lemma UnchosenIsAside(next: seq<File>, w: Work, g: File)
    requires LevelOrdered(next) && CoversNextLevel(next, w.in0, w.in1)
    requires Elements(w.input) == Entries(w.in0) + Entries(w.in1)
    requires g in next && g !in w.in1
    ensures (forall x :: x in w.input ==> Before(Largest(g), x.key))
            || (forall x :: x in w.input ==> Before(x.key, Smallest(g)))
  {
    var lo, hi :| IsRange(w.in0, lo, hi) && w.in1 == OverlappingUpTo(next, |next|, Some(lo.ukey), Some(hi.ukey));
    OverlappingMembers(next, |next|, Some(lo.ukey), Some(hi.ukey));
    assert next[..|next|] == next;
    assert !Overlaps(g, Some(lo.ukey), Some(hi.ukey));
    forall x | x in w.input
      ensures Largest(g).ukey < lo.ukey ==> Before(Largest(g), x.key)
      ensures Smallest(g).ukey > hi.ukey ==> Before(x.key, Smallest(g))
    {
      AsideOfEach(next, w, lo, hi, g, x);
    }
  }

  /** A compaction keeps level+1 ordered. */
  lemma CompactKeepsOrder(v: Version, w: Work, new_: seq<File>)
    requires ValidVersion(v) && ValidWork(v, w)
    requires LevelEdited(v[w.level + 1], Numbers(w.in1), w.outputs, new_)
    ensures LevelOrdered(new_)
  {
    KeptSorted(w.input, |w.input|, v, w.level, w.smallestSnapshot);
    CutIsOrdered(w.outputs);
    forall a, b | a in new_ && b in new_ && a != b ensures Apart(a, b) {
      if a in w.outputs && b in w.outputs {
        OrderedIsApart(w.outputs, a, b);
      } else if a in w.outputs {
        OutputIsApart(v, w, a, b);
      } else if b in w.outputs {
        OutputIsApart(v, w, b, a);
      } else {
        OrderedIsApart(v[w.level + 1], a, b);
      }
    }
    ApartIsOrdered(new_);
  }

  lemma OutputIsApart(v: Version, w: Work, f: File, g: File)
    requires ValidVersion(v) && ValidWork(v, w)
    requires f in w.outputs && g in v[w.level + 1] && g.number !in Numbers(w.in1)
    ensures Apart(f, g)
  {
    UnchosenIsAside(v[w.level + 1], w, g);
    OutputIsInput(v, w, f, f.entries[0]);
    OutputIsInput(v, w, f, f.entries[|f.entries| - 1]);
  }

  // ---------------------------------------------------------------- recency

  /** `v'` is `v` with `f` added at `level`. */
  ghost predicate Added(v: Version, v': Version, level: nat, f: File) {
    && |v| == |v'| == NUM_LEVELS && level < NUM_LEVELS
    && forall l, g {:trigger g in v'[l]} {:trigger g in v[l]} :: 0 <= l < NUM_LEVELS ==>
       (g in v'[l] <==> g in v[l] || (l == level && g == f))
  }

  lemma NewerThanLevel(fresh_: set<Entry>, v: Version, f: File, g: File, l: nat)
    requires Contents(f) <= fresh_ && AllNewer(fresh_, VersionEntries(v))
    requires l < |v| && g in v[l]
    ensures NewerThan(f, g)
  {
    forall e, e' | e in f.entries && e' in g.entries ensures e.key.seqno > e'.key.seqno {
      assert e in Contents(f) && e' in Entries(v[l]) && e' in VersionEntries(v);
    }
  }

  lemma AddedIsRecent(v: Version, v': Version, level: nat, f: File)
    requires Added(v, v', level, f) && Recent(v)
    requires AllNewer(Contents(f), VersionEntries(v))
    requires forall l, g :: 0 <= l < NUM_LEVELS && g in v[l] ==> g.number < f.number
    requires forall l :: 0 <= l < level ==> NoOverlap(v[l], Smallest(f).ukey, Largest(f).ukey)
    ensures Recent(v')
  {
    forall l, m, a, b | 0 <= l < m < |v'| && a in v'[l] && b in v'[m] ensures NewerThan(a, b) {
      if a in v[l] && b in v[m] {
      } else if a in v[l] {
        NoOverlapIsApart(v[l], f, a);
      } else {
        NewerThanLevel(Contents(f), v, f, b, m);
      }
    }
    forall a, b | a in v'[0] && b in v'[0] && a.number > b.number ensures NewerThan(a, b) {
      if b in v[0] && a !in v[0] {
        NewerThanLevel(Contents(f), v, f, b, 0);
      }
    }
  }

  lemma AddedNumbers(v: Version, v': Version, level: nat, f: File)
    requires Added(v, v', level, f) && UniqueNumbers(v, f.number)
    ensures UniqueNumbers(v', f.number + 1)
  {
    forall l, m, a, b | 0 <= l < |v'| && 0 <= m < |v'| && a in v'[l] && b in v'[m] && a.number == b.number
      ensures l == m && a == b
    {
      assert a in v[l] || (l == level && a == f);
      assert b in v[m] || (m == level && b == f);
    }
  }

  lemma AddedEntries(v: Version, v': Version, f: File, level: nat)
    requires Added(v, v', level, f)
    ensures VersionEntries(v') == VersionEntries(v) + Contents(f)
  {
    forall e ensures e in VersionEntries(v') <==> e in VersionEntries(v) + Contents(f) {
      if e in Contents(f) {
        assert f in v'[level] && e in Entries(v'[level]);
      }
      if l :| 0 <= l < NUM_LEVELS && e in Entries(v[l]) {
        assert e in Entries(v'[l]);
      }
      if l :| 0 <= l < NUM_LEVELS && e in Entries(v'[l]) && e !in Contents(f) {
        assert e in Entries(v[l]);
      }
    }
  }

  lemma AddedIsValid(v: Version, v': Version, level: nat, f: File)
    requires ValidVersion(v) && level <= MAX_MEM_COMPACT_LEVEL
    requires VersionEdited(v, v', level, {}, {}, [f], [])
    requires level > 0 ==> NoOverlap(v[level], Smallest(f).ukey, Largest(f).ukey)
    ensures ValidVersion(v') && Added(v, v', level, f)
  {
    if level > 0 {
      AddApart(v[level], {}, f, v'[level]);
    }
    RemoveKeepsOrder(v[level + 1], {}, v'[level + 1]);
  }

  /** A flush keeps the levels in order, at whichever level PickLevelForMemTableOutput puts the file. */
  lemma FlushKeepsOrder(st: State, st': State, level: nat)
    requires WellFormed(st) && Flush(st, st', level) && st.imm.value != []
    ensures ValidVersion(st'.v) && Recent(st'.v) && UniqueNumbers(st'.v, st'.nextFile)
    ensures VersionEntries(st'.v) == VersionEntries(st.v) + ImmElements(st)
  {
    var v, v' := st.v, st'.v;
    var f: File := Table(st.nextFile, st.imm.value);
    AddedIsValid(v, v', level, f);
    assert Contents(f) == ImmElements(st);
    AddedIsRecent(v, v', level, f);
    AddedNumbers(v, v', level, f);
    AddedEntries(v, v', f, level);
  }

  /** `v'` is `v` with `f` taken from `level` to the level below. */
  ghost predicate Moved(v: Version, v': Version, level: nat, f: File) {
    && |v| == |v'| == NUM_LEVELS && level + 1 < NUM_LEVELS && f in v[level]
    && forall l, g {:trigger g in v'[l]} {:trigger g in v[l]} :: 0 <= l < NUM_LEVELS ==>
         (g in v'[l] <==> (g in v[l] && !(l == level && g == f)) || (l == level + 1 && g == f))
  }

  lemma MovedIsRecent(v: Version, v': Version, level: nat, f: File)
    requires Moved(v, v', level, f) && Recent(v)
    requires forall g :: g in v[level] && g != f ==> NewerThan(g, f)
    ensures Recent(v')
  {
    forall l, m, a, b | 0 <= l < m < |v'| && a in v'[l] && b in v'[m] ensures NewerThan(a, b) {
      if a in v[l] && b in v[m] {
      } else if b in v[m] {
        assert f in v[level];
      } else if l < level {
        assert a in v[l] && f in v[level];
      }
    }
  }

  lemma MovedNumbers(v: Version, v': Version, level: nat, f: File, nextFile: nat)
    requires Moved(v, v', level, f) && UniqueNumbers(v, nextFile)
    ensures UniqueNumbers(v', nextFile)
  {
    forall l, m, a, b | 0 <= l < |v'| && 0 <= m < |v'| && a in v'[l] && b in v'[m] && a.number == b.number
      ensures l == m && a == b
    {
      assert a in v[if l == level + 1 && a == f then level else l];
      assert b in v[if m == level + 1 && b == f then level else m];
    }
  }

  lemma MovedEntries(v: Version, v': Version, level: nat, f: File)
    requires Moved(v, v', level, f)
    ensures VersionEntries(v') == VersionEntries(v)
  {
    forall e ensures e in VersionEntries(v') <==> e in VersionEntries(v) {
      if l: int, g: File :| 0 <= l < NUM_LEVELS && g in v[l] && e in g.entries {
        var l' := if l == level && g == f then level + 1 else l;
        assert g in v'[l'] && e in Entries(v'[l']);
      }
      if l: int, g: File :| 0 <= l < NUM_LEVELS && g in v'[l] && e in g.entries {
        var l' := if l == level + 1 && g == f then level else l;
        assert g in v[l'] && e in Entries(v[l']);
      }
    }
  }

  lemma MovedIsValid(v: Version, v': Version, level: nat, f: File)
    requires ValidVersion(v) && level + 1 < NUM_LEVELS && f in v[level]
    requires forall g :: g in v[level] && g.number == f.number ==> g == f
    requires VersionEdited(v, v', level, {f.number}, {}, [], [f])
    requires NoOverlap(v[level + 1], Smallest(f).ukey, Largest(f).ukey)
    ensures ValidVersion(v') && Moved(v, v', level, f)
  {
    AddApart(v[level + 1], {}, f, v'[level + 1]);
    if level > 0 {
      RemoveKeepsOrder(v[level], {f.number}, v'[level]);
    }
  }

  /** What a trivial move cannot break is all but recency. */
  lemma MoveKeepsShape(st: State, st': State, level: nat, f: File)
    requires WellFormed(st) && TrivialMove(st, st', level, f)
    ensures Moved(st.v, st'.v, level, f) && Live(st') == Live(st)
    ensures WellFormed(st') <==> Recent(st'.v)
  {
    hide Moved, Recent, UniqueNumbers, ValidVersion, VersionEdited, VersionEntries, Sorted, AllNewer, NoOverlap;
    NumberNames(st.v, st.nextFile, level, f);
    MovedIsValid(st.v, st'.v, level, f);
    MovedNumbers(st.v, st'.v, level, f, st.nextFile);
    MovedEntries(st.v, st'.v, level, f);
  }

  lemma NumberNames(v: Version, nextFile: nat, level: nat, f: File)
    requires UniqueNumbers(v, nextFile) && level < |v| && f in v[level]
    ensures forall g :: g in v[level] && g.number == f.number ==> g == f
  {
  }

  // ---------------------------------------------------------------- compaction

  ghost predicate Chosen(w: Work, l: nat, g: File) {
    (l == w.level && g in w.in0) || (l == w.level + 1 && g in w.in1)
  }

  /** `v'` is `v` with the inputs of `w` replaced by its outputs. */
  ghost predicate Replaced(v: Version, v': Version, w: Work) {
    && |v| == |v'| == NUM_LEVELS && w.level + 1 < NUM_LEVELS
    && (forall g :: g in w.in0 ==> g in v[w.level]) && (forall g :: g in w.in1 ==> g in v[w.level + 1])
    && forall l, g {:trigger g in v'[l]} {:trigger g in v[l]} :: 0 <= l < NUM_LEVELS ==>
         (g in v'[l] <==> (g in v[l] && !Chosen(w, l, g)) || (l == w.level + 1 && g in w.outputs))
  }

  lemma NumbersNameFiles(v: Version, l: nat, chosen: seq<File>, nextFile: nat)
    requires l < |v| && UniqueNumbers(v, nextFile) && Subset(chosen, v[l])
    ensures forall g :: g in v[l] ==> (g.number in Numbers(chosen) <==> g in chosen)
  {
    forall g | g in v[l] && g.number in Numbers(chosen) ensures g in chosen {
      var c :| c in chosen && c.number == g.number;
      assert c in v[l];
    }
  }

  lemma OtherLevelsStay(v: Version, v': Version, level: nat)
    requires ValidVersion(v) && |v'| == NUM_LEVELS && level + 1 < NUM_LEVELS
    requires forall l :: 0 <= l < NUM_LEVELS && l != level && l != level + 1 ==> v'[l] == v[l]
    requires LevelOrdered(v'[level + 1]) && (level > 0 ==> LevelOrdered(v'[level]))
    ensures ValidVersion(v')
  {
  }

  lemma EditReplaces(v: Version, v': Version, w: Work, nextFile: nat)
    requires |v| == NUM_LEVELS && w.level + 1 < NUM_LEVELS && UniqueNumbers(v, nextFile)
    requires Subset(w.in0, v[w.level]) && Subset(w.in1, v[w.level + 1])
    requires VersionEdited(v, v', w.level, Numbers(w.in0), Numbers(w.in1), [], w.outputs)
    ensures Replaced(v, v', w)
  {
    NumbersNameFiles(v, w.level, w.in0, nextFile);
    NumbersNameFiles(v, w.level + 1, w.in1, nextFile);
  }

  /** Every output entry comes from a chosen file, whose neighbours it may take over. */
  ghost predicate FromInputs(w: Work) {
    forall f, e :: f in w.outputs && e in f.entries ==> exists h :: (h in w.in0 || h in w.in1) && e in h.entries
  }

  lemma OutputsAreOlder(v: Version, w: Work, l: nat, a: File, b: File)
    requires Recent(v) && |v| == NUM_LEVELS && w.level + 1 < NUM_LEVELS && FromInputs(w)
    requires Subset(w.in0, v[w.level]) && Subset(w.in1, v[w.level + 1])
    requires l < w.level && a in v[l] && b in w.outputs
    ensures NewerThan(a, b)
  {
    forall e, e' | e in a.entries && e' in b.entries && e.key.ukey == e'.key.ukey ensures e.key.seqno > e'.key.seqno {
      var h :| (h in w.in0 || h in w.in1) && e' in h.entries;
      assert NewerThan(a, h);
    }
  }

  lemma OutputsAreNewer(v: Version, w: Work, m: nat, a: File, b: File)
    requires Recent(v) && |v| == NUM_LEVELS && FromInputs(w)
    requires w.level + 1 < NUM_LEVELS && Subset(w.in0, v[w.level]) && Subset(w.in1, v[w.level + 1])
    requires w.level + 1 < m < NUM_LEVELS && a in w.outputs && b in v[m]
    ensures NewerThan(a, b)
  {
    forall e, e' | e in a.entries && e' in b.entries && e.key.ukey == e'.key.ukey ensures e.key.seqno > e'.key.seqno {
      var h :| (h in w.in0 || h in w.in1) && e in h.entries;
      assert h in v[if h in w.in0 then w.level else w.level + 1];
      assert NewerThan(h, b);
    }
  }

  lemma ReplacedIsRecent(v: Version, v': Version, w: Work)
    requires Replaced(v, v', w) && Recent(v) && FromInputs(w)
    requires forall a, b :: a in v[w.level] && a !in w.in0 && b in w.outputs ==> NewerThan(a, b)
    ensures Recent(v')
  {
    forall l, m, a, b | 0 <= l < m < |v'| && a in v'[l] && b in v'[m] ensures NewerThan(a, b) {
      if a in v[l] && b in v[m] {
      } else if b in w.outputs && m == w.level + 1 {
        if l < w.level {
          OutputsAreOlder(v, w, l, a, b);
        }
      } else {
        OutputsAreNewer(v, w, m, a, b);
      }
    }
  }

  lemma ReplacedNumbers(v: Version, v': Version, w: Work, nextFile: nat)
    requires Replaced(v, v', w) && UniqueNumbers(v, nextFile)
    requires forall i :: 0 <= i < |w.outputs| ==> w.outputs[i].number == nextFile + i
    ensures UniqueNumbers(v', nextFile + |w.outputs|)
  {
    forall l, f | 0 <= l < |v'| && f in v'[l]
      ensures f.number < nextFile + |w.outputs|
      ensures if f.number < nextFile then f in v[l] else l == w.level + 1 && w.outputs[f.number - nextFile] == f
    {
    }
  }

  /** Entries of the files a compaction leaves alone. */
  ghost function Untouched(v: Version, w: Work): set<Entry> {
    set l, g, e | 0 <= l < |v| && g in v[l] && !Chosen(w, l, g) && e in g.entries :: e
  }

  lemma ReplacedEntries(v: Version, v': Version, w: Work)
    requires Replaced(v, v', w)
    requires Elements(w.input) == Entries(w.in0) + Entries(w.in1)
    ensures VersionEntries(v) == Elements(w.input) + Untouched(v, w)
    ensures VersionEntries(v') == Entries(w.outputs) + Untouched(v, w)
  {
    forall e ensures e in VersionEntries(v) <==> e in Elements(w.input) + Untouched(v, w) {
      if l: int, g: File :| 0 <= l < NUM_LEVELS && g in v[l] && e in g.entries {
        assert e in Entries(v[l]);
        if Chosen(w, l, g) {
          assert e in Entries(if l == w.level then w.in0 else w.in1);
        }
      }
      if e in Elements(w.input) {
        var g := InputOrigin(w, e);
        assert e in Entries(v[if g in w.in0 then w.level else w.level + 1]);
      }
    }
    forall e ensures e in VersionEntries(v') <==> e in Entries(w.outputs) + Untouched(v, w) {
      if l: int, g: File :| 0 <= l < NUM_LEVELS && g in v[l] && !Chosen(w, l, g) && e in g.entries {
        assert g in v'[l] && e in Entries(v'[l]);
      }
      if g: File :| g in w.outputs && e in g.entries {
        assert g in v'[w.level + 1] && e in Entries(v'[w.level + 1]);
      }
      if l: int, g: File :| 0 <= l < NUM_LEVELS && g in v'[l] && e in g.entries && e !in Entries(w.outputs) {
        assert g in v[l] && !Chosen(w, l, g);
      }
    }
  }

  lemma {:induction false} FlattenEntries(fs: seq<File>)
    ensures Elements(Flatten(fs)) == Entries(fs)
  {
    if fs != [] {
      var n := |fs| - 1;
      FlattenEntries(fs[..n]);
      assert fs == fs[..n] + [fs[n]];
      assert Entries(fs) == Entries(fs[..n]) + Contents(fs[n]);
      assert Elements(Flatten(fs)) == Elements(Flatten(fs[..n])) + Contents(fs[n]);
    }
  }

  /** Files of level+1 that a compaction does not take share no user key with its level-L inputs. */
  lemma UnchosenSharesNoKey(next: seq<File>, in0: seq<File>, in1: seq<File>, h: File, g: File)
    requires CoversNextLevel(next, in0, in1) && h in in0 && g in next && g !in in1
    ensures SharesNoKey(h, g)
  {
    var lo, hi :| IsRange(in0, lo, hi) && in1 == OverlappingUpTo(next, |next|, Some(lo.ukey), Some(hi.ukey));
    OverlappingMembers(next, |next|, Some(lo.ukey), Some(hi.ukey));
    assert next[..|next|] == next;
    forall e, x | e in h.entries && x in g.entries ensures e.key.ukey != x.key.ukey {
      InRange(h, e);
      InRange(g, x);
    }
  }

  ghost function Rest(st: State, w: Work): set<Entry> {
    Elements(st.mem) + ImmElements(st) + Untouched(st.v, w)
  }

  lemma LiveSplits(st: State, st': State, w: Work)
    requires Replaced(st.v, st'.v, w) && st'.mem == st.mem && st'.imm == st.imm
    requires Elements(w.input) == Entries(w.in0) + Entries(w.in1)
    requires Flatten(w.outputs) == Kept(w.input, |w.input|, st.v, w.level, w.smallestSnapshot)
    ensures Live(st) == Elements(w.input) + Rest(st, w)
    ensures Live(st') == Outcome(w.input, st.v, w.level, w.smallestSnapshot) + Rest(st, w)
    ensures Live(st') <= Live(st)
  {
    ReplacedEntries(st.v, st'.v, w);
    FlattenEntries(w.outputs);
    KeptMembers(w.input, |w.input|, st.v, w.level, w.smallestSnapshot);
  }

  // ---------------------------------------------------------------- the invariant over runs

  /** Entries newer than everything else do not disturb agreement between two histories. */
  lemma NewEntriesAgree(A: set<Entry>, B: set<Entry>, N: set<Entry>, k: UserKey, s: nat)
    requires A <= B && UniqueVersions(B + N) && AllNewer(N, B)
    requires ReadAt(A, k, s) == ReadAt(B, k, s)
    ensures ReadAt(A + N, k, s) == ReadAt(B + N, k, s)
  {
    if x :| x in N && Visible(x, k, s) {
      var n := NewestExists(N, k, s, x);
      assert IsNewest(B + N, k, s, n) && IsNewest(A + N, k, s, n);
      ReadIs(B + N, k, s, n);
      ReadIs(A + N, k, s, n);
    } else {
      OnlyVisibleMatter(A, N, k, s);
      OnlyVisibleMatter(B, N, k, s);
    }
  }

  lemma OnlyVisibleMatter(A: set<Entry>, N: set<Entry>, k: UserKey, s: nat)
    requires NoneVisible(N, k, s) && UniqueVersions(A + N)
    ensures ReadAt(A + N, k, s) == ReadAt(A, k, s)
  {
    if x :| x in A && Visible(x, k, s) {
      var n := NewestExists(A, k, s, x);
      assert IsNewest(A + N, k, s, n);
      ReadIs(A + N, k, s, n);
      ReadIs(A, k, s, n);
    } else {
      ReadNothing(A + N, k, s);
      ReadNothing(A, k, s);
    }
  }

  lemma WriteIsUnique(st: State, batch: seq<Op>)
    requires Bounded(st)
    ensures AllNewer(BatchEntries(batch, st.lastSequence + 1), st.history)
    ensures UniqueVersions(st.history + BatchEntries(batch, st.lastSequence + 1))
  {
  }

  lemma WriteKeepsInv(st: State, st': State, batch: seq<Op>)
    requires Inv(st) && Write(st, st', batch)
    ensures Inv(st')
  {
    var N := BatchEntries(batch, st.lastSequence + 1);
    assert Live(st') == Live(st) + N;
    WriteIsUnique(st, batch);
    forall k, s | s >= st'.floor ensures ReadAt(Live(st'), k, s) == ReadAt(st'.history, k, s) {
      NewEntriesAgree(Live(st), st.history, N, k, s);
    }
  }

  lemma FlushKeepsInv(st: State, st': State, level: nat)
    requires Inv(st) && Flush(st, st', level)
    ensures Inv(st')
  {
    if st.imm.value != [] {
      FlushKeepsOrder(st, st', level);
    }
    assert Live(st') == Live(st);
  }

  lemma SwitchKeepsInv(st: State, st': State)
    requires Inv(st) && SwitchMemTable(st, st')
    ensures Inv(st')
  {
    assert Live(st') == Live(st);
  }

  lemma MeanwhileKeepsInv(st: State, st': State)
    requires Inv(st) && Meanwhile(st, st')
    ensures Inv(st')
  {
    hide Flush, Write, Recent, ValidVersion, UniqueVersions, AllNewer, ReadAt;
    if batch :| Write(st, st', batch) {
      WriteKeepsInv(st, st', batch);
    } else if SwitchMemTable(st, st') {
      SwitchKeepsInv(st, st');
    } else if level :| Flush(st, st', level) {
      FlushKeepsInv(st, st', level);
    } else {
      assert Live(st') == Live(st);
    }
  }

  lemma WorkFromInputs(v: Version, w: Work)
    requires ValidWork(v, w)
    ensures FromInputs(w)
  {
    forall f, e | f in w.outputs && e in f.entries ensures exists h :: (h in w.in0 || h in w.in1) && e in h.entries {
      OutputIsInput(v, w, f, e);
      var h := InputOrigin(w, e);
    }
  }

  /** A compaction keeps levels above 0 sorted and disjoint. */
  lemma CompactedIsValid(v: Version, v': Version, w: Work)
    requires ValidVersion(v) && ValidWork(v, w)
    requires VersionEdited(v, v', w.level, Numbers(w.in0), Numbers(w.in1), [], w.outputs)
    ensures ValidVersion(v')
  {
    hide Sorted, LevelOrdered, Kept, Subset, CoversNextLevel, CleanCut, LevelEdited, Entries, Elements, Flatten;
    CompactKeepsOrder(v, w, v'[w.level + 1]);
    if w.level > 0 {
      RemoveKeepsOrder(v[w.level], Numbers(w.in0), v'[w.level]);
    }
    OtherLevelsStay(v, v', w.level);
  }

  lemma CompactedIsReplaced(v: Version, v': Version, w: Work, nextFile: nat)
    requires UniqueNumbers(v, nextFile) && ValidWork(v, w)
    requires forall i :: 0 <= i < |w.outputs| ==> w.outputs[i].number == nextFile + i
    requires VersionEdited(v, v', w.level, Numbers(w.in0), Numbers(w.in1), [], w.outputs)
    ensures Replaced(v, v', w) && FromInputs(w) && UniqueNumbers(v', nextFile + |w.outputs|)
  {
    EditReplaces(v, v', w, nextFile);
    WorkFromInputs(v, w);
    ReplacedNumbers(v, v', w, nextFile);
  }

  /** What a compaction cannot break is all but recency. */
  lemma CompactKeepsShape(st: State, st': State, w: Work)
    requires WellFormed(st) && Compact(st, st', w)
    ensures Replaced(st.v, st'.v, w) && FromInputs(w) && Live(st') <= Live(st)
    ensures Live(st') == Outcome(w.input, st.v, w.level, w.smallestSnapshot) + Rest(st, w)
    ensures WellFormed(st') <==> Recent(st'.v)
  {
    hide AllNewer, Recent, UniqueNumbers, ValidVersion, Replaced, VersionEdited, Live, VersionEntries, Sorted,
        CoversNextLevel, CleanCut, Rest, Outcome;
    CompactedIsValid(st.v, st'.v, w);
    CompactedIsReplaced(st.v, st'.v, w, st.nextFile);
    LiveSplits(st, st', w);
    VersionShrinks(st.v, st'.v, w);
    SubsetNewer(Elements(st.mem), VersionEntries(st.v), Elements(st.mem), VersionEntries(st'.v));
    SubsetNewer(ImmElements(st), VersionEntries(st.v), ImmElements(st), VersionEntries(st'.v));
  }

  lemma SubsetNewer(a: set<Entry>, b: set<Entry>, a': set<Entry>, b': set<Entry>)
    requires AllNewer(a, b) && a' <= a && b' <= b
    ensures AllNewer(a', b')
  {
  }

  lemma VersionShrinks(v: Version, v': Version, w: Work)
    requires Replaced(v, v', w) && ValidWork(v, w)
    ensures VersionEntries(v') <= VersionEntries(v)
  {
    hide Replaced, VersionEntries;
    ReplacedEntries(v, v', w);
    FlattenEntries(w.outputs);
    KeptMembers(w.input, |w.input|, v, w.level, w.smallestSnapshot);
  }

  ghost predicate Run(states: seq<State>) {
    && states != [] && Init(states[0])
    && forall i :: 0 < i < |states| ==> Next(states[i - 1], states[i])
  }

  lemma InitInv(st: State)
    requires Init(st)
    ensures Inv(st)
  {
    assert VersionEntries(st.v) == {};
  }

  lemma RunPrefix(states: seq<State>)
    requires Run(states) && |states| > 1
    ensures Run(states[..|states| - 1])
    ensures Next(states[|states| - 2], states[|states| - 1])
  {
  }

  /** A visible entry of the memtable is newer than all elsewhere. */
  lemma FoundInMem(st: State, k: UserKey, s: nat, e: Entry)
    requires Inv(st) && IsNewest(Elements(st.mem), k, s, e)
    ensures ReadAt(Live(st), k, s) == ValueOf(e)
  {
    hide ReadAt;
    assert IsNewest(Live(st), k, s, e);
    ReadIs(Live(st), k, s, e);
  }

  /** So is one of the immutable memtable, if the memtable has none. */
  lemma FoundInImm(st: State, k: UserKey, s: nat, e: Entry)
    requires Inv(st) && NoneVisible(Elements(st.mem), k, s) && st.imm.Some? && IsNewest(Elements(st.imm.value), k, s, e)
    ensures ReadAt(Live(st), k, s) == ValueOf(e)
  {
    hide ReadAt;
    assert IsNewest(Live(st), k, s, e);
    ReadIs(Live(st), k, s, e);
  }

  lemma FoundInVersion(st: State, k: UserKey, s: nat)
    requires Inv(st) && NoneVisible(Elements(st.mem), k, s) && NoneVisible(ImmElements(st), k, s)
    ensures ReadAt(Live(st), k, s) == ReadAt(VersionEntries(st.v), k, s) && UniqueVersions(VersionEntries(st.v))
  {
    hide ReadAt;
    OnlyVisibleMatter(VersionEntries(st.v), Elements(st.mem) + ImmElements(st), k, s);
    assert VersionEntries(st.v) + (Elements(st.mem) + ImmElements(st)) == Live(st);
  }

  /** DBImpl::Get: memtable, then immutable memtable, then the current version. */
  method Get(st: State, k: UserKey, s: nat) returns (r: Option<Val>)
    requires Inv(st) && st.floor <= s
    ensures r == ReadAt(st.history, k, s)
  {
    hide ReadAt, IsNewest, UniqueVersions, AllNewer;
    assert ReadAt(Live(st), k, s) == ReadAt(st.history, k, s);
    var found := SeekGet(st.mem, k, s);
    if !found.NotFound? {
      ghost var e :| IsNewest(Elements(st.mem), k, s, e) && found == Saved(e);
      FoundInMem(st, k, s, e);
      return Answer(found);
    }
    if st.imm.Some? {
      found := SeekGet(st.imm.value, k, s);
      if !found.NotFound? {
        ghost var e :| IsNewest(Elements(st.imm.value), k, s, e) && found == Saved(e);
        FoundInImm(st, k, s, e);
        return Answer(found);
      }
    }
    FoundInVersion(st, k, s);
    r := Lookup.Get(st.v, k, s);
  }

  lemma WriteKeepsPast(st: State, st': State, batch: seq<Op>, k: UserKey, s: nat)
    requires Bounded(st) && Write(st, st', batch) && s <= st.lastSequence
    ensures ReadAt(st'.history, k, s) == ReadAt(st.history, k, s)
  {
    WriteIsUnique(st, batch);
    OnlyVisibleMatter(st.history, BatchEntries(batch, st.lastSequence + 1), k, s);
  }
}
