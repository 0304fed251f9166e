/**
 A compaction reads its inputs from one version and is installed in a later one: whenever the
 memtable is full, DoCompactionWork flushes it on the way (db/db_impl.cc). When that leaves the
 levels in order, newer entries above older ones, and every read as it was.
 */
module CompactionCommit {
  import opened Config
  import opened DbFormat
  import opened Options
  import opened VersionSet
  import opened Lookup
  import opened Merger
  import opened Compaction
  import opened Lsm
  import opened SplitReads
  import opened SplitKeys
  import opened SplitRuns
  import opened CompactionRun

  // ---------------------------------------------------------------- flushes meanwhile

  /** A file flushed on top of `v` to level `l`, as PickLevelForMemTableOutput chooses it. */
  ghost predicate FlushedTo(v: Version, l: nat, f: File) {
    && AllNewer(Contents(f), VersionEntries(v))
    && (l > 0 ==> forall m :: 0 <= m <= l && m < |v| ==> NoOverlap(v[m], Smallest(f).ukey, Largest(f).ukey))
  }

  /** `u` is `v` with files flushed to it. */
  ghost predicate GrownFrom(v: Version, u: Version) {
    && |v| == |u| == NUM_LEVELS
    && (forall l :: 0 <= l < NUM_LEVELS ==> Subset(v[l], u[l]))
    && forall l, f {:trigger f in u[l]} :: 0 <= l < NUM_LEVELS && f in u[l] ==> f in v[l] || FlushedTo(v, l, f)
  }

  /** Each flush of a run grows the version further, when all of `v` is older than the memtable. */
  lemma FlushGrows(v: Version, st: State, st': State, level: nat)
    requires WellFormed(st) && GrownFrom(v, st.v) && Flush(st, st', level)
    ensures GrownFrom(v, st'.v)
  {
    hide ValidVersion, Recent, UniqueNumbers, LevelEdited;
    if st.imm.value != [] {
      var f: File := Table(st.nextFile, st.imm.value);
      OnlyTheFlushed(st, st', level, f);
      GrownEntries(v, st.v);
      assert FlushedTo(st.v, level, f);
      assert FlushedTo(v, level, f) by {
        forall m | 0 <= m <= level && level > 0 && m < |v| ensures NoOverlap(v[m], Smallest(f).ukey, Largest(f).ukey) {
          assert Subset(v[m], st.v[m]);
        }
      }
      forall l | 0 <= l < NUM_LEVELS ensures Subset(v[l], st'.v[l]) {
        assert Subset(v[l], st.v[l]);
      }
    }
  }

  lemma OnlyTheFlushed(st: State, st': State, level: nat, f: File)
    requires WellFormed(st) && Flush(st, st', level) && st.imm.value != [] && f == Table(st.nextFile, st.imm.value)
    ensures Added(st.v, st'.v, level, f) && Contents(f) == ImmElements(st)
  {
    AddedIsValid(st.v, st'.v, level, f);
  }

  lemma GrownEntries(v: Version, u: Version)
    requires GrownFrom(v, u)
    ensures VersionEntries(v) <= VersionEntries(u)
  {
    forall e | e in VersionEntries(v) ensures e in VersionEntries(u) {
      var l, f :| 0 <= l < |v| && f in v[l] && e in f.entries;
      assert Subset(v[l], u[l]);
      EntriesAreLive(u, l, f, e);
    }
  }

  // ---------------------------------------------------------------- the levels stay in order, or not

  /** The outputs have numbers of their own. */
  ghost predicate NumberedApart(u: Version, outputs: seq<File>, nextFile: nat) {
    && (forall i, j :: 0 <= i < j < |outputs| ==> outputs[i].number != outputs[j].number)
    && (forall b :: b in outputs ==> b.number < nextFile)
    && forall b, l, f {:trigger b in outputs, f in u[l]} ::
       b in outputs && 0 <= l < |u| && f in u[l] ==> b.number != f.number
  }

  /** InstallCompactionResults, in the version that is then current. */
  ghost predicate Installs(v: Version, u: Version, u': Version, w: Work, nextFile: nat) {
    && ValidVersion(v) && Recent(v) && ValidWork(v, w)
    && ValidVersion(u) && Recent(u) && GrownFrom(v, u) && UniqueVersions(VersionEntries(u))
    && UniqueNumbers(u, nextFile) && NumberedApart(u, w.outputs, nextFile)
    && VersionEdited(u, u', w.level, Numbers(w.in0), Numbers(w.in1), [], w.outputs)
  }

  /** A file flushed meanwhile to the level of the outputs lies inside the range of one of them. */
  ghost predicate Encloses(v: Version, u: Version, w: Work, b: File, f: File)
    requires |v| == |u| == NUM_LEVELS && w.level + 1 < NUM_LEVELS
  {
    && b in w.outputs && f in u[w.level + 1] && f !in v[w.level + 1]
    && Smallest(b).ukey < Smallest(f).ukey && Largest(f).ukey < Largest(b).ukey
  }

  /** No key of the inputs is in the range of a file flushed meanwhile to their level or below. */
  lemma InputsAvoidFlushed(v: Version, w: Work, l: nat, f: File, e: Entry)
    requires ValidWork(v, w) && w.level < l < |v| && FlushedTo(v, l, f) && e in w.input
    ensures e.key.ukey < Smallest(f).ukey || Largest(f).ukey < e.key.ukey
  {
    hide CoversNextLevel, CleanCut, Sorted, Kept, Flatten;
    var h := InputOrigin(w, e);
    InRange(h, e);
    var m := if h in w.in0 then w.level else w.level + 1;
    assert NoOverlap(v[m], Smallest(f).ukey, Largest(f).ukey) && h in v[m];
    assert !Overlaps(h, Some(Smallest(f).ukey), Some(Largest(f).ukey));
  }

  lemma OutputBesideFlushed(v: Version, u: Version, w: Work, b: File, f: File)
    requires |v| == |u| == NUM_LEVELS && ValidWork(v, w) && FlushedTo(v, w.level + 1, f)
    requires b in w.outputs && f in u[w.level + 1] && f !in v[w.level + 1]
    ensures Apart(b, f) <==> !Encloses(v, u, w, b, f)
  {
    hide ValidWork, FlushedTo;
    WorkSubsets(v, w);
    var n := |b.entries|;
    FromInput(v, w, b, b.entries[0]);
    FromInput(v, w, b, b.entries[n - 1]);
    InputsAvoidFlushed(v, w, w.level + 1, f, b.entries[0]);
    InputsAvoidFlushed(v, w, w.level + 1, f, b.entries[n - 1]);
    InRange(f, f.entries[0]);
    InRange(b, b.entries[0]);
  }

  lemma FromInput(v: Version, w: Work, b: File, e: Entry)
    requires ValidWork(v, w) && b in w.outputs && e in b.entries
    ensures e in w.input
  {
    OutputIsInput(v, w, b, e);
  }

  lemma InstalledIsReplaced(v: Version, u: Version, u': Version, w: Work, nextFile: nat)
    requires Installs(v, u, u', w, nextFile)
    ensures Replaced(u, u', w) && FromInputs(w) && UniqueNumbers(u', nextFile)
    ensures w.level + 1 < NUM_LEVELS == |u| && Subset(w.in0, u[w.level]) && Subset(w.in1, u[w.level + 1])
  {
    hide ValidVersion, Recent, ValidWork, UniqueVersions, VersionEdited, UniqueNumbers, NumberedApart, Replaced,
        FromInputs;
    WorkSubsets(v, w);
    assert Subset(v[w.level], u[w.level]) && Subset(v[w.level + 1], u[w.level + 1]);
    EditReplaces(u, u', w, nextFile);
    WorkFromInputs(v, w);
    InstalledNumbers(u, u', w, nextFile);
  }

  lemma InstalledNumbers(u: Version, u': Version, w: Work, nextFile: nat)
    requires Replaced(u, u', w) && UniqueNumbers(u, nextFile) && NumberedApart(u, w.outputs, nextFile)
    ensures UniqueNumbers(u', nextFile)
  {
    forall l, m, a, b | 0 <= l < |u'| && 0 <= m < |u'| && a in u'[l] && b in u'[m] && a.number == b.number
      ensures l == m && a == b
    {
      assert a in u[l] || (l == w.level + 1 && a in w.outputs);
      assert b in u[m] || (m == w.level + 1 && b in w.outputs);
    }
  }

  ghost predicate NothingEnclosed(v: Version, u: Version, w: Work)
    requires |v| == |u| == NUM_LEVELS && w.level + 1 < NUM_LEVELS
  {
    forall b, f :: !Encloses(v, u, w, b, f)
  }

  /** Output `b` and a file `g` that stays in the level of the outputs. */
  lemma OutputIsApartIff(v: Version, u: Version, w: Work, b: File, g: File)
    requires ValidVersion(v) && ValidWork(v, w) && GrownFrom(v, u)
    requires b in w.outputs && g in u[w.level + 1] && g.number !in Numbers(w.in1)
    ensures w.level + 1 < NUM_LEVELS && (Apart(b, g) <==> !Encloses(v, u, w, b, g))
  {
    hide ValidWork, LevelOrdered, FlushedTo, Numbers;
    WorkSubsets(v, w);
    if g in v[w.level + 1] {
      OutputIsApart(v, w, b, g);
    } else {
      OutputBesideFlushed(v, u, w, b, g);
    }
  }

  /** The level of the outputs is in order exactly if no output encloses a file flushed meanwhile. */
  lemma OutputLevelIffOpen(v: Version, u: Version, w: Work, new_: seq<File>)
    requires ValidVersion(v) && ValidVersion(u) && ValidWork(v, w) && GrownFrom(v, u)
    requires |v| == |u| == NUM_LEVELS && w.level + 1 < NUM_LEVELS
    requires LevelEdited(u[w.level + 1], Numbers(w.in1), w.outputs, new_)
    requires forall f :: f in u[w.level + 1] && f !in v[w.level + 1] ==> f.number !in Numbers(w.in1)
    ensures LevelOrdered(new_) <==> NothingEnclosed(v, u, w)
  {
    hide ValidWork, GrownFrom, Numbers, Apart, LevelOrdered, ValidVersion;
    if NothingEnclosed(v, u, w) {
      OutputsInOrder(v, w);
      LevelInOrder(u, w.level + 1);
      forall a, b | a in new_ && b in new_ && a != b ensures Apart(a, b) {
        if a in w.outputs && b in w.outputs {
          OrderedIsApart(w.outputs, a, b);
        } else if a in w.outputs {
          OutputIsApartIff(v, u, w, a, b);
        } else if b in w.outputs {
          OutputIsApartIff(v, u, w, b, a);
          ApartBothWays(a, b);
        } else {
          OrderedIsApart(u[w.level + 1], a, b);
        }
      }
      ApartIsOrdered(new_);
    }
    if b, f :| Encloses(v, u, w, b, f) {
      OutputIsApartIff(v, u, w, b, f);
      if LevelOrdered(new_) {
        OrderedIsApart(new_, b, f);
        assert false;
      }
    }
  }

  lemma ApartBothWays(f: File, g: File)
    ensures Apart(f, g) <==> Apart(g, f)
  {
  }

  lemma LevelInOrder(v: Version, l: nat)
    requires ValidVersion(v) && 0 < l < NUM_LEVELS
    ensures LevelOrdered(v[l])
  {
  }

  lemma OutputsInOrder(v: Version, w: Work)
    requires ValidWork(v, w)
    ensures LevelOrdered(w.outputs)
  {
    KeptSorted(w.input, |w.input|, v, w.level, w.smallestSnapshot);
    CutIsOrdered(w.outputs);
  }

  /** Files flushed meanwhile are not inputs. */
  lemma FlushedIsNoInput(v: Version, u: Version, w: Work, nextFile: nat)
    requires GrownFrom(v, u) && UniqueNumbers(u, nextFile) && ValidWork(v, w)
    ensures w.level + 1 < NUM_LEVELS
    ensures forall f :: f in u[w.level + 1] && f !in v[w.level + 1] ==> f.number !in Numbers(w.in1)
  {
    hide ValidWork;
    WorkSubsets(v, w);
    assert Subset(v[w.level + 1], u[w.level + 1]);
    forall f | f in u[w.level + 1] && f !in v[w.level + 1] ensures f.number !in Numbers(w.in1) {
      forall g | g in w.in1 ensures g.number != f.number {
        assert g in v[w.level + 1] && g in u[w.level + 1];
      }
    }
  }

  /** The version installed has its levels in order exactly if no output encloses a file flushed meanwhile. */
  lemma InstalledInOrderIff(v: Version, u: Version, u': Version, w: Work, nextFile: nat)
    requires Installs(v, u, u', w, nextFile) && w.level + 1 < NUM_LEVELS
    ensures ValidVersion(u') <==> NothingEnclosed(v, u, w)
  {
    hide Recent, ValidWork, UniqueVersions, UniqueNumbers, NumberedApart, LevelEdited, LevelOrdered, GrownFrom, Numbers,
        NothingEnclosed;
    FlushedIsNoInput(v, u, w, nextFile);
    OutputLevelIffOpen(v, u, w, u'[w.level + 1]);
    if w.level > 0 {
      RemoveKeepsOrder(u[w.level], Numbers(w.in0), u'[w.level]);
    }
    if LevelOrdered(u'[w.level + 1]) {
      OtherLevelsStay(u, u', w.level);
    }
  }

  /** Inputs without a gap between them enclose nothing. */
  lemma NoGapEnclosesNothing(v: Version, u: Version, w: Work)
    requires GrownFrom(v, u) && ValidWork(v, w) && NoGap(w.in0 + w.in1)
    requires |v| == |u| == NUM_LEVELS && w.level + 1 < NUM_LEVELS
    ensures NothingEnclosed(v, u, w)
  {
    hide ValidWork, GrownFrom, NoGap, Covers;
    forall b, f | Encloses(v, u, w, b, f) ensures false {
      InRange(f, f.entries[0]);
      OutputRangeIsCovered(v, w, b, Smallest(f).ukey);
      InputsDoNotCover(v, u, w, f);
    }
  }

  lemma OutputRangeIsCovered(v: Version, w: Work, b: File, k: UserKey)
    requires ValidWork(v, w) && NoGap(w.in0 + w.in1) && b in w.outputs && Smallest(b).ukey < k <= Largest(b).ukey
    ensures Covers(w.in0 + w.in1, k)
  {
    hide CoversNextLevel, CleanCut, Sorted, Kept, Flatten;
    var n := |b.entries|;
    FromInput(v, w, b, b.entries[0]);
    FromInput(v, w, b, b.entries[n - 1]);
    var g := InputOrigin(w, b.entries[0]);
    var h := InputOrigin(w, b.entries[n - 1]);
    InRange(g, b.entries[0]);
    InRange(h, b.entries[n - 1]);
  }

  lemma InputsDoNotCover(v: Version, u: Version, w: Work, f: File)
    requires GrownFrom(v, u) && ValidWork(v, w) && f in u[w.level + 1] && f !in v[w.level + 1]
    ensures !Covers(w.in0 + w.in1, Smallest(f).ukey)
  {
    hide CoversNextLevel, CleanCut, Sorted, Kept, Flatten;
    assert FlushedTo(v, w.level + 1, f);
    InRange(f, f.entries[0]);
    forall g | g in w.in0 + w.in1 ensures !(Smallest(g).ukey <= Smallest(f).ukey <= Largest(g).ukey) {
      var m := if g in w.in0 then w.level else w.level + 1;
      assert NoOverlap(v[m], Smallest(f).ukey, Largest(f).ukey) && g in v[m];
      assert !Overlaps(g, Some(Smallest(f).ukey), Some(Largest(f).ukey));
    }
  }

  // ---------------------------------------------------------------- recency

  lemma {:induction false} FlushedIsNewer(v: Version, u: Version, w: Work, a: File, b: File)
    requires ValidWork(v, w) && GrownFrom(v, u) && a in u[w.level] && a !in v[w.level] && b in w.outputs
    ensures NewerThan(a, b)
  {
    hide ValidWork;
    WorkSubsets(v, w);
    assert FlushedTo(v, w.level, a);
    forall e, e' | e in a.entries && e' in b.entries ensures e.key.seqno > e'.key.seqno {
      FromInput(v, w, b, e');
      InputIsThere(v, w, e');
      assert e in Contents(a);
    }
  }

  lemma InputIsThere(v: Version, w: Work, e: Entry)
    requires ValidWork(v, w) && e in w.input
    ensures e in VersionEntries(v)
  {
    hide CoversNextLevel, CleanCut, Sorted, Kept, Flatten;
    var h := InputOrigin(w, e);
    EntriesAreLive(v, if h in w.in0 then w.level else w.level + 1, h, e);
  }

  /** What is flushed meanwhile makes no difference to recency. */
  lemma {:induction false} InstalledIsRecentIff(v: Version, u: Version, u': Version, w: Work, nextFile: nat)
    requires Installs(v, u, u', w, nextFile)
    ensures Recent(u') <==> !Overtakes(v, w)
  {
    hide Recent, ValidVersion, ValidWork, UniqueVersions, UniqueNumbers, NumberedApart, VersionEdited, GrownFrom,
        Replaced, FromInputs, Overtakes, VersionEntries;
    InstalledIsReplaced(v, u, u', w, nextFile);
    GrownIsUnique(v, u);
    WorkSubsets(v, w);
    if Overtakes(v, w) {
      OvertakingBreaksRecency(v, u, u', w);
    } else {
      forall a, b | a in u[w.level] && a !in w.in0 && b in w.outputs ensures NewerThan(a, b) {
        if a in v[w.level] {
          LeftOutIsNewer(v, w, a, b);
        } else {
          FlushedIsNewer(v, u, w, a, b);
        }
      }
      ReplacedIsRecent(u, u', w);
    }
  }

  lemma GrownIsUnique(v: Version, u: Version)
    requires GrownFrom(v, u) && UniqueVersions(VersionEntries(u))
    ensures |v| == |u| == NUM_LEVELS && UniqueVersions(VersionEntries(v))
    ensures forall l :: 0 <= l < |v| ==> Subset(v[l], u[l])
  {
    hide VersionEntries;
    GrownEntries(v, u);
  }

  // ---------------------------------------------------------------- reads

  /** A set of entries in key order. */
  lemma {:induction false} InKeyOrder(S: set<Entry>) returns (es: seq<Entry>)
    requires UniqueVersions(S)
    ensures Sorted(es) && Elements(es) == S
    decreases S
  {
    if S == {} {
      es := [];
    } else {
      var e :| e in S;
      var rest := InKeyOrder(S - {e});
      assert NoCommonKey([e], rest) by {
        forall x | x in rest ensures x.key != e.key {
          assert x in Elements(rest);
        }
      }
      es := MergeTwo([e], rest);
      assert Elements(es) == {e} + Elements(rest);
    }
  }

  /** What has been flushed since `v`. */
  ghost function Since(v: Version, u: Version): set<Entry> {
    VersionEntries(u) - VersionEntries(v)
  }

  lemma SinceIsNewer(v: Version, u: Version)
    requires GrownFrom(v, u)
    ensures AllNewer(Since(v, u), VersionEntries(v)) && VersionEntries(u) == VersionEntries(v) + Since(v, u)
  {
    GrownEntries(v, u);
    forall e, x | e in Since(v, u) && x in VersionEntries(v) ensures e.key.seqno > x.key.seqno {
      var l, f :| 0 <= l < |u| && f in u[l] && e in f.entries;
      if f in v[l] {
        EntriesAreLive(v, l, f, e);
      } else {
        assert FlushedTo(v, l, f) && e in Contents(f);
      }
    }
  }

  /** A compaction leaves behind what it would have left of `v`, and all that was flushed since. */
  lemma UntouchedSince(v: Version, u: Version, w: Work, nextFile: nat)
    requires GrownFrom(v, u) && UniqueNumbers(u, nextFile) && w.level + 1 < NUM_LEVELS
    requires Subset(w.in0, v[w.level]) && Subset(w.in1, v[w.level + 1])
    ensures Untouched(u, w) == Untouched(v, w) + Since(v, u)
  {
    hide UniqueNumbers, FlushedTo;
    SinceIsNewer(v, u);
    assert Subset(v[w.level], u[w.level]) && Subset(v[w.level + 1], u[w.level + 1]);
    forall e ensures e in Untouched(u, w) <==> e in Untouched(v, w) + Since(v, u) {
      if l, f :| 0 <= l < |u| && f in u[l] && !Chosen(w, l, f) && e in f.entries {
        EntriesAreLive(u, l, f, e);
        if f !in v[l] {
          FileIsSince(v, u, l, f, e);
        }
      }
      if l, f :| 0 <= l < |v| && f in v[l] && !Chosen(w, l, f) && e in f.entries {
        assert Subset(v[l], u[l]);
      }
      if e in Since(v, u) {
        var l, f :| 0 <= l < |u| && f in u[l] && e in f.entries;
        if f in v[l] {
          EntriesAreLive(v, l, f, e);
        }
        assert !Chosen(w, l, f);
      }
    }
  }

  lemma FileIsSince(v: Version, u: Version, l: nat, f: File, e: Entry)
    requires GrownFrom(v, u) && l < |u| && f in u[l] && f !in v[l] && e in f.entries
    ensures e in Since(v, u)
  {
    EntriesAreLive(u, l, f, e);
    assert FlushedTo(v, l, f) && e in Contents(f);
  }

  /** A deletion that a read over `all` sees at the smallest snapshot is split from the value it deletes. */
  ghost predicate SplitsOver(v: Version, w: Work, all: set<Entry>) {
    exists l, f, d, g :: Splits(v, w, l, f, d, g) && IsNewest(all, d.key.ukey, w.smallestSnapshot, d)
  }

  /** A store with the version the compaction reads, and above it all that is newer. */
  lemma Stacked(v: Version, newer: set<Entry>, nextFile: nat) returns (st: State)
    requires ValidVersion(v) && Recent(v) && UniqueNumbers(v, nextFile)
    requires UniqueVersions(newer) && AllNewer(newer, VersionEntries(v))
    ensures WellFormed(st) && st.v == v && Live(st) == VersionEntries(v) + newer
    ensures Elements(st.mem) == newer && st.imm == None
  {
    hide ValidVersion, Recent, UniqueNumbers, VersionEntries;
    var mem := InKeyOrder(newer);
    st := State(mem, None, v, 0, multiset{}, nextFile, {}, 0);
  }

  lemma GrownNumbers(v: Version, u: Version, nextFile: nat)
    requires GrownFrom(v, u) && UniqueNumbers(u, nextFile)
    ensures UniqueNumbers(v, nextFile)
  {
    forall l, f | 0 <= l < |v| && f in v[l] ensures f in u[l] {
      assert Subset(v[l], u[l]);
    }
  }

  /**
   Reads from the smallest snapshot on, over the version and what is newer still, survive
   exactly if the compaction splits no deletion seen there.
   */
  lemma {:induction false} InstalledKeepsReadsIff(v: Version, u: Version, u': Version, w: Work, nextFile: nat,
      newer: set<Entry>)
    requires Installs(v, u, u', w, nextFile)
    requires AllNewer(newer, VersionEntries(u)) && UniqueVersions(VersionEntries(u) + newer)
    ensures (forall k, s :: s >= w.smallestSnapshot ==>
               ReadAt(VersionEntries(u') + newer, k, s) == ReadAt(VersionEntries(u) + newer, k, s))
       <==> !SplitsOver(v, w, VersionEntries(u) + newer)
  {
    hide Recent, ValidVersion, ValidWork, UniqueNumbers, NumberedApart, VersionEdited, GrownFrom, Replaced,
        FromInputs, VersionEntries, ReadAt, Splits, IsNewest, WellFormed, Live, Outcome, Untouched, Selected, Since;
    InstalledIsReplaced(v, u, u', w, nextFile);
    WorkIsSelected(v, w);
    SinceIsNewer(v, u);
    GrownNumbers(v, u, nextFile);
    var st := Stacked(v, Since(v, u) + newer, nextFile);
    assert Live(st) == VersionEntries(u) + newer;
    ReadsSurviveAtIff(st, w, w.smallestSnapshot);
    InstalledEntries(v, u, u', w, nextFile, st, newer);
    assert SplitsOver(v, w, Live(st)) <==> SplitsAt(st, w, w.smallestSnapshot);
  }

  lemma InstalledEntries(v: Version, u: Version, u': Version, w: Work, nextFile: nat, st: State, newer: set<Entry>)
    requires GrownFrom(v, u) && UniqueNumbers(u, nextFile) && ValidWork(v, w) && Replaced(u, u', w)
    requires st.v == v && st.imm == None && Elements(st.mem) == Since(v, u) + newer
    ensures VersionEntries(u') + newer == Outcome(w.input, v, w.level, w.smallestSnapshot) + Rest(st, w)
  {
    hide GrownFrom, UniqueNumbers, Replaced, Untouched, Since, VersionEntries, Entries, Outcome, Flatten, Kept, Sorted,
        CoversNextLevel, CleanCut;
    ReplacedEntries(u, u', w);
    UntouchedSince(v, u, w, nextFile);
    OutputsAreOutcome(v, w);
  }
}
