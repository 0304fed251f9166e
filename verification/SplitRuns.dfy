/**
 Runs of the store with the compactions and moves that the code may choose. It compares
 user-key ranges only, so above level 0 its inputs need not be a clean cut: these are the
 steps, and the runs, that keep the invariant, and no others do.
 */
module SplitRuns {
  import opened Config
  import opened DbFormat
  import opened Options
  import opened VersionSet
  import opened Lookup
  import opened Compaction
  import opened Lsm
  import opened SplitReads
  import opened SplitKeys

  // ---------------------------------------------------------------- compactions and recency

  /** The input `f` ends inside a user key: a file left out at its level goes on with older entries of it. */
  ghost predicate Crosses(v: Version, w: Work, f: File, g: File) {
    f in w.in0 && LeftOut(v, w, w.level, g) && Before(Largest(f), Smallest(g)) && Smallest(g).ukey == Largest(f).ukey
  }

  /** Something of that key that is in `f` is kept, and so goes down past `g`. */
  ghost predicate Overtakes(v: Version, w: Work) {
    exists f, g, e ::
      && Crosses(v, w, f, g) && e in f.entries && e.key.ukey == Largest(f).ukey
      && e in Outcome(w.input, v, w.level, w.smallestSnapshot)
  }

  lemma OutputsAreOutcome(v: Version, w: Work)
    requires ValidWork(v, w)
    ensures Entries(w.outputs) == Outcome(w.input, v, w.level, w.smallestSnapshot)
  {
    FlattenEntries(w.outputs);
  }

  lemma OvertakenIsOlder(f: File, g: File, e: Entry)
    requires Before(Largest(f), Smallest(g)) && Smallest(g).ukey == Largest(f).ukey
    requires e in f.entries && e.key.ukey == Largest(f).ukey
    ensures e.key.seqno >= g.entries[0].key.seqno && g.entries[0] in g.entries
  {
    var i :| 0 <= i < |f.entries| && f.entries[i] == e;
  }

  /** Also if the version has grown from `v` to `u` while the compaction ran. */
  lemma OvertakingBreaksRecency(v: Version, u: Version, u': Version, w: Work)
    requires ValidWork(v, w) && Overtakes(v, w)
    requires Replaced(u, u', w) && |u| == |v| && forall l :: 0 <= l < |v| ==> Subset(v[l], u[l])
    ensures !Recent(u')
  {
    hide ValidWork, Outcome, Recent;
    var f, g, e :| Crosses(v, w, f, g) && e in f.entries && e.key.ukey == Largest(f).ukey
                   && e in Outcome(w.input, v, w.level, w.smallestSnapshot);
    OutputsAreOutcome(v, w);
    var b :| b in w.outputs && e in b.entries;
    OvertakenIsOlder(f, g, e);
    assert Subset(v[w.level], u[w.level]);
    assert g in u'[w.level] && b in u'[w.level + 1];
    assert !NewerThan(g, b);
    if Recent(u') {
      DeeperIsOlder(u', w.level, w.level + 1, g, b);
    }
  }

  lemma DeeperIsOlder(v: Version, l: nat, m: nat, f: File, g: File)
    requires Recent(v) && l < m < |v| && f in v[l] && g in v[m]
    ensures NewerThan(f, g)
  {
  }

  lemma EntriesAreLive(v: Version, l: nat, f: File, e: Entry)
    requires l < |v| && f in v[l] && e in f.entries
    ensures e in VersionEntries(v)
  {
    assert e in Entries(v[l]);
  }

  /** Two entries of a user key that an input shares with a file left out above level 0. */
  lemma SharedKeyCrosses(v: Version, w: Work, f: File, g: File, e: Entry, x: Entry)
    requires ValidVersion(v) && UniqueVersions(VersionEntries(v)) && ValidWork(v, w)
    requires f in w.in0 && LeftOut(v, w, w.level, g) && e in f.entries && x in g.entries
    requires e.key.ukey == x.key.ukey && x.key.seqno <= e.key.seqno
    ensures Crosses(v, w, f, g) && e.key.ukey == Largest(f).ukey
  {
    hide CoversNextLevel, Sorted, Kept, Flatten;
    EntriesAreLive(v, w.level, f, e);
    EntriesAreLive(v, w.level, g, x);
    InRange(f, e);
    InRange(g, x);
    if w.level == 0 {
      Level0SharesNone(v, w, f, g, e, x);
    } else {
      OrderedIsApart(v[w.level], f, g);
    }
  }

  lemma Level0SharesNone(v: Version, w: Work, f: File, g: File, e: Entry, x: Entry)
    requires ValidWork(v, w) && w.level == 0 && f in w.in0 && LeftOut(v, w, 0, g) && e in f.entries && x in g.entries
    ensures e.key.ukey != x.key.ukey
  {
    assert SharesNoKey(f, g);
  }

  lemma {:induction false} LeftOutIsNewer(v: Version, w: Work, a: File, b: File)
    requires ValidVersion(v) && Recent(v) && UniqueVersions(VersionEntries(v)) && ValidWork(v, w)
    requires FromInputs(w) && !Overtakes(v, w) && a in v[w.level] && a !in w.in0 && b in w.outputs
    ensures NewerThan(a, b)
  {
    hide ValidWork, Outcome, Recent, ValidVersion, UniqueVersions, Crosses, VersionEntries;
    WorkSubsets(v, w);
    OutputsAreOutcome(v, w);
    forall e, e' | e in a.entries && e' in b.entries && e.key.ukey == e'.key.ukey ensures e.key.seqno > e'.key.seqno {
      var h :| (h in w.in0 || h in w.in1) && e' in h.entries;
      if h in w.in0 {
        if e.key.seqno <= e'.key.seqno {
          SharedKeyCrosses(v, w, h, a, e', e);
          assert false;
        }
      } else {
        DeeperIsOlder(v, w.level, w.level + 1, a, h);
      }
    }
  }

  lemma WorkSubsets(v: Version, w: Work)
    requires ValidWork(v, w)
    ensures w.level + 1 < |v| == NUM_LEVELS && Subset(w.in0, v[w.level]) && Subset(w.in1, v[w.level + 1])
  {
  }

  /** A compaction keeps recency exactly when nothing it keeps overtakes an older entry of its key. */
  lemma {:induction false} CompactionKeepsRecencyIff(v: Version, v': Version, w: Work)
    requires ValidVersion(v) && Recent(v) && UniqueVersions(VersionEntries(v)) && ValidWork(v, w)
    requires Replaced(v, v', w) && FromInputs(w)
    ensures Recent(v') <==> !Overtakes(v, w)
  {
    hide ValidWork, Recent, ValidVersion, UniqueVersions, Overtakes, VersionEntries, Replaced, FromInputs;
    if Overtakes(v, w) {
      assert forall l :: 0 <= l < |v| ==> Subset(v[l], v[l]);
      OvertakingBreaksRecency(v, v, v', w);
    } else {
      WorkSubsets(v, w);
      forall a, b | a in v[w.level] && a !in w.in0 && b in w.outputs ensures NewerThan(a, b) {
        LeftOutIsNewer(v, w, a, b);
      }
      ReplacedIsRecent(v, v', w);
    }
  }

  // ---------------------------------------------------------------- steps

  lemma LiveIsUnique(st: State)
    requires Inv(st)
    ensures UniqueVersions(Live(st)) && UniqueVersions(VersionEntries(st.v))
    ensures ValidVersion(st.v) && Recent(st.v)
  {
  }

  lemma MoveKeepsInvIff(st: State, st': State, level: nat, f: File)
    requires Inv(st) && TrivialMove(st, st', level, f)
    ensures Inv(st') <==> level == 0 || !EndsMidKey(st.v[level], f)
  {
    hide Recent, ValidVersion, Live, UniqueVersions, Moved, EndsMidKey, WellFormed, VersionEdited, NoOverlap;
    LiveIsUnique(st);
    assert WellFormed(st);
    MoveKeepsShape(st, st', level, f);
    if level > 0 {
      MoveKeepsRecencyIff(st.v, st'.v, level, f);
    } else {
      CleanMoveKeepsRecency(st.v, st'.v, f);
    }
  }

  lemma CleanMoveKeepsRecency(v: Version, v': Version, f: File)
    requires Recent(v) && Moved(v, v', 0, f) && CleanCut(v[0], [f])
    ensures Recent(v')
  {
    forall g | g in v[0] && g != f ensures NewerThan(g, f) {
      assert f in [f] && g !in [f];
      assert SharesNoKey(f, g);
    }
    MovedIsRecent(v, v', 0, f);
  }

  lemma WorkIsSelected(v: Version, w: Work)
    requires ValidWork(v, w)
    ensures Selected(v, w)
  {
  }

  /** Reads are what the invariant asks for exactly if they are those of the state before. */
  lemma FaithfulIff(st: State, st': State)
    requires Faithful(st) && st'.history == st.history && st'.floor >= st.floor
    ensures Faithful(st') <==> forall k, s :: s >= st'.floor ==> ReadAt(Live(st'), k, s) == ReadAt(Live(st), k, s)
  {
    hide Live, ReadAt;
    if Faithful(st') {
      forall k, s | s >= st'.floor ensures ReadAt(Live(st'), k, s) == ReadAt(Live(st), k, s) {
        assert ReadAt(Live(st'), k, s) == ReadAt(st.history, k, s);
        assert ReadAt(Live(st), k, s) == ReadAt(st.history, k, s);
      }
    }
    if forall k, s :: s >= st'.floor ==> ReadAt(Live(st'), k, s) == ReadAt(Live(st), k, s) {
      forall k, s | s >= st'.floor ensures ReadAt(Live(st'), k, s) == ReadAt(st'.history, k, s) {
        assert ReadAt(Live(st), k, s) == ReadAt(st.history, k, s);
      }
    }
  }

  lemma {:induction false} CompactKeepsInvIff(st: State, st': State, w: Work)
    requires Inv(st) && Compact(st, st', w)
    ensures Inv(st') <==> !Overtakes(st.v, w) && !SplitsAt(st, w, w.smallestSnapshot)
  {
    hide Recent, ValidVersion, Live, UniqueVersions, WellFormed, VersionEdited, ValidWork, Selected, Replaced,
        FromInputs, Overtakes, SplitsAt, ReadAt, Outcome, Rest, Faithful;
    LiveIsUnique(st);
    WorkIsSelected(st.v, w);
    CompactKeepsShape(st, st', w);
    CompactionKeepsRecencyIff(st.v, st'.v, w);
    ReadsSurviveAtIff(st, w, w.smallestSnapshot);
    FaithfulIff(st, st');
  }

  /** A move or compaction that separates entries of one user key the wrong way round. */
  ghost predicate Breaks(st: State, st': State) {
    || (exists level: nat, f :: TrivialMove(st, st', level, f) && level > 0 && EndsMidKey(st.v[level], f))
    || (exists w :: Compact(st, st', w) && (Overtakes(st.v, w) || SplitsAt(st, w, w.smallestSnapshot)))
  }

  lemma MovesAreAtLevels(st: State, st': State)
    ensures forall level: nat, f: File :: TrivialMove(st, st', level, f) ==> level < |st.v|
  {
  }

  /** A step keeps the invariant exactly if it breaks no user key apart. */
  lemma StepKeepsInvIff(st: State, st': State)
    requires Inv(st) && Next(st, st')
    ensures Inv(st') <==> !Breaks(st, st')
  {
    hide Inv, TrivialMove, Compact, EndsMidKey, Overtakes, SplitsAt, Meanwhile;
    MovesAreAtLevels(st, st');
    if level: nat, f :| TrivialMove(st, st', level, f) && level > 0 && EndsMidKey(st.v[level], f) {
      MoveKeepsInvIff(st, st', level, f);
    } else if w :| Compact(st, st', w) && (Overtakes(st.v, w) || SplitsAt(st, w, w.smallestSnapshot)) {
      CompactKeepsInvIff(st, st', w);
    } else if level: nat, f :| TrivialMove(st, st', level, f) {
      MoveKeepsInvIff(st, st', level, f);
    } else if w :| Compact(st, st', w) {
      CompactKeepsInvIff(st, st', w);
    } else {
      MeanwhileKeepsInv(st, st');
    }
  }

  /** A move or compaction of a clean cut breaks nothing. */
  lemma CleanCutsBreakNothing(st: State, st': State)
    requires Inv(st) && |st.v| == NUM_LEVELS
    requires forall level: nat, f: File :: level < NUM_LEVELS && TrivialMove(st, st', level, f) ==>
               CleanCut(st.v[level], [f])
    requires forall w: Work :: w.level + 1 < NUM_LEVELS && Compact(st, st', w) ==> CleanWork(st.v, w)
    ensures !Breaks(st, st')
  {
    hide TrivialMove, Compact, CleanWork, CleanCut, Overtakes, SplitsAt, EndsMidKey;
    MovesAreAtLevels(st, st');
    if level: nat, f :| TrivialMove(st, st', level, f) && level > 0 && EndsMidKey(st.v[level], f) {
      MoveIsNotTorn(st, st', level, f);
      assert false;
    }
    if w :| Compact(st, st', w) && (Overtakes(st.v, w) || SplitsAt(st, w, w.smallestSnapshot)) {
      CompactionIsNotTorn(st, st', w);
      assert false;
    }
  }

  ghost predicate CleanWork(v: Version, w: Work)
    requires w.level + 1 < |v|
  {
    CleanCut(v[w.level], w.in0) && CleanCut(v[w.level + 1], w.in1)
  }

  lemma MoveIsNotTorn(st: State, st': State, level: nat, f: File)
    requires TrivialMove(st, st', level, f) && (level < |st.v| ==> CleanCut(st.v[level], [f]))
    ensures level < |st.v| && !EndsMidKey(st.v[level], f)
  {
    forall g: File | g in st.v[level] && g != f ensures SharesNoKey(f, g) {
      assert f in [f] && g !in [f];
    }
    assert f.entries[|f.entries| - 1] in f.entries;
    assert forall g: File :: g.entries[0] in g.entries;
  }

  lemma CompactionIsNotTorn(st: State, st': State, w: Work)
    requires Compact(st, st', w) && (w.level + 1 < |st.v| ==> CleanWork(st.v, w))
    ensures !Overtakes(st.v, w) && !SplitsAt(st, w, w.smallestSnapshot)
  {
    hide ValidWork, Outcome, IsNewest, Live, CleanWork, FollowsNext, BaseLevel;
    WorkSubsets(st.v, w);
    forall f: File, g: File | Crosses(st.v, w, f, g) ensures false {
      LeftOutSharesNone(st.v, w, w.level, f, g, f.entries[|f.entries| - 1]);
    }
    forall l: nat, f: File, d: Entry, g: File | Splits(st.v, w, l, f, d, g) ensures false {
      FollowerIsLeftOut(st.v, w, l, d, g);
      LeftOutSharesNone(st.v, w, l, f, g, d);
    }
  }

  lemma FollowerIsLeftOut(v: Version, w: Work, l: nat, d: Entry, g: File)
    requires FollowsNext(v, w, l, d, g)
    ensures LeftOut(v, w, l, g)
  {
  }

  /** Next to a clean cut no file begins with a key of an input. */
  lemma LeftOutSharesNone(v: Version, w: Work, l: nat, f: File, g: File, e: Entry)
    requires w.level + 1 < |v| && CleanWork(v, w) && Chosen(w, l, f) && LeftOut(v, w, l, g) && e in f.entries
    ensures Smallest(g).ukey != e.key.ukey
  {
    assert SharesNoKey(f, g) && g.entries[0] in g.entries;
  }

  // ---------------------------------------------------------------- runs

  /**
   In a run, every state satisfies the invariant exactly if no step breaks a user key apart:
   levels are in order, newer entries lie above older ones, and reads from the floor on see
   the whole history.
   */
  lemma {:induction false} RunKeepsInvIff(states: seq<State>)
    requires Run(states)
    ensures (forall i :: 0 <= i < |states| ==> Inv(states[i]))
       <==> forall i :: 0 < i < |states| ==> !Breaks(states[i - 1], states[i])
  {
    hide Inv, Next, Init, Breaks;
    if |states| == 1 {
      InitInv(states[0]);
    } else {
      var n := |states| - 1;
      RunPrefix(states);
      RunKeepsInvIff(states[..n]);
      if Inv(states[n - 1]) {
        StepKeepsInvIff(states[n - 1], states[n]);
      }
      assert forall i :: 0 <= i < n ==> states[..n][i] == states[i];
    }
  }
}
