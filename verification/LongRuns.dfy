/**
 Runs in which a compaction takes its time: it reads the version of one state, memtables are
 written, switched and flushed and snapshots come and go, and it is installed in a later state.
 These are the runs in which every state satisfies the invariant of the store.
 */
module LongRuns {
  import opened Config
  import opened DbFormat
  import opened Options
  import opened VersionSet
  import opened Lookup
  import opened Compaction
  import opened Lsm
  import opened SplitReads
  import opened SplitKeys
  import opened SplitRuns
  import opened CompactionCommit

  // ---------------------------------------------------------------- steps

  /** The compaction `w`, begun in state `st0`, is installed in state `st`. */
  ghost predicate Finishes(st0: State, st: State, st': State, w: Work) {
    && ValidWork(st0.v, w) && SmallestSnapshot(st0, w.smallestSnapshot)
    && |st.v| == NUM_LEVELS && st'.nextFile >= st.nextFile && NumberedApart(st.v, w.outputs, st'.nextFile)
    && VersionEdited(st.v, st'.v, w.level, Numbers(w.in0), Numbers(w.in1), [], w.outputs)
    && st' == st.(v := st'.v, nextFile := st'.nextFile, floor := w.smallestSnapshot)
  }

  /** Between states `i` and `j` no file has been moved or compacted. */
  ghost predicate OnlyMeanwhile(states: seq<State>, i: nat, j: nat)
    requires j < |states|
  {
    forall n {:trigger states[n]} :: i <= n < j ==> Meanwhile(states[n], states[n + 1])
  }

  /** A compaction begun in state `i` is installed in state `j`. */
  ghost predicate FinishesAt(states: seq<State>, i: nat, j: nat, w: Work)
    requires j + 1 < |states|
  {
    i <= j && OnlyMeanwhile(states, i, j) && Finishes(states[i], states[j], states[j + 1], w)
  }

  ghost predicate StepAt(states: seq<State>, j: nat)
    requires j + 1 < |states|
  {
    || Meanwhile(states[j], states[j + 1])
    || Moves(states[j], states[j + 1])
    || (exists i: nat, w: Work :: FinishesAt(states, i, j, w))
  }

  ghost predicate Moves(st: State, st': State) {
    exists level: nat, f: File :: TrivialMove(st, st', level, f)
  }

  ghost predicate LongRun(states: seq<State>) {
    states != [] && Init(states[0]) && forall j :: 0 <= j < |states| - 1 ==> StepAt(states, j)
  }

  // ---------------------------------------------------------------- what stays true meanwhile

  /** `st` is a state that comes after `st0` with nothing moved or compacted between. */
  ghost predicate Later(st0: State, st: State) {
    && GrownFrom(st0.v, st.v) && st0.lastSequence <= st.lastSequence && st.floor == st0.floor
    && forall s :: s in st.snapshots ==> s in st0.snapshots || s >= st0.lastSequence
  }

  lemma LaterFromStart(st: State)
    requires Inv(st)
    ensures Later(st, st)
  {
    hide Recent, UniqueNumbers, LevelOrdered;
    assert forall l :: 0 <= l < NUM_LEVELS ==> Subset(st.v[l], st.v[l]);
  }

  lemma MeanwhileIsLater(st0: State, st: State, st': State)
    requires Inv(st) && Later(st0, st) && Meanwhile(st, st')
    ensures Later(st0, st') && Inv(st')
  {
    hide GrownFrom, Inv, Flush, Write;
    MeanwhileKeepsInv(st, st');
    if level :| Flush(st, st', level) {
      FlushIsLater(st0, st, st', level);
    } else if batch :| Write(st, st', batch) {
      WriteIsLater(st0, st, st', batch);
    }
  }

  lemma FlushIsLater(st0: State, st: State, st': State, level: nat)
    requires Inv(st) && Later(st0, st) && Flush(st, st', level)
    ensures Later(st0, st')
  {
    hide GrownFrom, Faithful, Bounded, VersionEdited, NoOverlap;
    FlushGrows(st0.v, st, st', level);
  }

  lemma WriteIsLater(st0: State, st: State, st': State, batch: seq<Op>)
    requires Later(st0, st) && Write(st, st', batch)
    ensures Later(st0, st')
  {
    hide GrownFrom;
  }

  lemma {:induction false} LaterAt(states: seq<State>, i: nat, j: nat)
    requires i <= j < |states| && OnlyMeanwhile(states, i, j) && Inv(states[i])
    ensures Later(states[i], states[j]) && Inv(states[j])
    decreases j
  {
    hide Inv, Later, Meanwhile;
    if i == j {
      LaterFromStart(states[i]);
    } else {
      LaterAt(states, i, j - 1);
      MeanwhileIsLater(states[i], states[j - 1], states[j]);
    }
  }

  // ---------------------------------------------------------------- the end of a compaction

  /** What the memtables hold. */
  ghost function InMemory(st: State): set<Entry> {
    Elements(st.mem) + ImmElements(st)
  }

  lemma FinishInstalls(st0: State, st: State, st': State, w: Work)
    requires Inv(st0) && Inv(st) && Later(st0, st) && Finishes(st0, st, st', w)
    ensures Installs(st0.v, st.v, st'.v, w, st'.nextFile)
    ensures AllNewer(InMemory(st), VersionEntries(st.v)) && UniqueVersions(VersionEntries(st.v) + InMemory(st))
    ensures Live(st) == VersionEntries(st.v) + InMemory(st) && Live(st') == VersionEntries(st'.v) + InMemory(st)
  {
    hide GrownFrom, Recent, ValidVersion, Faithful, ValidWork, VersionEdited, NumberedApart, VersionEntries;
    assert Live(st) == VersionEntries(st.v) + InMemory(st);
    NumbersStayUnique(st.v, st.nextFile, st'.nextFile);
  }

  lemma NumbersStayUnique(v: Version, n: nat, n': nat)
    requires UniqueNumbers(v, n) && n <= n'
    ensures UniqueNumbers(v, n')
  {
  }

  lemma InstalledShrinks(v: Version, u: Version, u': Version, w: Work, nextFile: nat)
    requires Installs(v, u, u', w, nextFile)
    ensures VersionEntries(u') <= VersionEntries(u)
  {
    hide ValidVersion, Recent, UniqueNumbers, NumberedApart, VersionEdited, UniqueVersions, GrownFrom, Replaced,
        FromInputs, Entries, CoversNextLevel, CleanCut, Sorted, Flatten;
    InstalledIsReplaced(v, u, u', w, nextFile);
    ReplacedEntries(u, u', w);
    OutputsAreOutcome(v, w);
    KeptMembers(w.input, |w.input|, v, w.level, w.smallestSnapshot);
  }

  /** Apart from the order of the levels, recency and reads, the invariant always holds afterwards. */
  lemma FinishKeepsRest(st0: State, st: State, st': State, w: Work)
    requires Inv(st0) && Inv(st) && Later(st0, st) && Finishes(st0, st, st', w)
    ensures WellFormed(st') <==> ValidVersion(st'.v) && Recent(st'.v)
    ensures Bounded(st') && st'.floor >= st.floor && st'.history == st.history
  {
    hide GrownFrom, Recent, ValidVersion, Faithful, ValidWork, VersionEdited, NumberedApart, VersionEntries,
        UniqueNumbers, Installs, AllNewer, UniqueVersions;
    FinishInstalls(st0, st, st', w);
    InstalledIsUnique(st0.v, st.v, st'.v, w, st'.nextFile);
    InstalledShrinks(st0.v, st.v, st'.v, w, st'.nextFile);
    SubsetNewer(Elements(st.mem), VersionEntries(st.v), Elements(st.mem), VersionEntries(st'.v));
    SubsetNewer(ImmElements(st), VersionEntries(st.v), ImmElements(st), VersionEntries(st'.v));
  }

  lemma InstalledIsUnique(v: Version, u: Version, u': Version, w: Work, nextFile: nat)
    requires Installs(v, u, u', w, nextFile)
    ensures UniqueNumbers(u', nextFile)
  {
    InstalledIsReplaced(v, u, u', w, nextFile);
  }

  /** A compaction encloses a file flushed meanwhile, overtakes an older entry, or brings back a deleted value. */
  ghost predicate GoesWrong(st0: State, st: State, w: Work) {
    && |st0.v| == |st.v| == NUM_LEVELS && w.level + 1 < NUM_LEVELS
    && (!NothingEnclosed(st0.v, st.v, w) || Overtakes(st0.v, w) || SplitsOver(st0.v, w, Live(st)))
  }

  /** A compaction begun in one state and installed in a later one keeps the invariant just if it does not go wrong. */
  lemma FinishKeepsInvIff(st0: State, st: State, st': State, w: Work)
    requires Inv(st0) && Inv(st) && Later(st0, st) && Finishes(st0, st, st', w)
    ensures Inv(st') <==> !GoesWrong(st0, st, w)
  {
    hide Recent, ValidVersion, Live, UniqueVersions, WellFormed, Bounded, Faithful, VersionEdited, ValidWork, AllNewer,
        NothingEnclosed, Overtakes, SplitsOver, ReadAt, Installs, InMemory, VersionEntries, Later;
    FinishInstalls(st0, st, st', w);
    FinishKeepsRest(st0, st, st', w);
    FinishLevels(st0, st, st', w);
    InstalledInOrderIff(st0.v, st.v, st'.v, w, st'.nextFile);
    InstalledIsRecentIff(st0.v, st.v, st'.v, w, st'.nextFile);
    InstalledKeepsReadsIff(st0.v, st.v, st'.v, w, st'.nextFile, InMemory(st));
    IsFaithful(st);
    FaithfulIff(st, st');
  }

  lemma FinishLevels(st0: State, st: State, st': State, w: Work)
    requires Inv(st0) && Inv(st) && Later(st0, st) && Finishes(st0, st, st', w)
    ensures |st0.v| == |st.v| == NUM_LEVELS && w.level + 1 < NUM_LEVELS
  {
  }

  lemma IsFaithful(st: State)
    requires Inv(st)
    ensures Faithful(st)
  {
  }

  // ---------------------------------------------------------------- runs

  /** The move takes a file that ends inside a user key. */
  ghost predicate MovesWrong(st: State, st': State) {
    exists level: nat, f: File :: TrivialMove(st, st', level, f) && level > 0 && EndsMidKey(st.v[level], f)
  }

  ghost predicate FinishesWrong(states: seq<State>, i: nat, j: nat, w: Work)
    requires j + 1 < |states|
  {
    FinishesAt(states, i, j, w) && GoesWrong(states[i], states[j], w)
  }

  /** Step `j` tears a user key apart or encloses a file. */
  ghost predicate BreaksAt(states: seq<State>, j: nat)
    requires j + 1 < |states|
  {
    MovesWrong(states[j], states[j + 1]) || (exists i: nat, w: Work :: FinishesWrong(states, i, j, w))
  }

  lemma FinishAtKeepsInvIff(states: seq<State>, i: nat, j: nat, w: Work)
    requires j + 1 < |states| && FinishesAt(states, i, j, w) && forall n :: 0 <= n <= j ==> Inv(states[n])
    ensures Inv(states[j + 1]) <==> !FinishesWrong(states, i, j, w)
  {
    hide Inv, Finishes, GoesWrong;
    LaterAt(states, i, j);
    FinishKeepsInvIff(states[i], states[j], states[j + 1], w);
  }

  lemma WrongMoveBreaks(st: State, st': State)
    requires Inv(st) && Moves(st, st')
    ensures Inv(st') <==> !MovesWrong(st, st')
  {
    hide Inv, TrivialMove, EndsMidKey;
    MovesAreAtLevels(st, st');
    if level: nat, f :| TrivialMove(st, st', level, f) && level > 0 && EndsMidKey(st.v[level], f) {
      MoveKeepsInvIff(st, st', level, f);
    } else {
      var level: nat, f :| TrivialMove(st, st', level, f);
      MoveKeepsInvIff(st, st', level, f);
    }
  }

  lemma StepAtKeepsInvIff(states: seq<State>, j: nat)
    requires j + 1 < |states| && StepAt(states, j) && forall i :: 0 <= i <= j ==> Inv(states[i])
    ensures Inv(states[j + 1]) <==> !BreaksAt(states, j)
  {
    hide Inv, Moves, MovesWrong, FinishesAt, FinishesWrong, Meanwhile;
    WrongIsAStep(states, j);
    if Moves(states[j], states[j + 1]) {
      WrongMoveBreaks(states[j], states[j + 1]);
    }
    if i: nat, w :| FinishesWrong(states, i, j, w) {
      FinishAtKeepsInvIff(states, i, j, w);
    } else if i: nat, w :| FinishesAt(states, i, j, w) {
      FinishAtKeepsInvIff(states, i, j, w);
    }
    if Meanwhile(states[j], states[j + 1]) {
      MeanwhileKeepsInv(states[j], states[j + 1]);
    }
  }

  lemma WrongIsAStep(states: seq<State>, j: nat)
    requires j + 1 < |states|
    ensures MovesWrong(states[j], states[j + 1]) ==> Moves(states[j], states[j + 1])
    ensures forall i: nat, w: Work :: FinishesWrong(states, i, j, w) ==> FinishesAt(states, i, j, w)
  {
    hide EndsMidKey, FinishesAt, VersionEdited, NoOverlap;
    if MovesWrong(states[j], states[j + 1]) {
      var level: nat, f: File :|
        TrivialMove(states[j], states[j + 1], level, f) && level > 0 && EndsMidKey(states[j].v[level], f);
    }
  }

  /**
   In a run with compactions that take their time, every state satisfies the invariant of the
   store exactly if no step tears a user key apart or encloses a file flushed meanwhile.
   */
  lemma {:induction false} LongRunKeepsInvIff(states: seq<State>)
    requires LongRun(states)
    ensures (forall j :: 0 <= j < |states| ==> Inv(states[j]))
       <==> forall j :: 0 <= j < |states| - 1 ==> !BreaksAt(states, j)
  {
    hide Inv, Init, StepAt, BreaksAt;
    InitInv(states[0]);
    if forall j :: 0 <= j < |states| - 1 ==> !BreaksAt(states, j) {
      AllSound(states, |states| - 1);
    }
    forall j | 0 <= j < |states| - 1 && forall n :: 0 <= n < |states| ==> Inv(states[n]) ensures !BreaksAt(states, j) {
      assert StepAt(states, j);
      StepAtKeepsInvIff(states, j);
    }
  }

  lemma {:induction false} AllSound(states: seq<State>, n: nat)
    requires n < |states| && Inv(states[0]) && forall j :: 0 <= j < n ==> StepAt(states, j) && !BreaksAt(states, j)
    ensures forall j :: 0 <= j <= n ==> Inv(states[j])
  {
    hide Inv, StepAt, BreaksAt;
    if n > 0 {
      AllSound(states, n - 1);
      StepAtKeepsInvIff(states, n - 1);
    }
  }

  /** A step does not change what was written before. */
  lemma StepAtKeepsPast(states: seq<State>, j: nat, k: UserKey, s: nat)
    requires j + 1 < |states| && StepAt(states, j) && Inv(states[j]) && s <= states[j].lastSequence
    ensures s <= states[j + 1].lastSequence
    ensures ReadAt(states[j + 1].history, k, s) == ReadAt(states[j].history, k, s)
  {
    hide ReadAt, VersionEdited, NoOverlap, Flush, ValidWork, NumberedApart, OnlyMeanwhile, WellFormed, Faithful;
    if Writes(states[j], states[j + 1]) {
      WritesKeepPast(states[j], states[j + 1], k, s);
    } else {
      OnlyWritesAddHistory(states, j);
    }
  }

  ghost predicate Writes(st: State, st': State) {
    exists batch :: Write(st, st', batch)
  }

  lemma WritesKeepPast(st: State, st': State, k: UserKey, s: nat)
    requires Inv(st) && Writes(st, st') && s <= st.lastSequence
    ensures st.lastSequence <= st'.lastSequence && ReadAt(st'.history, k, s) == ReadAt(st.history, k, s)
  {
    hide ReadAt;
    var batch :| Write(st, st', batch);
    WriteKeepsPast(st, st', batch, k, s);
  }

  lemma OnlyWritesAddHistory(states: seq<State>, j: nat)
    requires j + 1 < |states| && StepAt(states, j)
    requires !Writes(states[j], states[j + 1])
    ensures states[j + 1].history == states[j].history && states[j + 1].lastSequence == states[j].lastSequence
  {
    hide VersionEdited, NoOverlap, ValidWork, NumberedApart, OnlyMeanwhile, Write, SmallestSnapshot;
  }

  lemma {:induction false} LongRunKeepsPast(states: seq<State>, i: nat, j: nat, k: UserKey, s: nat)
    requires LongRun(states) && i <= j < |states| && s <= states[i].lastSequence
    requires forall n :: 0 <= n < |states| ==> Inv(states[n])
    ensures s <= states[j].lastSequence
    ensures ReadAt(states[j].history, k, s) == ReadAt(states[i].history, k, s)
    decreases j
  {
    hide Inv, StepAt, Init, ReadAt;
    if i < j {
      LongRunKeepsPast(states, i, j - 1, k, s);
      StepAtKeepsPast(states, j - 1, k, s);
    }
  }

  /** A snapshot taken at state `i` and still held at state `j` reads the writes made before it. */
  lemma SnapshotsAreFrozen(states: seq<State>, i: nat, j: nat, k: UserKey)
    requires LongRun(states) && i <= j < |states|
    requires forall n :: 0 <= n < |states| - 1 ==> !BreaksAt(states, n)
    requires states[i].lastSequence in states[j].snapshots
    ensures ReadAt(Live(states[j]), k, states[i].lastSequence) == ReadAt(states[i].history, k, states[i].lastSequence)
  {
    hide LongRun, BreaksAt, ReadAt, Live;
    LongRunKeepsInvIff(states);
    LongRunKeepsPast(states, i, j, k, states[i].lastSequence);
    HeldIsFaithful(states[j], k, states[i].lastSequence);
  }

  lemma HeldIsFaithful(st: State, k: UserKey, s: nat)
    requires Inv(st) && s in st.snapshots
    ensures ReadAt(Live(st), k, s) == ReadAt(st.history, k, s)
  {
  }
}
