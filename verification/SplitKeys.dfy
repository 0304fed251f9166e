/**
 Where the clean cut matters. Output files may be cut between two entries of one user key
 (db/db_impl.cc), and file selection compares user-key ranges only, so a later step can
 separate a newer entry from an older one.
 */
module SplitKeys {
  import opened Config
  import opened DbFormat
  import opened Options
  import opened VersionSet
  import opened Lookup
  import opened Compaction
  import opened Lsm
  import opened SplitReads

  /** `f` ends inside a user key: the next file of its level holds older entries of the same key. */
  ghost predicate EndsMidKey(files: seq<File>, f: File) {
    exists g :: g in files && g != f && Before(Largest(f), Smallest(g)) && Smallest(g).ukey == Largest(f).ukey
  }

  /** Above level 0, a trivial move keeps recency exactly when the moved file does not end inside a user key. */
  lemma MoveKeepsRecencyIff(v: Version, v': Version, level: nat, f: File)
    requires ValidVersion(v) && Recent(v) && UniqueVersions(VersionEntries(v))
    requires level > 0 && Moved(v, v', level, f)
    requires NoOverlap(v[level + 1], Smallest(f).ukey, Largest(f).ukey)
    ensures Recent(v') <==> !EndsMidKey(v[level], f)
  {
    if EndsMidKey(v[level], f) {
      var g :| g in v[level] && g != f && Before(Largest(f), Smallest(g)) && Smallest(g).ukey == Largest(f).ukey;
      assert g in v'[level] && f in v'[level + 1];
      assert f.entries[|f.entries| - 1] in f.entries && g.entries[0] in g.entries;
      assert !NewerThan(g, f);
    } else {
      forall g | g in v[level] && g != f ensures NewerThan(g, f) {
        NeighbourIsNewer(v, level, f, g);
      }
      MovedIsRecent(v, v', level, f);
    }
  }

  lemma NeighbourIsNewer(v: Version, level: nat, f: File, g: File)
    requires 0 < level < |v| && LevelOrdered(v[level]) && UniqueVersions(VersionEntries(v))
    requires f in v[level] && g in v[level] && g != f && !EndsMidKey(v[level], f)
    ensures NewerThan(g, f)
  {
    OrderedIsApart(v[level], f, g);
    forall e, e' | e in g.entries && e' in f.entries && e.key.ukey == e'.key.ukey ensures e.key.seqno > e'.key.seqno {
      InRange(g, e);
      InRange(f, e');
      assert e in Entries(v[level]) && e' in Entries(v[level]);
      assert e in VersionEntries(v) && e' in VersionEntries(v);
    }
  }

  // ---------------------------------------------------------------- a run that splits a key

  const C1: Entry := Entry(IKey(3, 1, Value), "old")
  const A2: Entry := Entry(IKey(1, 2, Value), "a")
  const C3: Entry := Entry(IKey(3, 3, Deletion), "")
  const B4: Entry := Entry(IKey(2, 4, Value), "b")

  const OLD_C: File := Table(2, [C1])
  const NEW_AC: File := Table(3, [A2, C3])
  const FILE_AC: File := Table(4, [A2, C3])
  const FILE_C: File := Table(5, [C1])
  const FILE_B: File := Table(6, [B4])

  const EMPTY: Version := [[], [], [], [], [], [], []]
  const OLD: Version := [[], [], [OLD_C], [], [], [], []]

  /** Key 3 has been deleted, and a snapshot that still sees its value is held. */
  const BEFORE: Version := [[], [NEW_AC], [OLD_C], [], [], [], []]
  const AFTER: Version := [[], [], [FILE_AC, FILE_C], [], [], [], []]

  /** Key 3 is split: its deletion ends one file of level 2, its older value starts the next. */
  const SPLIT: Version := [[], [FILE_B], [FILE_AC, FILE_C], [], [], [], []]

  /** Both entries of key 3 are kept for the snapshot, and the output is cut between them. */
  const CUT: Work := Work(1, [NEW_AC], [OLD_C], [A2, C3, C1], [FILE_AC, FILE_C], 1)

  ghost function Fresh(): State {
    State([], None, EMPTY, 0, multiset{}, 2, {}, 0)
  }

  ghost function OldWritten(): State {
    Fresh().(mem := [C1], lastSequence := 1, history := {C1})
  }

  ghost function OldSwitched(): State {
    OldWritten().(mem := [], imm := Some([C1]))
  }

  ghost function OldFlushed(): State {
    OldSwitched().(imm := None, v := OLD, nextFile := 3)
  }

  ghost function Held(): State {
    OldFlushed().(snapshots := multiset{1})
  }

  ghost function NewWritten(): State {
    Held().(mem := [A2, C3], lastSequence := 3, history := {A2, C1, C3})
  }

  ghost function NewSwitched(): State {
    NewWritten().(mem := [], imm := Some([A2, C3]))
  }

  ghost function Start(): State {
    NewSwitched().(imm := None, v := BEFORE, nextFile := 4)
  }

  ghost function Compacted(): State {
    Start().(v := AFTER, nextFile := 6, floor := 1)
  }

  ghost function Unheld(): State {
    Compacted().(snapshots := multiset{})
  }

  ghost function Written(): State {
    Unheld().(mem := [B4], lastSequence := 4, history := {A2, C1, C3, B4})
  }

  ghost function Switched(): State {
    Written().(mem := [], imm := Some([B4]))
  }

  ghost function Flushed(): State {
    Switched().(imm := None, v := SPLIT, nextFile := 7)
  }

  lemma Only(v: Version, l: nat, f: File)
    requires v == AFTER || v == SPLIT
    requires l < |v| && f in v[l]
    ensures v == AFTER ==> l == 2 && (f == FILE_AC || f == FILE_C)
    ensures v == SPLIT ==> (l == 1 && f == FILE_B) || (l == 2 && (f == FILE_AC || f == FILE_C))
  {
  }

  lemma OneFile(f: File)
    ensures Entries([f]) == Contents(f) && Flatten([f]) == f.entries
  {
    assert f in [f];
    assert Flatten([f]) == Flatten([]) + f.entries;
  }

  lemma CutCovers()
    ensures CoversNextLevel([OLD_C], [NEW_AC], [OLD_C])
  {
    assert NEW_AC in [NEW_AC];
    assert IsRange([NEW_AC], A2.key, C3.key);
    assert Overlaps(OLD_C, Some(1), Some(3));
    assert OverlappingUpTo([OLD_C], 1, Some(1), Some(3)) == OverlappingUpTo([OLD_C], 0, Some(1), Some(3)) + [OLD_C];
  }

  lemma CutKeepsAll()
    ensures Kept([A2, C3, C1], 3, BEFORE, 1, 1) == [A2, C3, C1]
  {
    var input := [A2, C3, C1];
    assert !Dropped(input, 0, BEFORE, 1, 1) && !Dropped(input, 1, BEFORE, 1, 1) && !Dropped(input, 2, BEFORE, 1, 1);
    assert Kept(input, 0, BEFORE, 1, 1) == [];
    assert Kept(input, 1, BEFORE, 1, 1) == [A2];
    assert Kept(input, 2, BEFORE, 1, 1) == [A2, C3];
  }

  lemma CutInput()
    ensures Sorted([A2, C3, C1]) && Elements([A2, C3, C1]) == {A2, C3, C1}
  {
  }

  lemma InputContents()
    ensures Contents(NEW_AC) == {A2, C3} && Contents(OLD_C) == {C1}
  {
  }

  lemma CutMerges()
    ensures Sorted(CUT.input) && Elements(CUT.input) == Entries(CUT.in0) + Entries(CUT.in1)
  {
    hide Entries, Contents, Sorted, Elements, Flatten;
    OneFile(NEW_AC);
    OneFile(OLD_C);
    InputContents();
    CutInput();
  }

  lemma CutWrites()
    ensures Flatten(CUT.outputs) == [A2, C3, C1]
  {
    assert [FILE_AC, FILE_C][..1] == [FILE_AC];
    OneFile(FILE_AC);
  }

  lemma CutIsValidWork()
    ensures ValidWork(BEFORE, CUT)
  {
    hide Kept, CoversNextLevel, Sorted, Elements, Entries, Flatten;
    CutCovers();
    CutKeepsAll();
    CutMerges();
    CutWrites();
  }

  lemma CutIsInstalled()
    ensures VersionEdited(BEFORE, AFTER, 1, {3}, {2}, [], [FILE_AC, FILE_C])
    ensures VersionEdited(AFTER, SPLIT, 1, {}, {}, [FILE_B], [])
    ensures Numbers([NEW_AC]) == {3} && Numbers([OLD_C]) == {2}
  {
    assert NEW_AC in [NEW_AC] && OLD_C in [OLD_C];
  }

  lemma CutIsMade()
    ensures Compact(Start(), Compacted(), CUT) && ReleaseSnapshot(Compacted(), Unheld(), 1)
  {
    hide ValidWork, VersionEdited;
    CutIsValidWork();
    CutIsInstalled();
  }

  lemma OneUpdate(op: Op, first: nat, e: Entry)
    requires e == Entry(IKey(op.ukey, first, op.kind), op.value)
    ensures BatchEntries([op], first) == {e} && Elements([e]) == {e} && Elements([]) == {}
  {
    forall x ensures x in BatchEntries([op], first) <==> x == e {
      assert Entry(IKey([op][0].ukey, first + 0, [op][0].kind), [op][0].value) == e;
    }
  }

  lemma OldIsWritten()
    ensures Init(Fresh()) && Write(Fresh(), OldWritten(), [Op(3, Value, "old")])
  {
    assert EMPTY == seq(NUM_LEVELS, i => []);
    OneUpdate(Op(3, Value, "old"), 1, C1);
  }

  lemma OldIsFlushed()
    ensures SwitchMemTable(OldWritten(), OldSwitched()) && Flush(OldSwitched(), OldFlushed(), 2)
    ensures GetSnapshot(OldFlushed(), Held())
  {
    hide VersionEdited;
    FlushesAreInstalled();
    assert Table(2, [C1]) == OLD_C;
    assert NoOverlap(EMPTY[0], 3, 3) && NoOverlap(EMPTY[1], 3, 3) && NoOverlap(EMPTY[2], 3, 3);
  }

  lemma NewIsWritten()
    ensures Write(Held(), NewWritten(), [Op(1, Value, "a"), Op(3, Deletion, "")])
  {
    var batch := [Op(1, Value, "a"), Op(3, Deletion, "")];
    forall e ensures e in BatchEntries(batch, 2) <==> e == A2 || e == C3 {
      assert Entry(IKey(batch[0].ukey, 2 + 0, batch[0].kind), batch[0].value) == A2;
      assert Entry(IKey(batch[1].ukey, 2 + 1, batch[1].kind), batch[1].value) == C3;
    }
    assert Elements([A2, C3]) == {A2, C3} && Elements([]) == {};
    assert {C1} + BatchEntries(batch, 2) == {A2, C1, C3};
  }

  lemma NewIsFlushed()
    ensures SwitchMemTable(NewWritten(), NewSwitched()) && Flush(NewSwitched(), Start(), 1)
  {
    hide VersionEdited;
    FlushesAreInstalled();
    assert Table(3, [A2, C3]) == NEW_AC;
    assert NoOverlap(OLD[0], 1, 3) && NoOverlap(OLD[1], 1, 3);
  }

  lemma FlushesAreInstalled()
    ensures VersionEdited(EMPTY, OLD, 2, {}, {}, [OLD_C], [])
    ensures VersionEdited(OLD, BEFORE, 1, {}, {}, [NEW_AC], [])
  {
    assert OLD_C in [OLD_C] && NEW_AC in [NEW_AC];
  }

  lemma NewKeyIsWritten()
    ensures Write(Unheld(), Written(), [Op(2, Value, "b")])
  {
    hide VersionEntries;
    var batch := [Op(2, Value, "b")];
    forall e ensures e in BatchEntries(batch, 4) <==> e == B4 {
      assert Entry(IKey(batch[0].ukey, 4 + 0, batch[0].kind), batch[0].value) == B4;
    }
    assert Elements([B4]) == {B4} && Elements([]) == {};
  }

  lemma NewKeyIsFlushed()
    ensures SwitchMemTable(Written(), Switched()) && Flush(Switched(), Flushed(), 1)
  {
    hide VersionEdited;
    CutIsInstalled();
    assert Table(6, [B4]) == FILE_B;
    assert NoOverlap(AFTER[0], 2, 2) && NoOverlap(AFTER[1], 2, 2);
  }

  ghost function Journey(): seq<State> {
    [Fresh(), OldWritten(), OldSwitched(), OldFlushed(), Held(), NewWritten(), NewSwitched(), Start(),
     Compacted(), Unheld(), Written(), Switched(), Flushed()]
  }

  lemma FirstSteps()
    ensures Next(Fresh(), OldWritten()) && Next(OldWritten(), OldSwitched()) && Next(OldSwitched(), OldFlushed())
    ensures Next(OldFlushed(), Held()) && Next(Held(), NewWritten()) && Next(NewWritten(), NewSwitched())
    ensures Next(NewSwitched(), Start())
  {
    hide Write, SwitchMemTable, Flush, GetSnapshot;
    OldIsWritten();
    OldIsFlushed();
    NewIsWritten();
    NewIsFlushed();
  }

  lemma LastSteps()
    ensures Next(Start(), Compacted()) && Next(Compacted(), Unheld()) && Next(Unheld(), Written())
    ensures Next(Written(), Switched()) && Next(Switched(), Flushed())
  {
    hide Compact, ReleaseSnapshot, Write, SwitchMemTable, Flush;
    CutIsMade();
    NewKeyIsWritten();
    NewKeyIsFlushed();
  }

  /**
   A deletion and the value it deletes come to lie in different files of a level in a run from
   the empty store: a snapshot keeps the value through a compaction whose output is cut between
   the two, and is then released.
   */
  lemma FlushedIsReached() returns (states: seq<State>)
    ensures Run(states) && states[|states| - 1] == Flushed() && Flushed().v == SPLIT
    ensures |states| == 13 && states[8] == Compacted() && Compact(states[7], states[8], CUT)
  {
    hide Next, Init, Compact;
    states := Journey();
    OldIsWritten();
    FirstSteps();
    LastSteps();
    CutIsMade();
  }

  // ---------------------------------------------------------------- what a move does then

  const TORN: Version := [[], [], [FILE_C], [FILE_AC], [], [], []]

  lemma MoveIsMade()
    ensures TrivialMove(Compacted(), Compacted().(v := TORN), 2, FILE_AC)
  {
    assert FILE_C in [FILE_C] && FILE_AC in [FILE_AC];
    assert NoOverlap(AFTER[3], 1, 3);
  }

  /** Right after that compaction a file ends inside a user key, and may be moved below the older value. */
  lemma MoveTearsKey() returns (states: seq<State>)
    ensures Run(states) && |states| == 10 && states[8] == Compacted() && EndsMidKey(AFTER[2], FILE_AC)
    ensures TrivialMove(states[8], states[9], 2, FILE_AC) && !Recent(states[9].v)
  {
    hide Next, Init, TrivialMove;
    states := Journey()[..9] + [Compacted().(v := TORN)];
    OldIsWritten();
    FirstSteps();
    LastSteps();
    MoveIsMade();
    MovesAreSteps(Compacted(), Compacted().(v := TORN), 2, FILE_AC);
    TornIsNotRecent();
  }

  lemma MovesAreSteps(st: State, st': State, level: nat, f: File)
    requires TrivialMove(st, st', level, f)
    ensures Next(st, st')
  {
    hide TrivialMove;
  }

  lemma TornIsNotRecent()
    ensures EndsMidKey(AFTER[2], FILE_AC) && !Recent(TORN)
  {
    assert FILE_C in AFTER[2] && FILE_C != FILE_AC;
    assert FILE_C in TORN[2] && FILE_AC in TORN[3];
    assert C1 in FILE_C.entries && C3 in FILE_AC.entries;
    assert !NewerThan(FILE_C, FILE_AC);
  }

  // ---------------------------------------------------------------- what the next compaction does

  const FILE_AB: File := Table(7, [A2, B4])
  const REVIVED: Version := [[], [], [FILE_AB, FILE_C], [], [], [], []]

  /** The two files chosen next, merged, with no snapshot held. */
  const INPUT: seq<Entry> := [A2, B4, C3]
  const NEXT: Work := Work(1, [FILE_B], [FILE_AC], INPUT, [FILE_AB], 4)

  ghost function Revived(): State {
    Flushed().(v := REVIVED, nextFile := 8, floor := 4)
  }

  lemma NextCovers()
    ensures CoversNextLevel(SPLIT[2], [FILE_B], [FILE_AC])
  {
    assert FILE_B in [FILE_B];
    assert IsRange([FILE_B], B4.key, B4.key);
    assert Overlaps(FILE_AC, Some(2), Some(2)) && !Overlaps(FILE_C, Some(2), Some(2));
    assert OverlappingUpTo(SPLIT[2], 1, Some(2), Some(2)) == [FILE_AC];
    assert OverlappingUpTo(SPLIT[2], 2, Some(2), Some(2)) == [FILE_AC];
  }

  lemma NextMerges()
    ensures Sorted(INPUT) && Elements(INPUT) == Entries([FILE_B]) + Entries([FILE_AC])
  {
    OneFile(FILE_B);
    OneFile(FILE_AC);
    assert Contents(FILE_B) == {B4} && Contents(FILE_AC) == {A2, C3} && Elements(INPUT) == {A2, B4, C3};
  }

  /** The deletion is dropped: no snapshot asks for it, and no deeper level has the key. */
  lemma NextKeeps()
    ensures Flatten(NEXT.outputs) == Kept(INPUT, 3, SPLIT, 1, 4)
  {
    forall l, f | 3 <= l < |SPLIT| && f in SPLIT[l] ensures false {
      Only(SPLIT, l, f);
    }
    OneFile(FILE_AB);
    assert Obsolete(C3, SPLIT, 1, 4) && Dropped(INPUT, 2, SPLIT, 1, 4);
    assert !Dropped(INPUT, 0, SPLIT, 1, 4) && !Dropped(INPUT, 1, SPLIT, 1, 4);
    assert Kept(INPUT, 0, SPLIT, 1, 4) == [];
    assert Kept(INPUT, 1, SPLIT, 1, 4) == [A2];
    assert Kept(INPUT, 2, SPLIT, 1, 4) == [A2, B4];
  }

  /** All its selection demands is met. */
  lemma NextIsValidWork()
    ensures ValidWork(SPLIT, NEXT)
  {
    hide CoversNextLevel, Kept, Sorted, Elements, Entries, Flatten;
    NextCovers();
    NextMerges();
    NextKeeps();
  }

  lemma NextIsInstalled()
    ensures VersionEdited(SPLIT, REVIVED, 1, Numbers([FILE_B]), Numbers([FILE_AC]), [], [FILE_AB])
  {
    assert FILE_B in [FILE_B] && FILE_AC in [FILE_AC] && FILE_AB in [FILE_AB];
    assert Numbers([FILE_B]) == {6} && Numbers([FILE_AC]) == {4};
  }

  lemma NextIsMade()
    ensures Compact(Flushed(), Revived(), NEXT)
  {
    hide ValidWork, VersionEdited;
    NextIsValidWork();
    NextIsInstalled();
  }

  lemma NextSplits()
    ensures SplitsDeletion(SPLIT, NEXT)
  {
    forall l, f | 3 <= l < |SPLIT| && f in SPLIT[l] ensures false {
      Only(SPLIT, l, f);
    }
    forall h | LeftOut(SPLIT, NEXT, 2, h) ensures h == FILE_C {
      Only(SPLIT, 2, h);
    }
    assert LeftOut(SPLIT, NEXT, 2, FILE_C);
    assert Splits(SPLIT, NEXT, 2, FILE_AC, C3, FILE_C);
  }

  lemma DeletionIsNewest()
    ensures ReadAt({A2, C1, C3, B4}, 3, 4) == None
  {
    assert IsNewest({A2, C1, C3, B4}, 3, 4, C3);
    ReadIs({A2, C1, C3, B4}, 3, 4, C3);
  }

  lemma OldValueIsLeft()
    ensures ReadAt(Live(Revived()), 3, 4) == Some("old")
  {
    var S := Live(Revived());
    assert FILE_C in REVIVED[2] && C1 in FILE_C.entries && C1 in Entries(REVIVED[2]);
    forall x | x in S && x.key.ukey == 3 ensures x == C1 {
      var l, f :| 0 <= l < |REVIVED| && f in REVIVED[l] && x in f.entries;
    }
    assert IsNewest(S, 3, 4, C1);
  }

  /** In that run's last state the code may compact these files, and then a deleted value is read again. */
  lemma NextRevivesDeletedValue() returns (states: seq<State>)
    ensures Run(states) && |states| == 14 && Compact(states[12], states[13], NEXT)
    ensures ReadAt(states[13].history, 3, 4) == None && ReadAt(Live(states[13]), 3, 4) == Some("old")
  {
    hide ReadAt, Live, Next, Init, Compact;
    states := FlushedIsReached();
    states := states + [Revived()];
    NextIsMade();
    CompactionsAreSteps(Flushed(), Revived(), NEXT);
    DeletionIsNewest();
    OldValueIsLeft();
  }

  lemma CompactionsAreSteps(st: State, st': State, w: Work)
    requires Compact(st, st', w)
    ensures Next(st, st')
  {
    hide Compact;
  }
}
