/**
 A run in which a compaction leaves a level out of order: its inputs have a gap between them, as
 those of CompactRange may (db/version_set.cc), and a key in the gap is flushed while it runs.
 */
module GapRun {
  import opened Config
  import opened DbFormat
  import opened Options
  import opened VersionSet
  import opened Lookup
  import opened Compaction
  import opened Lsm
  import opened SplitKeys
  import opened CompactionRun
  import opened CompactionCommit
  import opened LongRuns

  const K1: Entry := Entry(IKey(1, 1, Value), "a")
  const K9: Entry := Entry(IKey(9, 2, Value), "b")
  const K5: Entry := Entry(IKey(5, 3, Value), "c")

  const LOW: File := Table(2, [K1])
  const HIGH: File := Table(3, [K9])
  const MIDDLE: File := Table(4, [K5])
  const WIDE: File := Table(5, [K1, K9])

  const START: Version := [[], [LOW, HIGH], [], [], [], [], []]
  const GROWN: Version := [[], [LOW, HIGH], [MIDDLE], [], [], [], []]
  const END: Version := [[], [], [WIDE, MIDDLE], [], [], [], []]

  /** CompactRange over the keys 1 to 9 of level 1. */
  const BOTH: Work := Work(1, [LOW, HIGH], [], [K1, K9], [WIDE], 2)

  lemma BothIsValidWork()
    ensures ValidWork(START, BOTH)
  {
    hide CoversNextLevel;
    BothCovers();
    OneFile(LOW);
    OneFile(HIGH);
    OneFile(WIDE);
    EntriesOfBoth([LOW], [HIGH]);
    assert [LOW, HIGH] == [LOW] + [HIGH];
    assert !Dropped([K1, K9], 0, START, 1, 2) && !Dropped([K1, K9], 1, START, 1, 2);
    assert Kept([K1, K9], 0, START, 1, 2) == [];
    assert Kept([K1, K9], 1, START, 1, 2) == [K1];
  }

  lemma BothCovers()
    ensures CoversNextLevel([], [LOW, HIGH], [])
  {
    assert LOW in [LOW, HIGH] && HIGH in [LOW, HIGH];
    assert IsRange([LOW, HIGH], K1.key, K9.key);
    assert OverlappingUpTo([], 0, Some(1), Some(9)) == [];
  }

  lemma BothIsInstalled()
    ensures VersionEdited(GROWN, END, 1, Numbers([LOW, HIGH]), Numbers([]), [], [WIDE])
  {
    assert LOW in [LOW, HIGH] && HIGH in [LOW, HIGH] && WIDE in [WIDE, MIDDLE] && MIDDLE in [MIDDLE];
    assert Numbers([LOW, HIGH]) == {2, 3} && Numbers([]) == {};
  }

  lemma MiddleIsFlushed()
    ensures GrownFrom(START, GROWN)
  {
    assert FlushedTo(START, 2, MIDDLE) by {
      assert !Overlaps(LOW, Some(5), Some(5)) && !Overlaps(HIGH, Some(5), Some(5));
      forall e | e in VersionEntries(START) ensures e.key.seqno < 3 {
        var l, f :| 0 <= l < |START| && f in START[l] && e in f.entries;
      }
    }
  }

  const EMPTY: Version := [[], [], [], [], [], [], []]
  const FIRST: Version := [[], [LOW], [], [], [], [], []]

  /** Three keys are written, each flushed before the next; with `v` after `n` of them. */
  ghost function After(n: nat, v: Version): State
    requires n <= 3
  {
    State([], None, v, n, multiset{}, 2 + n, History(n), 0)
  }

  ghost function History(n: nat): set<Entry>
    requires n <= 3
  {
    if n == 0 then {} else if n == 1 then {K1} else if n == 2 then {K1, K9} else {K1, K9, K5}
  }

  ghost function Filled(n: nat, v: Version, e: Entry): State
    requires n < 3
  {
    After(n, v).(mem := [e], lastSequence := n + 1, history := History(n + 1))
  }

  ghost function Full(n: nat, v: Version, e: Entry): State
    requires n < 3
  {
    Filled(n, v, e).(mem := [], imm := Some([e]))
  }

  lemma WriteAndSwitch(n: nat, v: Version, e: Entry)
    requires n < 3 && e.key.seqno == n + 1 && History(n + 1) == History(n) + {e} && e.key.kind.Value?
    ensures Meanwhile(After(n, v), Filled(n, v, e)) && Meanwhile(Filled(n, v, e), Full(n, v, e))
  {
    hide History;
    OneUpdate(Op(e.key.ukey, e.key.kind, e.value), n + 1, e);
    assert Write(After(n, v), Filled(n, v, e), [Op(e.key.ukey, e.key.kind, e.value)]);
    assert SwitchMemTable(Filled(n, v, e), Full(n, v, e));
  }

  lemma FlushesAreMade()
    ensures Meanwhile(Full(0, EMPTY, K1), After(1, FIRST)) && Meanwhile(Full(1, FIRST, K9), After(2, START))
    ensures Meanwhile(Full(2, START, K5), After(3, GROWN))
  {
    hide Meanwhile, VersionEdited;
    FlushesAreInstalled();
    assert !Overlaps(LOW, Some(9), Some(9));
    assert !Overlaps(LOW, Some(5), Some(5)) && !Overlaps(HIGH, Some(5), Some(5));
    FlushIsMade(0, EMPTY, FIRST, K1, LOW, 1);
    FlushIsMade(1, FIRST, START, K9, HIGH, 1);
    FlushIsMade(2, START, GROWN, K5, MIDDLE, 2);
  }

  lemma FlushesAreInstalled()
    ensures VersionEdited(EMPTY, FIRST, 1, {}, {}, [LOW], []) && VersionEdited(FIRST, START, 1, {}, {}, [HIGH], [])
    ensures VersionEdited(START, GROWN, 2, {}, {}, [MIDDLE], [])
  {
    assert LOW in [LOW] && LOW in [LOW, HIGH] && HIGH in [LOW, HIGH] && MIDDLE in [MIDDLE];
  }

  lemma FlushIsMade(n: nat, v: Version, v': Version, e: Entry, f: File, level: nat)
    requires n < 3 && f == Table(2 + n, [e]) && |v| == NUM_LEVELS && level <= MAX_MEM_COMPACT_LEVEL
    requires forall l :: 0 <= l <= level ==> NoOverlap(v[l], e.key.ukey, e.key.ukey)
    requires VersionEdited(v, v', level, {}, {}, [f], [])
    ensures Meanwhile(Full(n, v, e), After(n + 1, v'))
  {
    hide VersionEdited, NoOverlap;
    assert Flush(Full(n, v, e), After(n + 1, v'), level);
  }

  /** A lookup of the last key then searches level 2 in vain. */
  lemma SearchMissesKey()
    ensures SearchEnd(END[2], SeekKey(9, 3), 0, 2) == 2 == |END[2]|
    ensures IsNewest(VersionEntries(END), 9, 3, K9)
  {
    assert Before(Largest(MIDDLE), SeekKey(9, 3));
    assert WIDE in END[2] && K9 in WIDE.entries && K9 in Entries(END[2]);
    forall e | e in VersionEntries(END) && e.key.ukey == 9 ensures e == K9 {
      var l, f :| 0 <= l < |END| && f in END[l] && e in f.entries;
    }
  }

  /** The store when the compaction of both files has been installed. */
  ghost function Finished(): State {
    After(3, GROWN).(v := END, nextFile := 6, floor := 2)
  }

  lemma BothIsFinished()
    ensures Finishes(After(2, START), After(3, GROWN), Finished(), BOTH)
    ensures GrownFrom(START, GROWN) && Encloses(START, GROWN, BOTH, WIDE, MIDDLE)
    ensures !ValidVersion(END)
  {
    hide ValidWork, VersionEdited, GrownFrom;
    BothIsValidWork();
    BothIsInstalled();
    MiddleIsFlushed();
    assert NumberedApart(GROWN, BOTH.outputs, 6);
    assert !Before(Largest(END[2][0]), Smallest(END[2][1]));
  }

  ghost function Journey(): seq<State> {
    [After(0, EMPTY), Filled(0, EMPTY, K1), Full(0, EMPTY, K1), After(1, FIRST), Filled(1, FIRST, K9),
     Full(1, FIRST, K9), After(2, START), Filled(2, START, K5), Full(2, START, K5), After(3, GROWN), Finished()]
  }

  lemma JourneyIsLongRun()
    ensures LongRun(Journey()) && FinishesAt(Journey(), 6, 9, BOTH)
  {
    hide Meanwhile, Finishes, Encloses;
    var states := Journey();
    assert EMPTY == seq(NUM_LEVELS, i => []);
    WriteAndSwitch(0, EMPTY, K1);
    WriteAndSwitch(1, FIRST, K9);
    WriteAndSwitch(2, START, K5);
    FlushesAreMade();
    BothIsFinished();
    assert FinishesAt(states, 6, 9, BOTH);
    forall j | 0 <= j < |states| - 1 ensures StepAt(states, j) {
      assert j == 9 || Meanwhile(states[j], states[j + 1]);
    }
  }

  /**
   A run from the empty store: while two files of level 1 are compacted, a key between them is
   flushed to level 2, where the output then encloses it. FindFile no longer finds the output
   for its last key.
   */
  lemma GapBreaksLevel() returns (states: seq<State>)
    ensures LongRun(states) && |states| == 11 && FinishesAt(states, 6, 9, BOTH)
    ensures states[6].v == START && states[9].v == GROWN && states[10].v == END
    ensures Encloses(START, GROWN, BOTH, WIDE, MIDDLE) && !ValidVersion(END)
    ensures SearchEnd(END[2], SeekKey(9, 3), 0, 2) == |END[2]| && IsNewest(VersionEntries(END), 9, 3, K9)
  {
    hide LongRun, FinishesAt, Finishes;
    states := Journey();
    JourneyIsLongRun();
    BothIsFinished();
    SearchMissesKey();
  }
}
