/**
 When a compaction whose inputs are not a clean cut can bring a deleted value back: exactly
 when the first file left out after some deletion begins with the value it deleted. File
 selection (db/version_set.cc, SetupOtherInputs) does not look for such files.
 */
module SplitReads {
  import opened Config
  import opened DbFormat
  import opened Options
  import opened VersionSet
  import opened Lookup
  import opened Compaction
  import opened Lsm

  /** The inputs as SetupOtherInputs leaves them, merged in key order; only level 0 is known to be cut cleanly. */
  ghost predicate Selected(v: Version, w: Work) {
    && |v| == NUM_LEVELS && w.level + 1 < NUM_LEVELS
    && Subset(w.in0, v[w.level]) && Subset(w.in1, v[w.level + 1])
    && CoversNextLevel(v[w.level + 1], w.in0, w.in1)
    && (w.level == 0 ==> CleanCut(v[0], w.in0))
    && Sorted(w.input) && Elements(w.input) == Entries(w.in0) + Entries(w.in1)
  }

  ghost predicate LeftOut(v: Version, w: Work, l: nat, g: File) {
    l < |v| && g in v[l] && !Chosen(w, l, g)
  }

  /** Of the files of level `l` that are left out, `g` is the first to begin after `d`. */
  ghost predicate FollowsNext(v: Version, w: Work, l: nat, d: Entry, g: File) {
    && LeftOut(v, w, l, g) && Before(d.key, Smallest(g))
    && forall h :: LeftOut(v, w, l, h) && Before(d.key, Smallest(h)) ==> h == g || Before(Smallest(g), Smallest(h))
  }

  /**
   The compaction can drop the deletion `d` of an input file, but leaves out `g`, which begins with
   what `d` deleted.
   */
  ghost predicate Splits(v: Version, w: Work, l: nat, f: File, d: Entry, g: File) {
    && Chosen(w, l, f) && d in f.entries && d.key.kind.Deletion? && BaseLevel(v, w.level, d.key.ukey)
    && FollowsNext(v, w, l, d, g) && Smallest(g).ukey == d.key.ukey && Smallest(g).kind.Value?
  }

  ghost predicate SplitsDeletion(v: Version, w: Work) {
    exists l, f, d, g :: Splits(v, w, l, f, d, g)
  }

  /** Such a deletion is what a read at `ss` sees. */
  ghost predicate SplitsAt(st: State, w: Work, ss: nat) {
    exists l, f, d, g :: Splits(st.v, w, l, f, d, g) && IsNewest(Live(st), d.key.ukey, ss, d)
  }

  // ---------------------------------------------------------------- where older entries are

  lemma {:induction false} ChosenIsThere(v: Version, w: Work, l: nat, f: File)
    requires Selected(v, w) && Chosen(w, l, f)
    ensures l < |v| && f in v[l]
  {
    hide CoversNextLevel, CleanCut, Sorted, Elements, Entries;
  }

  /** A file left out at a level an input comes from is apart from that input, except at level 0. */
  lemma {:induction false} LeftOutIsApart(v: Version, w: Work, l: nat, f: File, g: File)
    requires ValidVersion(v) && Selected(v, w) && Chosen(w, l, f) && LeftOut(v, w, l, g)
    ensures l > 0 ==> Apart(f, g)
    ensures l == 0 ==> SharesNoKey(f, g)
  {
    hide CoversNextLevel, Sorted, Elements, Entries;
    if l > 0 {
      OrderedIsApart(v[l], f, g);
    }
  }

  lemma ApartSharesNone(f: File, g: File, e: Entry)
    requires Apart(f, g) && e in f.entries
    ensures e !in g.entries
  {
    InRange(f, e);
    if e in g.entries {
      InRange(g, e);
      assert false;
    }
  }

  lemma InputsAreSorted(v: Version, w: Work)
    requires Selected(v, w)
    ensures Sorted(w.input)
  {
  }

  lemma {:induction false} InputIsFrom(v: Version, w: Work, e: Entry) returns (l: nat, f: File)
    requires Selected(v, w) && e in w.input
    ensures Chosen(w, l, f) && e in f.entries && l < |v| && f in v[l] && e in VersionEntries(v)
  {
    hide CoversNextLevel, CleanCut, Sorted;
    f := InputOrigin(w, e);
    l := if f in w.in0 then w.level else w.level + 1;
    assert f in v[l] && e in Entries(v[l]);
  }

  lemma LeftOutHolds(v: Version, w: Work, x: Entry) returns (m: nat, g: File)
    requires x in Untouched(v, w)
    ensures LeftOut(v, w, m, g) && x in g.entries
  {
    m, g :| m < |v| && g in v[m] && !Chosen(w, m, g) && x in g.entries;
  }

  /** What the store holds is what is merged and what is left behind. */
  lemma {:induction false} LiveIsInputsAndRest(st: State, w: Work)
    requires Selected(st.v, w)
    ensures Live(st) == Elements(w.input) + Rest(st, w)
  {
    hide Selected, CoversNextLevel, CleanCut, Sorted;
    forall e ensures e in VersionEntries(st.v) <==> e in Elements(w.input) + Untouched(st.v, w) {
      if l, g :| 0 <= l < |st.v| && g in st.v[l] && e in g.entries {
        FileIsChosenOrLeftOut(st.v, w, l, g, e);
      }
      if e in w.input {
        var l, f := InputIsFrom(st.v, w, e);
      }
      if e in Untouched(st.v, w) {
        var l, g := LeftOutHolds(st.v, w, e);
        assert e in Entries(st.v[l]);
      }
    }
  }

  lemma FileIsChosenOrLeftOut(v: Version, w: Work, l: nat, g: File, e: Entry)
    requires Selected(v, w) && l < |v| && g in v[l] && e in g.entries
    ensures e in w.input || e in Untouched(v, w)
  {
    hide CoversNextLevel, CleanCut, Sorted;
    if Chosen(w, l, g) {
      assert e in Entries(if l == w.level then w.in0 else w.in1) && e in Elements(w.input);
    }
  }

  /** No input is also left behind. */
  lemma {:induction false} InputsAreGone(st: State, w: Work, e: Entry)
    requires WellFormed(st) && Selected(st.v, w) && e in w.input
    ensures e !in Rest(st, w)
  {
    hide Selected, CoversNextLevel, CleanCut, Sorted, Apart, UniqueNumbers, LevelOrdered, Chosen, VersionEntries;
    var l, f := InputIsFrom(st.v, w, e);
    forall m, g | LeftOut(st.v, w, m, g) ensures e !in g.entries {
      if m == l {
        LeftOutIsApart(st.v, w, l, f, g);
        if l > 0 {
          ApartSharesNone(f, g, e);
        }
      } else {
        assert m < l ==> NewerThan(g, f);
        assert l < m ==> NewerThan(f, g);
      }
    }
    if e in Untouched(st.v, w) {
      var m, g := LeftOutHolds(st.v, w, e);
    }
  }

  /** Files at other levels that hold older entries of a user key lie so deep that the compaction looks for them. */
  lemma {:induction false} OlderIsAtLevel(v: Version, w: Work, l: nat, f: File, d: Entry, m: nat, g: File, x: Entry)
    requires ValidVersion(v) && Recent(v) && Selected(v, w) && Chosen(w, l, f) && LeftOut(v, w, m, g)
    requires d in f.entries && BaseLevel(v, w.level, d.key.ukey)
    requires x in g.entries && x.key.ukey == d.key.ukey && x.key.seqno < d.key.seqno
    ensures l > 0 && m == l
  {
    hide CoversNextLevel, CleanCut, Sorted, LevelOrdered, Elements, Entries;
    ChosenIsThere(v, w, l, f);
    InRange(g, x);
    assert m < w.level + 2;
    if m == l {
      LeftOutIsApart(v, w, l, f, g);
    }
    if l < m {
      UnchosenSharesNoKey(v[m], w.in0, w.in1, f, g);
    }
  }

  /** What is older than an input the compaction can drop, and is left behind, is at the level of that input. */
  lemma {:induction false} OlderIsBeside(st: State, w: Work, l: nat, f: File, d: Entry, x: Entry) returns (g: File)
    requires WellFormed(st) && Selected(st.v, w) && Chosen(w, l, f) && d in f.entries
             && BaseLevel(st.v, w.level, d.key.ukey)
    requires x in Rest(st, w) && x.key.ukey == d.key.ukey && x.key.seqno < d.key.seqno
    ensures l > 0 && LeftOut(st.v, w, l, g) && x in g.entries
  {
    hide Selected, Sorted, UniqueNumbers, LevelOrdered, Recent, BaseLevel, Chosen;
    ChosenIsThere(st.v, w, l, f);
    assert d in Entries(st.v[l]) && d in VersionEntries(st.v);
    assert x in Untouched(st.v, w);
    var m;
    m, g := LeftOutHolds(st.v, w, x);
    OlderIsAtLevel(st.v, w, l, f, d, m, g, x);
  }

  lemma {:induction false} OlderFollows(v: Version, w: Work, l: nat, f: File, d: Entry, g: File, x: Entry)
    requires ValidVersion(v) && Selected(v, w) && l > 0 && Chosen(w, l, f) && LeftOut(v, w, l, g)
    requires d in f.entries && x in g.entries && x.key.ukey == d.key.ukey && x.key.seqno < d.key.seqno
    ensures Before(d.key, Smallest(g)) && Smallest(g).ukey == d.key.ukey
  {
    LeftOutIsApart(v, w, l, f, g);
    InRange(f, d);
    InRange(g, x);
  }

  /** Among the files left out after `d` there is a first. */
  lemma {:induction false} SomeFollowsNext(v: Version, w: Work, l: nat, d: Entry, g: File) returns (first: File)
    requires 0 < l < |v| && LevelOrdered(v[l]) && LeftOut(v, w, l, g) && Before(d.key, Smallest(g))
    ensures FollowsNext(v, w, l, d, first) && (first == g || Before(Smallest(first), Smallest(g)))
  {
    LargestAscend(v[l]);
    var i := 0;
    while !(LeftOut(v, w, l, v[l][i]) && Before(d.key, Smallest(v[l][i])))
      invariant i < |v[l]| && exists j :: i <= j < |v[l]| && v[l][j] == g
      invariant forall j :: 0 <= j < i ==> !(LeftOut(v, w, l, v[l][j]) && Before(d.key, Smallest(v[l][j])))
      decreases |v[l]| - i
    {
      i := i + 1;
    }
    first := v[l][i];
    forall h | LeftOut(v, w, l, h) && Before(d.key, Smallest(h))
      ensures h == first || Before(Smallest(first), Smallest(h))
    {
      var j :| 0 <= j < |v[l]| && v[l][j] == h;
    }
  }

  // ---------------------------------------------------------------- reads

  lemma StateIsValid(st: State)
    requires WellFormed(st)
    ensures ValidVersion(st.v)
  {
  }

  /** The first entry of the file that follows is the newest left behind below the deletion. */
  lemma {:induction false} FollowerIsNewest(st: State, w: Work, l: nat, f: File, d: Entry, g: File)
    requires WellFormed(st) && UniqueVersions(Live(st)) && Selected(st.v, w) && Splits(st.v, w, l, f, d, g)
    requires Live(st) == Elements(w.input) + Rest(st, w) && d in w.input
    ensures IsNewest(Rest(st, w), d.key.ukey, d.key.seqno, g.entries[0])
  {
    hide Selected, Sorted, UniqueNumbers, LevelOrdered, BaseLevel, Recent, AllNewer, WellFormed, CoversNextLevel;
    var first := g.entries[0];
    assert first in g.entries && first in Untouched(st.v, w) && first in Rest(st, w);
    assert ValidVersion(st.v) by { StateIsValid(st); }
    InputsAreGone(st, w, d);
    forall x | x in Rest(st, w) && Visible(x, d.key.ukey, d.key.seqno) ensures x.key.seqno <= first.key.seqno {
      assert d in Live(st) && x in Live(st);
      var h := OlderIsBeside(st, w, l, f, d, x);
      OlderFollows(st.v, w, l, f, d, h, x);
      InRange(h, x);
    }
  }

  lemma {:induction false} SplitExposes(st: State, w: Work, ss: nat)
    requires WellFormed(st) && UniqueVersions(Live(st)) && Selected(st.v, w) && SplitsAt(st, w, ss)
    requires Live(st) == Elements(w.input) + Rest(st, w)
    ensures Exposes(w.input, Rest(st, w), st.v, w.level, ss)
  {
    hide Selected, WellFormed, Sorted, LevelOrdered, Rest, FollowsNext;
    var l, f, d, g :| Splits(st.v, w, l, f, d, g) && IsNewest(Live(st), d.key.ukey, ss, d);
    SplitIsInput(st.v, w, l, f, d, g);
    FollowerIsNewest(st, w, l, f, d, g);
    assert Live(st) == (set x | x in w.input) + Rest(st, w);
    assert IsNewest(Rest(st, w), d.key.ukey, ss, g.entries[0]);
  }

  lemma {:induction false} SplitIsInput(v: Version, w: Work, l: nat, f: File, d: Entry, g: File)
    requires Selected(v, w) && Splits(v, w, l, f, d, g)
    ensures d in w.input
  {
    hide CoversNextLevel, CleanCut, Sorted;
    assert d in Entries(if l == w.level then w.in0 else w.in1) && d in Elements(w.input);
  }

  lemma {:induction false} ExposedIsSplit(st: State, w: Work, ss: nat)
    requires WellFormed(st) && UniqueVersions(Live(st)) && Selected(st.v, w)
    requires Live(st) == Elements(w.input) + Rest(st, w)
    requires Exposes(w.input, Rest(st, w), st.v, w.level, ss)
    ensures SplitsAt(st, w, ss)
  {
    hide Selected, WellFormed, Sorted, LevelOrdered, Rest, Splits;
    var rest := Rest(st, w);
    assert Live(st) == (set e | e in w.input) + rest;
    var d, x :| && d in w.input && Obsolete(d, st.v, w.level, ss)
                && IsNewest((set e | e in w.input) + rest, d.key.ukey, ss, d)
                && IsNewest(rest, d.key.ukey, ss, x) && x.key.kind.Value?;
    assert d in Live(st) && x in Live(st) && x.key.seqno < d.key.seqno by {
      InputsAreGone(st, w, d);
    }
    var l, f := InputIsFrom(st.v, w, d);
    var g := OlderIsBeside(st, w, l, f, d, x);
    var next := NewestIsFirst(st, w, l, f, d, g, x, ss);
  }

  /**
   If the newest entry left behind below a deletion is in a file beside it, that is the first entry
   of the next file.
   */
  lemma {:induction false} NewestIsFirst(st: State, w: Work, l: nat, f: File, d: Entry, g: File, x: Entry, ss: nat)
      returns (next: File)
    requires WellFormed(st) && UniqueVersions(Live(st)) && Selected(st.v, w) && Rest(st, w) <= Live(st)
    requires l > 0 && Chosen(w, l, f) && d in f.entries && Obsolete(d, st.v, w.level, ss)
    requires LeftOut(st.v, w, l, g) && x in g.entries && x.key.seqno < d.key.seqno
    requires IsNewest(Rest(st, w), d.key.ukey, ss, x) && x.key.kind.Value?
    ensures Splits(st.v, w, l, f, d, next)
  {
    hide Selected, Sorted, LevelOrdered, UniqueNumbers, Recent, BaseLevel, Chosen, AllNewer;
    OlderFollows(st.v, w, l, f, d, g, x);
    next := SomeFollowsNext(st.v, w, l, d, g);
    InRange(g, x);
    var first := next.entries[0];
    assert first in next.entries && first in Untouched(st.v, w) && first in Rest(st, w);
    assert first.key.ukey == d.key.ukey && first.key.seqno == x.key.seqno;
    assert first in Live(st) && x in Live(st) && first == x;
  }

  /** Reads at `ss` and above survive a compaction that respects `ss` exactly if it splits no deletion seen at `ss`. */
  lemma {:induction false} ReadsSurviveAtIff(st: State, w: Work, ss: nat)
    requires WellFormed(st) && UniqueVersions(Live(st)) && Selected(st.v, w)
    ensures (forall k, s :: s >= ss ==>
               ReadAt(Outcome(w.input, st.v, w.level, ss) + Rest(st, w), k, s) == ReadAt(Live(st), k, s))
       <==> !SplitsAt(st, w, ss)
  {
    hide Selected, WellFormed, Sorted, SplitsAt, Exposes, UniqueVersions, ReadAt, Outcome, Rest, Live;
    LiveIsInputsAndRest(st, w);
    assert Sorted(w.input) by { InputsAreSorted(st.v, w); }
    var rest := Rest(st, w);
    assert Elements(w.input) == set e | e in w.input;
    forall e | e in w.input ensures e !in rest {
      InputsAreGone(st, w, e);
    }
    CompactionKeepsReadsIff(w.input, rest, st.v, w.level, ss);
    if SplitsAt(st, w, ss) {
      SplitExposes(st, w, ss);
    }
    if Exposes(w.input, rest, st.v, w.level, ss) {
      ExposedIsSplit(st, w, ss);
    }
  }

  /** A deletion that is split is seen at its own sequence number. */
  lemma {:induction false} SplitIsSeen(st: State, w: Work, l: nat, f: File, d: Entry, g: File)
    requires UniqueVersions(Live(st)) && Selected(st.v, w) && Splits(st.v, w, l, f, d, g)
    ensures SplitsAt(st, w, d.key.seqno)
  {
    hide Selected, Rest, Live;
    LiveIsInputsAndRest(st, w);
    SplitIsInput(st.v, w, l, f, d, g);
    assert IsNewest(Live(st), d.key.ukey, d.key.seqno, d);
  }

  /**
   Whatever snapshots are held when it runs, a compaction of these inputs keeps every read
   they can ask for, exactly if no deletion is split from the value it deletes.
   */
  lemma {:induction false} ReadsSurviveIff(st: State, w: Work)
    requires WellFormed(st) && UniqueVersions(Live(st)) && Selected(st.v, w)
    ensures (forall ss, k, s :: s >= ss ==>
               ReadAt(Outcome(w.input, st.v, w.level, ss) + Rest(st, w), k, s) == ReadAt(Live(st), k, s))
       <==> !SplitsDeletion(st.v, w)
  {
    hide Selected, WellFormed, Splits, UniqueVersions, ReadAt, Outcome, Rest, Live;
    if l, f, d, g :| Splits(st.v, w, l, f, d, g) {
      SplitIsSeen(st, w, l, f, d, g);
      ReadsSurviveAtIff(st, w, d.key.seqno);
    }
    forall ss, k, s | s >= ss && !SplitsDeletion(st.v, w)
      ensures ReadAt(Outcome(w.input, st.v, w.level, ss) + Rest(st, w), k, s) == ReadAt(Live(st), k, s)
    {
      ReadsSurviveAtIff(st, w, ss);
    }
  }
}
