/**
 Folding all edits of a manifest into one builder over the empty version gives the version
 that was built one edit at a time (db/version_set.cc:665-772, 820-1025).
 */
module ManifestReplay {
  import opened Options
  import opened Words
  import opened Coding
  import opened VersionEdit
  import opened VersionBuilder

  /** A file number stands for one file. */
  ghost predicate OneFilePerNumber(fs: seq<FileMeta>, gs: seq<FileMeta>) {
    forall f, g :: f in fs && g in gs && f.number == g.number ==> f == g
  }

  lemma {:induction false} InsertKeepsSorted(rank: Order, fs: seq<FileMeta>, f: FileMeta)
    requires Sorted(rank, fs) && OneFilePerNumber(fs, [f])
    ensures Sorted(rank, FileInsert(rank, fs, f))
    ensures forall g :: g in FileInsert(rank, fs, f) <==> g in fs || g == f
  {
    if fs != [] && FileLess(rank, fs[0], f) {
      SortedTail(rank, fs);
      InsertKeepsSorted(rank, fs[1..], f);
      SortedCons(rank, fs[0], FileInsert(rank, fs[1..], f), true);
    } else if fs != [] && FileLess(rank, f, fs[0]) {
      forall g | g in fs ensures FileLess(rank, f, g) {
        assert g == fs[0] || FileLess(rank, fs[0], g);
      }
      SortedCons(rank, f, fs, true);
    } else if fs != [] {
      assert fs[0] in fs && f in [f];
    }
  }

  /** Adding files one by one adds them all, and takes their numbers off the deleted ones. */
  lemma {:induction false} AddFilesHas(rank: Order, ls: LevelState, fs: seq<FileMeta>)
    requires Sorted(rank, ls.added) && OneFilePerNumber(ls.added + fs, fs)
    ensures var t := AddFiles(rank, ls, fs);
            && Sorted(rank, t.added) && (forall g :: g in t.added <==> g in ls.added || g in fs)
            && forall n :: n in t.deleted <==> n in ls.deleted && !Numbered(fs, n)
    decreases |fs|
  {
    if fs != [] {
      var last := |fs| - 1;
      var before, f := fs[..last], fs[last];
      assert forall g :: g in before ==> g in fs;
      assert forall g :: g in ls.added + before ==> g in ls.added + fs;
      AddFilesHas(rank, ls, before);
      var t := AddFiles(rank, ls, before);
      assert f in fs && fs == before + [f];
      assert forall g :: g in t.added ==> g in ls.added + fs;
      InsertKeepsSorted(rank, t.added, f);
      forall n ensures Numbered(fs, n) <==> Numbered(before, n) || n == f.number {
        NumberedOneMore(before, f, n);
      }
    }
  }

  ghost predicate Numbered(fs: seq<FileMeta>, n: uint64) {
    exists f :: f in fs && f.number == n
  }

  lemma NumberedOneMore(fs: seq<FileMeta>, f: FileMeta, n: uint64)
    ensures Numbered(fs + [f], n) <==> Numbered(fs, n) || n == f.number
  {
    assert f in fs + [f];
    if Numbered(fs, n) {
      var g :| g in fs && g.number == n;
      assert g in fs + [f];
    }
  }

  /** Files that were ever added to a level. */
  function EverAdded(es: seq<Edit>, level: Level): seq<FileMeta> {
    if es == [] then [] else EverAdded(es[..|es| - 1], level) + NewAt(es[|es| - 1].newFiles, level)
  }

  /** Each edit adds to the level only files that it does not hold then; a file never changes. */
  ghost predicate Fits(rank: Order, es: seq<Edit>, level: Level) {
    && OneFilePerNumber(EverAdded(es, level), EverAdded(es, level))
    && forall k {:trigger es[k]} :: 0 <= k < |es| ==> AddsOnlyNew(Steps(rank, es[..k], level),
       NewAt(es[k].newFiles, level))
  }

  ghost predicate AddsOnlyNew(fs: seq<FileMeta>, added: seq<FileMeta>) {
    forall f :: f in added ==> !Numbered(fs, f.number)
  }

  lemma AddedBefore(es: seq<Edit>, level: Level)
    requires es != []
    ensures forall f :: f in EverAdded(es[..|es| - 1], level) ==> f in EverAdded(es, level)
  {
  }

  lemma FitsBefore(rank: Order, es: seq<Edit>, level: Level)
    requires Fits(rank, es, level) && es != []
    ensures Fits(rank, es[..|es| - 1], level)
    ensures AddsOnlyNew(Steps(rank, es[..|es| - 1], level), NewAt(es[|es| - 1].newFiles, level))
  {
    var before := es[..|es| - 1];
    assert es[|es| - 1] == es[|es| - 1];
    AddedBefore(es, level);
    forall k {:trigger before[k]} | 0 <= k < |before|
      ensures AddsOnlyNew(Steps(rank, before[..k], level), NewAt(before[k].newFiles, level))
    {
      assert before[..k] == es[..k] && before[k] == es[k];
    }
  }

  /** What many edits at once have added and deleted on a level. */
  lemma {:induction false} AllAtOnce(rank: Order, es: seq<Edit>, level: Level)
    requires OneFilePerNumber(EverAdded(es, level), EverAdded(es, level))
    ensures var t := ApplyAll(rank, es, level);
            Sorted(rank, t.added) && forall g :: g in t.added <==> g in EverAdded(es, level)
    decreases |es|
  {
    if es != [] {
      var before, e := es[..|es| - 1], es[|es| - 1];
      assert forall f :: f in EverAdded(before, level) ==> f in EverAdded(es, level);
      AllAtOnce(rank, before, level);
      var t := ApplyAll(rank, before, level);
      var u := t.(deleted := t.deleted + DeletedAt(e.deletedFiles, level));
      AddFilesHas(rank, u, NewAt(e.newFiles, level));
    }
  }

  lemma NotInBoth(base: seq<FileMeta>, added: seq<FileMeta>, f: FileMeta)
    requires AddsOnlyNew(base, added)
    ensures f in base ==> !Numbered(added, f.number)
  {
    if f in base {
      forall g | g in added ensures g.number != f.number {
        assert !Numbered(base, g.number);
      }
    }
  }

  /** One edit more, on a version: its new files come in, files it deletes go unless added again. */
  lemma StepHas(rank: Order, base: seq<FileMeta>, e: Edit, level: Level)
    requires var new_ := NewAt(e.newFiles, level);
             Sorted(rank, base) && OneFilePerNumber(new_, new_) && AddsOnlyNew(base, new_)
    ensures Sorted(rank, Step(rank, base, e, level))
    ensures forall f :: f in Step(rank, base, e, level) <==>
              f in NewAt(e.newFiles, level) || (f in base && f.number !in DeletedAt(e.deletedFiles, level))
  {
    var new_ := NewAt(e.newFiles, level);
    var u := Fresh().(deleted := DeletedAt(e.deletedFiles, level));
    assert Fresh().deleted + DeletedAt(e.deletedFiles, level) == DeletedAt(e.deletedFiles, level);
    AddFilesHas(rank, u, new_);
    var t := ApplyAt(rank, Fresh(), e, level);
    forall f, g | f in base && g in t.added ensures FileLess(rank, f, g) || FileLess(rank, g, f) {
      assert !Numbered(base, g.number);
    }
    SavedIsSorted(rank, base, t);
    forall f
      ensures f in Saved(rank, base, t) <==> f in new_ || (f in base && f.number !in DeletedAt(e.deletedFiles, level))
    {
      SavedHas(rank, base, t, f);
      assert f in new_ ==> Numbered(new_, f.number);
      NotInBoth(base, new_, f);
    }
  }

  /** The version built edit by edit holds what was added and is not deleted. */
  lemma {:induction false} StepsHave(rank: Order, es: seq<Edit>, level: Level)
    requires Fits(rank, es, level)
    ensures Sorted(rank, Steps(rank, es, level))
    ensures var t := ApplyAll(rank, es, level);
            forall f :: f in Steps(rank, es, level) <==> f in t.added && f.number !in t.deleted
    decreases |es|
  {
    AllAtOnce(rank, es, level);
    if es != [] {
      var before, e := es[..|es| - 1], es[|es| - 1];
      var new_ := NewAt(e.newFiles, level);
      FitsBefore(rank, es, level);
      AddedBefore(es, level);
      StepsHave(rank, before, level);
      assert forall f :: f in new_ ==> f in EverAdded(es, level);
      StepHas(rank, Steps(rank, before, level), e, level);
      AllAtOnce(rank, before, level);
      var t := ApplyAll(rank, before, level);
      var u := t.(deleted := t.deleted + DeletedAt(e.deletedFiles, level));
      assert forall f :: f in t.added + new_ ==> f in EverAdded(es, level);
      AddFilesHas(rank, u, new_);
      var t' := ApplyAll(rank, es, level);
      forall f ensures f in Steps(rank, es, level) <==> f in t'.added && f.number !in t'.deleted {
        if f in t'.added && Numbered(new_, f.number) {
          var g :| g in new_ && g.number == f.number;
          assert g == f;
        }
        assert f in new_ ==> Numbered(new_, f.number);
      }
    }
  }

  /** One builder for all edits, over the empty version, saves the version built edit by edit. */
  lemma ReplayEqualsSteps(rank: Order, es: seq<Edit>, level: Level)
    requires Fits(rank, es, level)
    ensures Saved(rank, [], ApplyAll(rank, es, level)) == Steps(rank, es, level)
  {
    var t := ApplyAll(rank, es, level);
    StepsHave(rank, es, level);
    AllAtOnce(rank, es, level);
    SavedIsSorted(rank, [], t);
    forall f ensures f in Saved(rank, [], t) <==> f in Steps(rank, es, level) {
      SavedHas(rank, [], t, f);
    }
    SortedIsUnique(rank, Saved(rank, [], t), Steps(rank, es, level));
  }

  // ---- And when it does not

  function Count(fs: seq<FileMeta>, f: FileMeta): nat {
    if fs == [] then 0 else (if fs[0] == f then 1 else 0) + Count(fs[1..], f)
  }

  lemma {:induction false} CountAppend(a: seq<FileMeta>, b: seq<FileMeta>, f: FileMeta)
    ensures Count(a + b, f) == Count(a, f) + Count(b, f)
  {
    if a == [] {
      assert a + b == b;
    } else {
      assert (a + b)[1..] == a[1..] + b;
      CountAppend(a[1..], b, f);
    }
  }

  lemma {:induction false} CountKept(fs: seq<FileMeta>, deleted: set<uint64>, f: FileMeta)
    requires f.number !in deleted
    ensures Count(Kept(fs, deleted), f) == Count(fs, f)
  {
    if fs != [] {
      CountKept(fs[1..], deleted, f);
      CountAppend(if fs[0].number in deleted then [] else [fs[0]], Kept(fs[1..], deleted), f);
    }
  }

  lemma {:induction false} CountSaved(rank: Order, base: seq<FileMeta>, ls: LevelState, f: FileMeta)
    requires f.number !in ls.deleted
    ensures Count(Saved(rank, base, ls), f) == Count(base, f) + Count(ls.added, f)
    decreases |base| + |ls.added|
  {
    if ls.added == [] {
      CountKept(base, ls.deleted, f);
    } else if base != [] && !FileLess(rank, ls.added[0], base[0]) {
      CountKept([base[0]], ls.deleted, f);
      CountAppend(Kept([base[0]], ls.deleted), Saved(rank, base[1..], ls), f);
      CountSaved(rank, base[1..], ls, f);
    } else {
      CountKept([ls.added[0]], ls.deleted, f);
      CountAppend(Kept([ls.added[0]], ls.deleted), Saved(rank, base, ls.(added := ls.added[1..])), f);
      CountSaved(rank, base, ls.(added := ls.added[1..]), f);
    }
  }

  lemma {:induction false} CountPositive(fs: seq<FileMeta>, f: FileMeta)
    ensures Count(fs, f) > 0 <==> f in fs
  {
    if fs != [] {
      CountPositive(fs[1..], f);
    }
  }

  lemma {:induction false} SortedHasOnce(rank: Order, fs: seq<FileMeta>, f: FileMeta)
    requires Sorted(rank, fs)
    ensures Count(fs, f) <= 1
  {
    if fs != [] {
      SortedTail(rank, fs);
      SortedHasOnce(rank, fs[1..], f);
      CountPositive(fs[1..], f);
    }
  }

  /** An edit that adds a file to a level that holds it lists it twice. */
  lemma ReAddedTwice(rank: Order, base: seq<FileMeta>, e: Edit, level: Level, f: FileMeta)
    requires var new_ := NewAt(e.newFiles, level); OneFilePerNumber(new_, new_) && f in base && f in new_
    ensures !Sorted(rank, Step(rank, base, e, level))
  {
    var new_ := NewAt(e.newFiles, level);
    var t := ApplyAt(rank, Fresh(), e, level);
    AddFilesHas(rank, Fresh().(deleted := {} + DeletedAt(e.deletedFiles, level)), new_);
    assert Numbered(new_, f.number);
    CountSaved(rank, base, t, f);
    CountPositive(base, f);
    CountPositive(t.added, f);
    if Sorted(rank, Step(rank, base, e, level)) {
      SortedHasOnce(rank, Step(rank, base, e, level), f);
    }
  }

  lemma FitsOneMore(rank: Order, es: seq<Edit>, level: Level)
    requires es != [] && Fits(rank, es[..|es| - 1], level) && OneFilePerNumber(EverAdded(es, level),
             EverAdded(es, level))
    requires AddsOnlyNew(Steps(rank, es[..|es| - 1], level), NewAt(es[|es| - 1].newFiles, level))
    ensures Fits(rank, es, level)
  {
    hide Steps, NewAt, EverAdded, AddsOnlyNew;
    var before := es[..|es| - 1];
    forall k {:trigger es[k]} | 0 <= k < |es|
      ensures AddsOnlyNew(Steps(rank, es[..k], level), NewAt(es[k].newFiles, level))
    {
      if k < |before| {
        assert before[..k] == es[..k] && before[k] == es[k];
      }
    }
  }

  /** After an edit that adds again what the level holds, replay gives another list than memory has. */
  lemma ReAddingDiffers(rank: Order, es: seq<Edit>, level: Level, f: FileMeta, g: FileMeta)
    requires es != [] && Fits(rank, es[..|es| - 1], level) && OneFilePerNumber(EverAdded(es, level),
             EverAdded(es, level))
    requires f in NewAt(es[|es| - 1].newFiles, level) && g in Steps(rank, es[..|es| - 1], level) && g.number == f.number
    ensures Saved(rank, [], ApplyAll(rank, es, level)) != Steps(rank, es, level)
  {
    var before, e := es[..|es| - 1], es[|es| - 1];
    StepsHave(rank, before, level);
    AllAtOnce(rank, before, level);
    assert g in EverAdded(before, level);
    assert forall h :: h in NewAt(e.newFiles, level) ==> h in EverAdded(es, level);
    assert f == g;
    ReAddedTwice(rank, Steps(rank, before, level), e, level, f);
    AllAtOnce(rank, es, level);
    SavedIsSorted(rank, [], ApplyAll(rank, es, level));
  }

  /**
   With one edit more, replay still gives the version in memory exactly if the edit adds no
   file to a level that holds it, which moving files to deeper levels never does.
   */
  lemma ReplayEqualsStepsIff(rank: Order, es: seq<Edit>, level: Level)
    requires es != [] && Fits(rank, es[..|es| - 1], level) && OneFilePerNumber(EverAdded(es, level),
             EverAdded(es, level))
    ensures Saved(rank, [], ApplyAll(rank, es, level)) == Steps(rank, es, level)
            <==> AddsOnlyNew(Steps(rank, es[..|es| - 1], level), NewAt(es[|es| - 1].newFiles, level))
  {
    var base, new_ := Steps(rank, es[..|es| - 1], level), NewAt(es[|es| - 1].newFiles, level);
    if AddsOnlyNew(base, new_) {
      FitsOneMore(rank, es, level);
      ReplayEqualsSteps(rank, es, level);
    } else {
      var f :| f in new_ && Numbered(base, f.number);
      var g :| g in base && g.number == f.number;
      ReAddingDiffers(rank, es, level, f, g);
    }
  }
}
