/**
 Applying edits to a version (db/version_set.cc:596-773). Files of a level are kept by
 smallest key and then by number; a key's place in the comparator's order is a real number,
 as Comparator.RankOf gives for internal keys.
 */
module VersionBuilder {
  import opened Config
  import opened Options
  import opened Words
  import opened Coding
  import opened VersionEdit

  type Order = Key -> real

  predicate FileLess(rank: Order, f: FileMeta, g: FileMeta) {
    rank(f.smallest) < rank(g.smallest) || (rank(f.smallest) == rank(g.smallest) && f.number < g.number)
  }

  ghost predicate Sorted(rank: Order, fs: seq<FileMeta>) {
    forall i, j :: 0 <= i < j < |fs| ==> FileLess(rank, fs[i], fs[j])
  }

  /** std::set::insert: nothing happens if an equivalent file is there. */
  function FileInsert(rank: Order, fs: seq<FileMeta>, f: FileMeta): seq<FileMeta> {
    if fs == [] then [f]
    else if FileLess(rank, f, fs[0]) then [f] + fs
    else if FileLess(rank, fs[0], f) then [fs[0]] + FileInsert(rank, fs[1..], f)
    else fs
  }

  datatype LevelState = LevelState(deleted: set<uint64>, added: seq<FileMeta>)

  function Fresh(): LevelState {
    LevelState({}, [])
  }

  /** The part of an edit that concerns one level. */
  function DeletedAt(ds: seq<DeletedFile>, level: Level): set<uint64> {
    set d | d in ds && d.level == level :: d.number
  }

  function NewAt(ns: seq<NewFile>, level: Level): seq<FileMeta> {
    if ns == [] then [] else NewAt(ns[..|ns| - 1], level) + if ns[|ns| - 1].level == level then
        [ns[|ns| - 1].file] else []
  }

  function AddFile(rank: Order, ls: LevelState, f: FileMeta): LevelState {
    LevelState(ls.deleted - {f.number}, FileInsert(rank, ls.added, f))
  }

  function AddFiles(rank: Order, ls: LevelState, fs: seq<FileMeta>): LevelState {
    if fs == [] then ls else AddFile(rank, AddFiles(rank, ls, fs[..|fs| - 1]), fs[|fs| - 1])
  }

  /** Builder::Apply on one level. */
  function ApplyAt(rank: Order, ls: LevelState, e: Edit, level: Level): LevelState {
    AddFiles(rank, ls.(deleted := ls.deleted + DeletedAt(e.deletedFiles, level)), NewAt(e.newFiles, level))
  }

  function Kept(fs: seq<FileMeta>, deleted: set<uint64>): seq<FileMeta> {
    if fs == [] then [] else (if fs[0].number in deleted then [] else [fs[0]]) + Kept(fs[1..], deleted)
  }

  /** Builder::SaveTo on one level: base and added files merged, less the deleted ones. */
  function Saved(rank: Order, base: seq<FileMeta>, ls: LevelState): seq<FileMeta>
    decreases |base| + |ls.added|
  {
    if ls.added == [] then Kept(base, ls.deleted)
    else if base != [] && !FileLess(rank, ls.added[0], base[0]) then
      Kept([base[0]], ls.deleted) + Saved(rank, base[1..], ls)
    else
      Kept([ls.added[0]], ls.deleted) + Saved(rank, base, ls.(added := ls.added[1..]))
  }

  /** The builder of an edit at a time, and of many edits at once. */
  function Step(rank: Order, base: seq<FileMeta>, e: Edit, level: Level): seq<FileMeta> {
    Saved(rank, base, ApplyAt(rank, Fresh(), e, level))
  }

  function Steps(rank: Order, es: seq<Edit>, level: Level): seq<FileMeta> {
    if es == [] then [] else Step(rank, Steps(rank, es[..|es| - 1], level), es[|es| - 1], level)
  }

  function ApplyAll(rank: Order, es: seq<Edit>, level: Level): LevelState {
    if es == [] then Fresh() else ApplyAt(rank, ApplyAll(rank, es[..|es| - 1], level), es[|es| - 1], level)
  }

  // ---- The builder as code

  class Builder {
    const rank: Order
    const base: seq<seq<FileMeta>>
    var levels: seq<LevelState>
    var compactPointers: seq<Key>   // those of the version set

    ghost predicate Valid()
      reads this
    {
      |base| == |levels| == |compactPointers| == NUM_LEVELS
    }

    constructor (rank: Order, base: seq<seq<FileMeta>>, compactPointers: seq<Key>)
      requires |base| == |compactPointers| == NUM_LEVELS
      ensures Valid() && this.rank == rank && this.base == base && this.compactPointers == compactPointers
      ensures levels == seq(NUM_LEVELS, i => Fresh())
    {
      this.rank, this.base, this.compactPointers := rank, base, compactPointers;
      levels := seq(NUM_LEVELS, i => Fresh());
    }

    method Apply(e: Edit)
      requires Valid()
      modifies this
      ensures Valid() && compactPointers == Pointers(old(compactPointers), e.compactPointers)
      ensures forall l :: 0 <= l < NUM_LEVELS ==> levels[l] == ApplyAt(rank, old(levels[l]), e, l)
    {
      for i := 0 to |e.compactPointers|
        invariant Valid() && levels == old(levels) && compactPointers ==
                  Pointers(old(compactPointers), e.compactPointers[..i])
      {
        assert e.compactPointers[..i + 1][..i] == e.compactPointers[..i];
        compactPointers := compactPointers[e.compactPointers[i].level := e.compactPointers[i].key];
      }
      assert e.compactPointers[..|e.compactPointers|] == e.compactPointers;
      ApplyDeleted(e.deletedFiles);
      ApplyNew(e.newFiles);
    }

    method ApplyDeleted(ds: seq<DeletedFile>)
      requires Valid()
      modifies this`levels
      ensures Valid()
      ensures forall l :: 0 <= l < NUM_LEVELS ==>
              levels[l] == old(levels[l]).(deleted := old(levels[l]).deleted + DeletedAt(ds, l))
    {
      for i := 0 to |ds|
        invariant Valid()
        invariant forall l :: 0 <= l < NUM_LEVELS ==>
                  levels[l] == old(levels[l]).(deleted := old(levels[l]).deleted + DeletedAt(ds[..i], l))
      {
        var d := ds[i];
        assert ds[..i + 1] == ds[..i] + [d];
        forall l: Level
          ensures DeletedAt(ds[..i + 1], l) == DeletedAt(ds[..i], l) + (if l == d.level then {d.number} else {})
        {
          DeletedOneMore(ds[..i], d, l);
        }
        levels := levels[d.level := levels[d.level].(deleted := levels[d.level].deleted + {d.number})];
      }
      assert ds[..|ds|] == ds;
    }

    method ApplyNew(ns: seq<NewFile>)
      requires Valid()
      modifies this`levels
      ensures Valid()
      ensures forall l :: 0 <= l < NUM_LEVELS ==> levels[l] == AddFiles(rank, old(levels[l]), NewAt(ns, l))
    {
      for i := 0 to |ns|
        invariant Valid()
        invariant forall l :: 0 <= l < NUM_LEVELS ==> levels[l] == AddFiles(rank, old(levels[l]), NewAt(ns[..i], l))
      {
        var n := ns[i];
        forall l: Level ensures AddFiles(rank, old(levels[l]), NewAt(ns[..i + 1], l)) ==
            if l == n.level then AddFile(rank, AddFiles(rank, old(levels[l]), NewAt(ns[..i], l)), n.file)
            else AddFiles(rank, old(levels[l]), NewAt(ns[..i], l))
        {
          NewOneMore(rank, old(levels[l]), ns, i, l);
        }
        levels := levels[n.level := AddFile(rank, levels[n.level], n.file)];
      }
      assert ns[..|ns|] == ns;
    }

    /** The new version: each added file goes in behind the base files up to it. */
    method SaveTo() returns (v: seq<seq<FileMeta>>)
      requires Valid()
      ensures |v| == NUM_LEVELS && forall l :: 0 <= l < NUM_LEVELS ==> v[l] == Saved(rank, base[l], levels[l])
    {
      v := [];
      for level := 0 to NUM_LEVELS
        invariant |v| == level && forall l :: 0 <= l < level ==> v[l] == Saved(rank, base[l], levels[l])
      {
        var files := SaveLevel(level);
        v := v + [files];
      }
    }

    method SaveLevel(level: nat) returns (files: seq<FileMeta>)
      requires Valid() && level < NUM_LEVELS
      ensures files == Saved(rank, base[level], levels[level])
    {
      var bs, added, deleted := base[level], levels[level].added, levels[level].deleted;
      ghost var whole := Saved(rank, bs, levels[level]);
      files := [];
      var b: nat := 0;
      assert bs[0..] == bs && added[0..] == added;
      for a := 0 to |added|
        invariant b <= |bs| && files + Left(rank, bs, b, added, a, deleted) == whole
      {
        files, b := AddBaseUpTo(files, bs, b, added, a, deleted, whole);
        LeftTakesAdded(rank, bs, b, added, a, deleted);
        files := MaybeAddFile(files, deleted, added[a], Left(rank, bs, b, added, a + 1, deleted));
      }
      while b < |bs|
        invariant b <= |bs| && files + Left(rank, bs, b, added, |added|, deleted) == whole
      {
        LeftTakesLast(rank, bs, b, added, deleted);
        files := MaybeAddFile(files, deleted, bs[b], Left(rank, bs, b + 1, added, |added|, deleted));
        b := b + 1;
      }
    }

    /** std::upper_bound and the loop up to it: base files not behind the next added one. */
    method AddBaseUpTo(files: seq<FileMeta>, bs: seq<FileMeta>, b: nat, added: seq<FileMeta>, a: nat,
        deleted: set<uint64>,
                       ghost whole: seq<FileMeta>) returns (files': seq<FileMeta>, b': nat)
      requires b <= |bs| && a < |added| && files + Left(rank, bs, b, added, a, deleted) == whole
      ensures b <= b' <= |bs| && files' + Left(rank, bs, b', added, a, deleted) == whole
      ensures b' < |bs| ==> FileLess(rank, added[a], bs[b'])
    {
      files', b' := files, b;
      while b' < |bs| && !FileLess(rank, added[a], bs[b'])
        invariant b <= b' <= |bs| && files' + Left(rank, bs, b', added, a, deleted) == whole
      {
        LeftTakesBase(rank, bs, b', added, a, deleted);
        files' := MaybeAddFile(files', deleted, bs[b'], Left(rank, bs, b' + 1, added, a, deleted));
        b' := b' + 1;
      }
    }

    method MaybeAddFile(files: seq<FileMeta>, deleted: set<uint64>, f: FileMeta, ghost more: seq<FileMeta>)
        returns (files': seq<FileMeta>)
      ensures files' + more == files + (Kept([f], deleted) + more)
    {
      files' := if f.number in deleted then files else files + [f];
    }
  }

  /** What is still to be saved behind `b` base files and `a` added ones. */
  function Left(rank: Order, bs: seq<FileMeta>, b: nat, added: seq<FileMeta>, a: nat,
      deleted: set<uint64>): seq<FileMeta>
    requires b <= |bs| && a <= |added|
  {
    Saved(rank, bs[b..], LevelState(deleted, added[a..]))
  }

  lemma LeftTakesBase(rank: Order, bs: seq<FileMeta>, b: nat, added: seq<FileMeta>, a: nat, deleted: set<uint64>)
    requires b < |bs| && a < |added| && !FileLess(rank, added[a], bs[b])
    ensures Left(rank, bs, b, added, a, deleted) == Kept([bs[b]], deleted) + Left(rank, bs, b + 1, added, a, deleted)
  {
    assert bs[b..][1..] == bs[b + 1..];
  }

  lemma LeftTakesAdded(rank: Order, bs: seq<FileMeta>, b: nat, added: seq<FileMeta>, a: nat, deleted: set<uint64>)
    requires b <= |bs| && a < |added| && (b < |bs| ==> FileLess(rank, added[a], bs[b]))
    ensures Left(rank, bs, b, added, a, deleted) == Kept([added[a]], deleted) + Left(rank, bs, b, added, a + 1, deleted)
  {
    assert added[a..][1..] == added[a + 1..];
  }

  lemma LeftTakesLast(rank: Order, bs: seq<FileMeta>, b: nat, added: seq<FileMeta>, deleted: set<uint64>)
    requires b < |bs|
    ensures Left(rank, bs, b, added, |added|, deleted) == Kept([bs[b]], deleted) +
            Left(rank, bs, b + 1, added, |added|, deleted)
  {
    assert bs[b..][1..] == bs[b + 1..] && added[|added|..] == [];
  }

  /** The compaction pointers after those of an edit are stored. */
  function Pointers(ps: seq<Key>, changes: seq<CompactPointer>): (r: seq<Key>)
    requires |ps| == NUM_LEVELS
    ensures |r| == NUM_LEVELS
  {
    if changes == [] then ps else
      var c := changes[|changes| - 1];
      Pointers(ps, changes[..|changes| - 1])[c.level := c.key]
  }

  predicate IsLastChange(changes: seq<CompactPointer>, l: Level, i: nat) {
    i < |changes| && changes[i].level == l && forall j :: i < j < |changes| ==> changes[j].level != l
  }

  /** The last change of a level counts. */
  lemma {:induction false} PointersAre(ps: seq<Key>, changes: seq<CompactPointer>, l: Level, i: nat)
    requires |ps| == NUM_LEVELS && IsLastChange(changes, l, i)
    ensures Pointers(ps, changes)[l] == changes[i].key
    decreases |changes|
  {
    if i < |changes| - 1 {
      PointersAre(ps, changes[..|changes| - 1], l, i);
    }
  }

  lemma {:induction false} PointerStays(ps: seq<Key>, changes: seq<CompactPointer>, l: Level)
    requires |ps| == NUM_LEVELS && forall i :: 0 <= i < |changes| ==> changes[i].level != l
    ensures Pointers(ps, changes)[l] == ps[l]
    decreases |changes|
  {
    if changes != [] {
      PointerStays(ps, changes[..|changes| - 1], l);
    }
  }

  lemma DeletedOneMore(ds: seq<DeletedFile>, d: DeletedFile, level: Level)
    ensures DeletedAt(ds + [d], level) == DeletedAt(ds, level) + if level == d.level then {d.number} else {}
  {
    forall n | n in DeletedAt(ds, level) ensures n in DeletedAt(ds + [d], level) {
      var x :| x in ds && x.level == level && x.number == n;
      assert x in ds + [d];
    }
    assert d in ds + [d];
  }

  lemma NewOneMore(rank: Order, ls: LevelState, ns: seq<NewFile>, i: nat, level: Level)
    requires i < |ns|
    ensures AddFiles(rank, ls, NewAt(ns[..i + 1], level)) ==
            if level == ns[i].level then AddFile(rank, AddFiles(rank, ls, NewAt(ns[..i], level)), ns[i].file)
            else AddFiles(rank, ls, NewAt(ns[..i], level))
  {
    assert ns[..i + 1][..i] == ns[..i];
    if level == ns[i].level {
      var t := NewAt(ns[..i], level) + [ns[i].file];
      assert t[..|t| - 1] == NewAt(ns[..i], level);
    } else {
      assert NewAt(ns[..i], level) + [] == NewAt(ns[..i], level);
    }
  }

  // ---- What is saved

  lemma {:induction false} KeptHas(fs: seq<FileMeta>, deleted: set<uint64>, f: FileMeta)
    ensures f in Kept(fs, deleted) <==> f in fs && f.number !in deleted
  {
    if fs != [] {
      KeptHas(fs[1..], deleted, f);
      assert f in fs <==> f == fs[0] || f in fs[1..];
    }
  }

  /** The saved files are those of the base and the added ones that are not deleted. */
  lemma {:induction false} SavedHas(rank: Order, base: seq<FileMeta>, ls: LevelState, f: FileMeta)
    ensures f in Saved(rank, base, ls) <==> (f in base || f in ls.added) && f.number !in ls.deleted
    decreases |base| + |ls.added|
  {
    if ls.added == [] {
      KeptHas(base, ls.deleted, f);
    } else if base != [] && !FileLess(rank, ls.added[0], base[0]) {
      KeptHas([base[0]], ls.deleted, f);
      SavedHas(rank, base[1..], ls, f);
      assert f in base <==> f == base[0] || f in base[1..];
    } else {
      KeptHas([ls.added[0]], ls.deleted, f);
      SavedHas(rank, base, ls.(added := ls.added[1..]), f);
      assert f in ls.added <==> f == ls.added[0] || f in ls.added[1..];
    }
  }

  /** Nothing added is equivalent to a file of the base. */
  ghost predicate Apart(rank: Order, base: seq<FileMeta>, added: seq<FileMeta>) {
    forall f, g :: f in base && g in added ==> FileLess(rank, f, g) || FileLess(rank, g, f)
  }

  lemma SortedTail(rank: Order, fs: seq<FileMeta>)
    requires Sorted(rank, fs) && fs != []
    ensures Sorted(rank, fs[1..]) && forall g :: g in fs[1..] ==> FileLess(rank, fs[0], g)
  {
  }

  lemma SortedCons(rank: Order, f: FileMeta, fs: seq<FileMeta>, keep: bool)
    requires Sorted(rank, fs) && forall g :: g in fs ==> FileLess(rank, f, g)
    ensures Sorted(rank, (if keep then [f] else []) + fs)
  {
    var t := (if keep then [f] else []) + fs;
    forall i, j | 0 <= i < j < |t| ensures FileLess(rank, t[i], t[j]) {
      if keep {
        assert t[j] == fs[j - 1] && t[j] in fs;
      }
    }
  }

  lemma {:induction false} KeptIsSorted(rank: Order, fs: seq<FileMeta>, deleted: set<uint64>)
    requires Sorted(rank, fs)
    ensures Sorted(rank, Kept(fs, deleted))
  {
    if fs != [] {
      SortedTail(rank, fs);
      KeptIsSorted(rank, fs[1..], deleted);
      forall g | g in Kept(fs[1..], deleted) ensures FileLess(rank, fs[0], g) {
        KeptHas(fs[1..], deleted, g);
      }
      SortedCons(rank, fs[0], Kept(fs[1..], deleted), fs[0].number !in deleted);
    }
  }

  /** Merging keeps the order. */
  lemma {:induction false} SavedIsSorted(rank: Order, base: seq<FileMeta>, ls: LevelState)
    requires Sorted(rank, base) && Sorted(rank, ls.added) && Apart(rank, base, ls.added)
    ensures Sorted(rank, Saved(rank, base, ls))
    decreases |base| + |ls.added|
  {
    if ls.added == [] {
      KeptIsSorted(rank, base, ls.deleted);
    } else {
      SortedTail(rank, ls.added);
      if base != [] {
        SortedTail(rank, base);
      }
      var takeBase := base != [] && !FileLess(rank, ls.added[0], base[0]);
      var first := if takeBase then base[0] else ls.added[0];
      var base', ls' := if takeBase then base[1..] else base, if takeBase then ls else ls.(added := ls.added[1..]);
      assert base != [] ==> base[0] in base;
      assert ls.added[0] in ls.added;
      SavedIsSorted(rank, base', ls');
      forall g | g in Saved(rank, base', ls') ensures FileLess(rank, first, g) {
        SavedHas(rank, base', ls', g);
        assert g in base' ==> g in base;
      }
      SortedCons(rank, first, Saved(rank, base', ls'), first.number !in ls.deleted);
      assert Kept([first], ls.deleted) == if first.number !in ls.deleted then [first] else [];
      assert Saved(rank, base, ls) == Kept([first], ls.deleted) + Saved(rank, base', ls');
    }
  }

  lemma NonEmptyHas(fs: seq<FileMeta>)
    requires fs != []
    ensures exists f :: f in fs
  {
    assert fs[0] in fs;
  }

  /** Sorted lists with the same files are the same. */
  lemma {:induction false} SortedIsUnique(rank: Order, a: seq<FileMeta>, b: seq<FileMeta>)
    requires Sorted(rank, a) && Sorted(rank, b) && forall f :: f in a <==> f in b
    ensures a == b
    decreases |a|
  {
    if a != [] {
      NonEmptyHas(a);
    }
    if b != [] {
      NonEmptyHas(b);
    }
    if a != [] && b != [] {
      var x, y, s, t := a[0], b[0], a[1..], b[1..];
      assert x in b && y in a;
      SortedTail(rank, a);
      SortedTail(rank, b);
      assert x == y || (x in t && y in s);
      assert a == [x] + s && b == [y] + t;
      forall f ensures f in s <==> f in t {
        assert f in s ==> f in b && f != x;
        assert f in t ==> f in a && f != y;
      }
      SortedIsUnique(rank, s, t);
    }
  }
}
