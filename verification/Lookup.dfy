/**
 Reading a version level by level (Version::Get, db/version_set.cc) and the
 recency order between levels that makes the first hit the right one.
 */
module Lookup {
  import opened Config
  import opened DbFormat
  import opened Options
  import opened VersionSet

  /** Every entry of `f` is newer than any entry of `g` for the same user key. */
  ghost predicate NewerThan(f: File, g: File) {
    forall e, e' :: e in f.entries && e' in g.entries && e.key.ukey == e'.key.ukey ==> e.key.seqno > e'.key.seqno
  }

  ghost predicate ValidVersion(v: Version) {
    |v| == NUM_LEVELS && forall l :: 1 <= l < NUM_LEVELS ==> LevelOrdered(v[l])
  }

  /** Entries never hop over newer ones: shallower levels, and at level 0 higher file numbers, are newer. */
  ghost predicate Recent(v: Version) {
    && (forall l, m, f, g {:trigger f in v[l], g in v[m]} :: 0 <= l < m < |v| && f in v[l] && g in v[m] ==>
       NewerThan(f, g))
    && (|v| > 0 ==> forall f, g {:trigger f in v[0], g in v[0]} :: f in v[0] && g in v[0] && f != g ==>
       f.number != g.number)
    && (|v| > 0 ==> forall f, g {:trigger f in v[0], g in v[0]} :: f in v[0] && g in v[0] && f.number > g.number ==>
       NewerThan(f, g))
  }

  datatype SaverState = NotFound | Found(value: Val) | Deleted

  function Saved(e: Entry): SaverState {
    if e.key.kind.Value? then Found(e.value) else Deleted
  }

  function Answer(st: SaverState): Option<Val> {
    if st.Found? then Some(st.value) else None
  }

  ghost predicate NoneVisible(S: set<Entry>, k: UserKey, s: nat) {
    forall e :: e in S ==> !Visible(e, k, s)
  }

  /** What searching a source must report: the newest visible entry, if any. */
  ghost predicate Reports(S: set<Entry>, k: UserKey, s: nat, st: SaverState) {
    if st.NotFound? then NoneVisible(S, k, s)
    else exists e :: IsNewest(S, k, s, e) && st == Saved(e)
  }

  /**
   TableCache::Get with SaveValue, and MemTable::Get: the first entry at or after the
   lookup key, if it has the user key.
   */
  method SeekGet(es: seq<Entry>, k: UserKey, s: nat) returns (st: SaverState)
    requires Sorted(es)
    ensures Reports((set e | e in es), k, s, st)
  {
    var i := 0;
    while i < |es| && Before(es[i].key, SeekKey(k, s))
      invariant 0 <= i <= |es|
      invariant forall j :: 0 <= j < i ==> Before(es[j].key, SeekKey(k, s))
    {
      i := i + 1;
    }
    if i < |es| && es[i].key.ukey == k {
      FirstIsNewest(es, i, k, s);
      st := Saved(es[i]);
    } else {
      st := NotFound;
      forall e | e in es ensures !Visible(e, k, s) {
        var j :| 0 <= j < |es| && es[j] == e;
        assert j > i ==> Before(es[i].key, es[j].key);
      }
    }
  }

  lemma FirstIsNewest(es: seq<Entry>, i: nat, k: UserKey, s: nat)
    requires Sorted(es) && i < |es| && es[i].key.ukey == k
    requires forall j :: 0 <= j < i ==> Before(es[j].key, SeekKey(k, s))
    requires !Before(es[i].key, SeekKey(k, s))
    ensures IsNewest((set e | e in es), k, s, es[i])
  {
    forall e | e in es && Visible(e, k, s) ensures e.key.seqno <= es[i].key.seqno {
      var j :| 0 <= j < |es| && es[j] == e;
      assert j > i ==> Before(es[i].key, es[j].key);
    }
  }

  ghost predicate NewestFirst(fs: seq<File>) {
    forall i, j :: 0 <= i < j < |fs| ==> fs[i].number >= fs[j].number
  }

  function InsertAt(r: seq<File>, p: nat, f: File): seq<File>
    requires p <= |r|
  {
    r[..p] + [f] + r[p..]
  }

  lemma InsertedIsSorted(r: seq<File>, p: nat, f: File)
    requires NewestFirst(r) && p <= |r|
    requires (forall i :: 0 <= i < p ==> r[i].number >= f.number) && (p < |r| ==> f.number >= r[p].number)
    ensures NewestFirst(InsertAt(r, p, f))
  {
  }

  ghost predicate SameFiles(a: seq<File>, b: seq<File>) {
    multiset(a) == multiset(b)
  }

  lemma InsertedIsOneMore(r: seq<File>, p: nat, fs: seq<File>, n: nat)
    requires p <= |r| && n < |fs| && SameFiles(r, fs[..n])
    ensures SameFiles(InsertAt(r, p, fs[n]), fs[..n + 1])
  {
    assert r == r[..p] + r[p..] && fs[..n + 1] == fs[..n] + [fs[n]];
  }

  lemma NothingIsSorted(r: seq<File>, fs: seq<File>)
    requires r == fs == []
    ensures NewestFirst(r) && SameFiles(r, fs)
  {
  }

  /** Behind the files that are as new, or newer. */
  method PlaceFor(r: seq<File>, f: File) returns (p: nat)
    ensures p <= |r| && (forall i :: 0 <= i < p ==> r[i].number >= f.number) && (p < |r| ==> f.number >= r[p].number)
  {
    p := 0;
    while p < |r| && r[p].number >= f.number
      invariant p <= |r| && forall i :: 0 <= i < p ==> r[i].number >= f.number
    {
      p := p + 1;
    }
  }

  /** std::sort with NewestFirst. */
  method SortNewestFirst(fs: seq<File>) returns (r: seq<File>)
    ensures NewestFirst(r) && SameFiles(r, fs)
  {
    r := [];
    NothingIsSorted(r, fs[..0]);
    hide NewestFirst, SameFiles, InsertAt, Sorted, ValidTable;
    for n := 0 to |fs|
      invariant NewestFirst(r) && SameFiles(r, fs[..n])
    {
      var p := PlaceFor(r, fs[n]);
      InsertedIsSorted(r, p, fs[n]);
      InsertedIsOneMore(r, p, fs, n);
      r := InsertAt(r, p, fs[n]);
    }
    assert fs[..|fs|] == fs;
  }

  lemma SameMembers(a: seq<File>, b: seq<File>)
    requires SameFiles(a, b)
    ensures forall f :: f in a <==> f in b
  {
    forall f ensures f in a <==> f in b {
      assert f in a <==> f in multiset(a);
      assert f in b <==> f in multiset(b);
    }
  }

  /** The level-0 part of Version::Get: every overlapping file, newest first. */
  method GetLevel0(files: seq<File>, k: UserKey, s: nat) returns (st: SaverState)
    requires forall f, g :: f in files && g in files && f != g ==> f.number != g.number
    requires forall f, g :: f in files && g in files && f.number > g.number ==> NewerThan(f, g)
    ensures Reports(Entries(files), k, s, st)
  {
    var tmp: seq<File> := [];
    for i := 0 to |files|
      invariant forall f :: f in tmp <==> f in files[..i] && Smallest(f).ukey <= k <= Largest(f).ukey
    {
      if k >= Smallest(files[i]).ukey && k <= Largest(files[i]).ukey {
        tmp := tmp + [files[i]];
      }
    }
    assert files[..|files|] == files;
    ghost var found := tmp;
    tmp := SortNewestFirst(tmp);
    assert forall f :: f in tmp <==> f in found by {
      SameMembers(tmp, found);
    }
    for i := 0 to |tmp|
      invariant forall j :: 0 <= j < i ==> NoneVisible(Contents(tmp[j]), k, s)
    {
      st := SeekGet(tmp[i].entries, k, s);
      if !st.NotFound? {
        ghost var e :| IsNewest(Contents(tmp[i]), k, s, e) && st == Saved(e);
        NewestOfLevel0(files, tmp, i, k, s, e);
        return st;
      }
    }
    st := NotFound;
    forall e | e in Entries(files) ensures !Visible(e, k, s) {
      var f :| f in files && e in f.entries;
      InRange(f, e);
      assert e in Contents(f);
    }
  }

  lemma NewestOfLevel0(files: seq<File>, tmp: seq<File>, i: nat, k: UserKey, s: nat, e: Entry)
    requires forall f, g :: f in files && g in files && f != g ==> f.number != g.number
    requires forall f, g :: f in files && g in files && f.number > g.number ==> NewerThan(f, g)
    requires forall f :: f in tmp <==> f in files && Smallest(f).ukey <= k <= Largest(f).ukey
    requires forall a, b :: 0 <= a < b < |tmp| ==> tmp[a].number >= tmp[b].number
    requires i < |tmp| && IsNewest(Contents(tmp[i]), k, s, e)
    requires forall j :: 0 <= j < i ==> NoneVisible(Contents(tmp[j]), k, s)
    ensures IsNewest(Entries(files), k, s, e)
  {
    var f := tmp[i];
    assert f in files && e in f.entries;
    forall e' | e' in Entries(files) && Visible(e', k, s) ensures e'.key.seqno <= e.key.seqno {
      var g :| g in files && e' in g.entries;
      InRange(g, e');
      assert g in tmp;
      var j :| 0 <= j < |tmp| && tmp[j] == g;
      assert e' in Contents(g);
      if j > i && g != f {
        assert NewerThan(f, g);
      }
    }
  }

  /** A level above 0 of Version::Get: only the file FindFile returns can hold the answer. */
  method GetSortedLevel(files: seq<File>, k: UserKey, s: nat) returns (st: SaverState)
    requires LevelOrdered(files)
    ensures Reports(Entries(files), k, s, st)
  {
    hide LevelOrdered, SearchEnd;
    var ikey := SeekKey(k, s);
    var index := FindFile(files, ikey);
    if index >= |files| || k < Smallest(files[index]).ukey {
      st := NotFound;
    } else {
      st := SeekGet(files[index].entries, k, s);
    }
    forall e | e in Entries(files) && Visible(e, k, s)
      ensures index < |files| && e.key.ukey >= Smallest(files[index]).ukey
      ensures e in Contents(files[index]) || !NoneVisible(Contents(files[index]), k, s)
      ensures !(e in Contents(files[index])) ==> forall e' :: IsNewest(Contents(files[index]), k, s, e') ==>
              e.key.seqno <= e'.key.seqno
    {
      var f :| f in files && e in f.entries;
      var j :| 0 <= j < |files| && files[j] == f;
      InRange(f, e);
      assert !Before(e.key, ikey);
      assert index <= j;
      OnlyCandidate(files, index, j, k, s, e);
    }
    if !st.NotFound? {
      ghost var e :| IsNewest(Contents(files[index]), k, s, e) && st == Saved(e);
      assert files[index] in files;
      assert IsNewest(Entries(files), k, s, e);
    }
  }

  /** If a later file of a sorted level holds a visible entry of `k`, FindFile's file ends in a newer one. */
  lemma OnlyCandidate(files: seq<File>, index: nat, j: nat, k: UserKey, s: nat, e: Entry)
    requires LevelOrdered(files) && index <= j < |files|
    requires !Before(Largest(files[index]), SeekKey(k, s))
    requires e in files[j].entries && Visible(e, k, s)
    ensures e.key.ukey >= Smallest(files[index]).ukey
    ensures index < j ==>
      var last := files[index].entries[|files[index].entries| - 1];
      Visible(last, k, s) && last in Contents(files[index]) && e.key.seqno <= last.key.seqno
  {
    InRange(files[j], e);
    if index < j {
      var last := files[index].entries[|files[index].entries| - 1];
      InRange(files[index], last);
      assert Before(Largest(files[index]), Smallest(files[j]));
    }
  }

  /** Version::Get stops at the first level that reports; recency makes that the newest entry of the whole version. */
  method Get(v: Version, k: UserKey, s: nat) returns (r: Option<Val>)
    requires ValidVersion(v) && Recent(v) && UniqueVersions(VersionEntries(v))
    ensures r == ReadAt(VersionEntries(v), k, s)
  {
    hide ReadAt, UniqueVersions, IsNewest, LevelOrdered;
    for level := 0 to NUM_LEVELS
      invariant forall l :: 0 <= l < level ==> NoneVisible(Entries(v[l]), k, s)
    {
      var st: SaverState;
      if level == 0 {
        st := GetLevel0(v[0], k, s);
      } else {
        st := GetSortedLevel(v[level], k, s);
      }
      if !st.NotFound? {
        ghost var e :| IsNewest(Entries(v[level]), k, s, e) && st == Saved(e);
        NewestOfVersion(v, level, k, s, e);
        ReadIs(VersionEntries(v), k, s, e);
        return Answer(st);
      }
    }
    ReadNothing(VersionEntries(v), k, s);
    r := None;
  }

  lemma NewestOfVersion(v: Version, level: nat, k: UserKey, s: nat, e: Entry)
    requires Recent(v) && level < |v|
    requires IsNewest(Entries(v[level]), k, s, e)
    requires forall l :: 0 <= l < level ==> NoneVisible(Entries(v[l]), k, s)
    ensures IsNewest(VersionEntries(v), k, s, e)
  {
    assert e in VersionEntries(v);
    var f :| f in v[level] && e in f.entries;
    forall e' | e' in VersionEntries(v) && Visible(e', k, s) ensures e'.key.seqno <= e.key.seqno {
      var l :| 0 <= l < |v| && e' in Entries(v[l]);
      var g :| g in v[l] && e' in g.entries;
      if l > level {
        assert NewerThan(f, g);
      }
    }
  }
}
