/**
 Versions: seven levels of table files, and how a version is searched
 (db/version_set.cc). A table is modelled by its sorted entries; its metadata keys
 `smallest` and `largest` are its first and last internal key (db/builder.cc,
 FinishCompactionOutputFile).
 */
module VersionSet {
  import opened DbFormat
  import opened Options

  datatype Table = Table(number: nat, entries: seq<Entry>)

  ghost predicate ValidTable(f: Table) {
    && f.entries != []
    && Sorted(f.entries)
    && forall e :: e in f.entries ==> e.key.seqno <= MAX_SEQUENCE
  }

  /** A file of a version: a non-empty strictly sorted table. */
  type File = f: Table | ValidTable(f) witness Table(0, [Entry(IKey(0, 0, Value), "")])

  type Version = seq<seq<File>>

  function Smallest(f: File): IKey
  {
    f.entries[0].key
  }

  function Largest(f: File): IKey
  {
    f.entries[|f.entries| - 1].key
  }

  /** Levels above 0: files follow one another in internal key order without overlap. */
  ghost predicate LevelOrdered(fs: seq<File>)
  {
    forall i, j :: 0 <= i < j < |fs| ==> Before(Largest(fs[i]), Smallest(fs[j]))
  }

  ghost function Contents(f: File): set<Entry> {
    set e | e in f.entries
  }

  ghost function Entries(fs: seq<File>): set<Entry> {
    set f, e | f in fs && e in f.entries :: e
  }

  ghost function VersionEntries(v: Version): set<Entry> {
    set l, e | 0 <= l < |v| && e in Entries(v[l]) :: e
  }

  /** Every key of a file lies between its smallest and largest key. */
  lemma InRange(f: File, e: Entry)
    requires e in f.entries
    ensures Smallest(f).ukey <= e.key.ukey <= Largest(f).ukey
    ensures e.key == Smallest(f) || Before(Smallest(f), e.key)
    ensures e.key == Largest(f) || Before(e.key, Largest(f))
  {
    var i :| 0 <= i < |f.entries| && f.entries[i] == e;
    assert i > 0 ==> Before(f.entries[0].key, f.entries[i].key);
    assert i < |f.entries| - 1 ==> Before(f.entries[i].key, f.entries[|f.entries| - 1].key);
  }

  // ---------------------------------------------------------------- searching

  /** Where the binary search ends, in whatever order the files are. */
  function SearchEnd(files: seq<File>, key: IKey, left: nat, right: nat): (r: nat)
    requires left <= right <= |files|
    ensures left <= r <= right
    decreases right - left
  {
    if left == right then right else
      var mid := (left + right) / 2;
      if Before(Largest(files[mid]), key) then SearchEnd(files, key, mid + 1, right)
      else SearchEnd(files, key, left, mid)
  }

  /** In a level in order it ends at the first file whose largest key is at or after `key`. */
  lemma {:induction false} SearchFinds(files: seq<File>, key: IKey, left: nat, right: nat)
    requires LevelOrdered(files) && left <= right <= |files|
    requires forall i :: 0 <= i < left ==> Before(Largest(files[i]), key)
    requires forall i :: right <= i < |files| ==> !Before(Largest(files[i]), key)
    ensures var r := SearchEnd(files, key, left, right);
      && (forall i :: 0 <= i < r ==> Before(Largest(files[i]), key))
      && forall i :: r <= i < |files| ==> !Before(Largest(files[i]), key)
    decreases right - left
  {
    hide LevelOrdered;
    if left < right {
      var mid := (left + right) / 2;
      LargestAround(files, mid);
      if Before(Largest(files[mid]), key) {
        SearchFinds(files, key, mid + 1, right);
      } else {
        SearchFinds(files, key, left, mid);
      }
    }
  }

  lemma LargestAround(files: seq<File>, mid: nat)
    requires LevelOrdered(files) && mid < |files|
    ensures forall i :: 0 <= i < mid ==> Before(Largest(files[i]), Largest(files[mid]))
    ensures forall i :: mid < i < |files| ==> Before(Largest(files[mid]), Largest(files[i]))
  {
    LargestAscend(files);
  }

  /** FindFile: where the binary search over all files ends. */
  method FindFile(files: seq<File>, key: IKey) returns (r: nat)
    ensures r == SearchEnd(files, key, 0, |files|) <= |files|
    ensures LevelOrdered(files) ==> forall i :: 0 <= i < r ==> Before(Largest(files[i]), key)
    ensures LevelOrdered(files) ==> forall i :: r <= i < |files| ==> !Before(Largest(files[i]), key)
  {
    var left, right := 0, |files|;
    while left < right
      invariant 0 <= left <= right <= |files|
      invariant SearchEnd(files, key, left, right) == SearchEnd(files, key, 0, |files|)
    {
      var mid := (left + right) / 2;
      if Before(Largest(files[mid]), key) {
        left := mid + 1;
      } else {
        right := mid;
      }
    }
    r := right;
    if LevelOrdered(files) {
      SearchFinds(files, key, 0, |files|);
    }
  }

  lemma LargestAscend(files: seq<File>)
    requires LevelOrdered(files)
    ensures forall i, j :: 0 <= i < j < |files| ==> Before(Largest(files[i]), Largest(files[j]))
    ensures forall i, j :: 0 <= i < j < |files| ==> Before(Smallest(files[i]), Smallest(files[j]))
  {
    forall i, j | 0 <= i < j < |files|
      ensures Before(Largest(files[i]), Largest(files[j])) && Before(Smallest(files[i]), Smallest(files[j]))
    {
      var fi, fj := files[i], files[j];
      InRange(fj, fj.entries[0]);
      InRange(fi, fi.entries[0]);
      assert Before(Largest(fi), Smallest(fj));
    }
  }

  predicate AfterFile(k: Option<UserKey>, f: File)
  {
    k.Some? && k.value > Largest(f).ukey
  }

  predicate BeforeFile(k: Option<UserKey>, f: File)
  {
    k.Some? && k.value < Smallest(f).ukey
  }

  predicate Overlaps(f: File, lo: Option<UserKey>, hi: Option<UserKey>)
  {
    !AfterFile(lo, f) && !BeforeFile(hi, f)
  }

  /** SomeFileOverlapsRange: the binary search over a sorted level answers what a scan of every file answers. */
  method SomeFileOverlapsRange(disjointSorted: bool, files: seq<File>, lo: Option<UserKey>, hi: Option<UserKey>)
      returns (b: bool)
    requires disjointSorted ==> LevelOrdered(files)
    ensures b <==> exists f :: f in files && Overlaps(f, lo, hi)
  {
    if !disjointSorted {
      for i := 0 to |files|
        invariant forall j :: 0 <= j < i ==> !Overlaps(files[j], lo, hi)
      {
        if AfterFile(lo, files[i]) || BeforeFile(hi, files[i]) {
        } else {
          assert files[i] in files && Overlaps(files[i], lo, hi);
          return true;
        }
      }
      return false;
    }
    var index := 0;
    if lo.Some? {
      index := FindFile(files, SeekKey(lo.value, MAX_SEQUENCE));
      forall i | 0 <= i < |files| ensures i < index <==> AfterFile(lo, files[i]) {
        assert files[i].entries[|files[i].entries| - 1] in files[i].entries;
      }
    }
    if index >= |files| {
      return false;
    }
    LargestAscend(files);
    b := !BeforeFile(hi, files[index]);
    if b {
      assert Overlaps(files[index], lo, hi);
    } else {
      forall f | f in files ensures !Overlaps(f, lo, hi) {
        var j :| 0 <= j < |files| && files[j] == f;
        assert j > index ==> Before(Smallest(files[index]), Smallest(files[j]));
      }
    }
  }

  /** The files among the first `n` that overlap the range, in order. */
  function OverlappingUpTo(files: seq<File>, n: nat, lo: Option<UserKey>, hi: Option<UserKey>): (r: seq<File>)
    requires n <= |files|
  {
    if n == 0 then []
    else
      var r := OverlappingUpTo(files, n - 1, lo, hi);
      if Overlaps(files[n - 1], lo, hi) then r + [files[n - 1]] else r
  }

  lemma {:induction false} OverlappingMembers(files: seq<File>, n: nat, lo: Option<UserKey>, hi: Option<UserKey>)
    requires n <= |files|
    ensures forall f :: f in OverlappingUpTo(files, n, lo, hi) <==> f in files[..n] && Overlaps(f, lo, hi)
  {
    if n > 0 {
      OverlappingMembers(files, n - 1, lo, hi);
      assert files[..n] == files[..n - 1] + [files[n - 1]];
    }
  }

  predicate Within(f: File, lo: Option<UserKey>, hi: Option<UserKey>)
  {
    (lo.Some? ==> lo.value <= Smallest(f).ukey) && (hi.Some? ==> Largest(f).ukey <= hi.value)
  }

  /** Every file the range touches lies wholly inside it. */
  ghost predicate Closed(files: seq<File>, lo: Option<UserKey>, hi: Option<UserKey>)
  {
    forall f :: f in files && Overlaps(f, lo, hi) ==> Within(f, lo, hi)
  }

  predicate Includes(lo: Option<UserKey>, hi: Option<UserKey>, lo': Option<UserKey>, hi': Option<UserKey>) {
    && (lo.Some? ==> lo'.Some? && lo.value <= lo'.value)
    && (hi.Some? ==> hi'.Some? && hi'.value <= hi.value)
  }

  /** `[lo, hi]` is the least closed range around `[begin, end]`. */
  ghost predicate LeastClosed(files: seq<File>, begin: Option<UserKey>, end: Option<UserKey>, lo: Option<UserKey>,
      hi: Option<UserKey>)
  {
    && Includes(lo, hi, begin, end)
    && (begin.None? ==> lo.None?) && (end.None? ==> hi.None?)
    && Closed(files, lo, hi)
    && InsideEveryClosed(files, begin, end, lo, hi)
  }

  ghost predicate InsideEveryClosed(files: seq<File>, begin: Option<UserKey>, end: Option<UserKey>,
      lo: Option<UserKey>, hi: Option<UserKey>) {
    forall a, b :: Includes(a, b, begin, end) && Closed(files, a, b) ==> Includes(a, b, lo, hi)
  }

  /** Widening a range by a file it overlaps stays inside every closed range, and uses up a file that stuck out. */
  lemma Widen(files: seq<File>, begin: Option<UserKey>, end: Option<UserKey>, lo: Option<UserKey>,
      hi: Option<UserKey>, i: nat)
    requires i < |files| && Overlaps(files[i], lo, hi)
    requires InsideEveryClosed(files, begin, end, lo, hi)
    ensures lo.Some? ==> InsideEveryClosed(files, begin, end, Some(Smallest(files[i]).ukey), hi)
    ensures hi.Some? ==> InsideEveryClosed(files, begin, end, lo, Some(Largest(files[i]).ukey))
    ensures lo.Some? && Smallest(files[i]).ukey < lo.value ==>
            StartsBelow(files, Some(Smallest(files[i]).ukey)) < StartsBelow(files, lo)
    ensures hi.Some? && Largest(files[i]).ukey > hi.value ==>
            LimitsAbove(files, Some(Largest(files[i]).ukey)) < LimitsAbove(files, hi)
  {
    var f := files[i];
    forall a, b | Includes(a, b, begin, end) && Closed(files, a, b)
      ensures lo.Some? ==> Includes(a, b, Some(Smallest(f).ukey), hi)
      ensures hi.Some? ==> Includes(a, b, lo, Some(Largest(f).ukey))
    {
      assert Includes(a, b, lo, hi);
      assert Overlaps(f, a, b);
      assert Within(f, a, b);
    }
    if lo.Some? && Smallest(f).ukey < lo.value {
      assert i in StartsBelow(files, lo) && i !in StartsBelow(files, Some(Smallest(f).ukey));
    }
    if hi.Some? && Largest(f).ukey > hi.value {
      assert i in LimitsAbove(files, hi) && i !in LimitsAbove(files, Some(Largest(f).ukey));
    }
  }

  /**
   GetOverlappingInputs. Above level 0 it selects the overlapping files; at level 0, where
   a selected file may widen the range, the scan restarts until the range is closed.
   */
  method GetOverlappingInputs(files: seq<File>, level: nat, begin: Option<UserKey>, end: Option<UserKey>)
    returns (inputs: seq<File>, ghost lo: Option<UserKey>, ghost hi: Option<UserKey>)
    ensures inputs == OverlappingUpTo(files, |files|, lo, hi)
    ensures lo.Some? == begin.Some? && hi.Some? == end.Some?
    ensures level > 0 ==> lo == begin && hi == end
    ensures level == 0 ==> LeastClosed(files, begin, end, lo, hi)
  {
    hide InsideEveryClosed, StartsBelow, LimitsAbove, Closed, OverlappingUpTo, ValidTable, Sorted;
    NothingIsClosed(files, begin, end);
    inputs := [];
    var userBegin, userEnd := begin, end;
    var i := 0;
    while i < |files|
      invariant 0 <= i <= |files|
      invariant begin.Some? == userBegin.Some? && end.Some? == userEnd.Some?
      invariant Includes(userBegin, userEnd, begin, end)
      invariant level > 0 ==> userBegin == begin && userEnd == end
      invariant inputs == OverlappingUpTo(files, i, userBegin, userEnd)
      invariant level == 0 ==> Closed(files[..i], userBegin, userEnd)
      invariant InsideEveryClosed(files, begin, end, userBegin, userEnd)
      decreases StartsBelow(files, userBegin), LimitsAbove(files, userEnd), |files| - i
    {
      var f := files[i];
      RangeAscends(f);
      OneMoreFile(files, i, userBegin, userEnd);
      i := i + 1;
      var fileStart, fileLimit := Smallest(f).ukey, Largest(f).ukey;
      if userBegin.Some? && fileLimit < userBegin.value {
      } else if userEnd.Some? && fileStart > userEnd.value {
      } else {
        inputs := inputs + [f];
        if level == 0 {
          Widen(files, begin, end, userBegin, userEnd, i - 1);
          if userBegin.Some? && fileStart < userBegin.value {
            userBegin := Some(fileStart);
            inputs, i := [], 0;
            NothingIsClosed(files, userBegin, userEnd);
          } else if userEnd.Some? && fileLimit > userEnd.value {
            userEnd := Some(fileLimit);
            inputs, i := [], 0;
            NothingIsClosed(files, userBegin, userEnd);
          }
        }
      }
    }
    lo, hi := userBegin, userEnd;
    assert files[..|files|] == files;
  }

  lemma RangeAscends(f: File)
    ensures Smallest(f).ukey <= Largest(f).ukey
  {
    InRange(f, f.entries[0]);
  }

  lemma NothingIsClosed(files: seq<File>, lo: Option<UserKey>, hi: Option<UserKey>)
    ensures Closed(files[..0], lo, hi) && OverlappingUpTo(files, 0, lo, hi) == []
    ensures InsideEveryClosed(files, lo, hi, lo, hi)
  {
  }

  lemma OneMoreFile(files: seq<File>, i: nat, lo: Option<UserKey>, hi: Option<UserKey>)
    requires i < |files|
    ensures OverlappingUpTo(files, i + 1, lo, hi) ==
            OverlappingUpTo(files, i, lo, hi) + if Overlaps(files[i], lo, hi) then [files[i]] else []
    ensures Closed(files[..i + 1], lo, hi) <==>
            Closed(files[..i], lo, hi) && (Overlaps(files[i], lo, hi) ==> Within(files[i], lo, hi))
  {
    assert files[..i + 1] == files[..i] + [files[i]];
  }

  ghost function StartsBelow(files: seq<File>, k: Option<UserKey>): set<nat>
  {
    set i: nat | i < |files| && k.Some? && Smallest(files[i]).ukey < k.value
  }

  ghost function LimitsAbove(files: seq<File>, k: Option<UserKey>): set<nat>
  {
    set i: nat | i < |files| && k.Some? && Largest(files[i]).ukey > k.value
  }
}
