/**
 One compaction: which files take part (db/version_set.cc) and which entries survive
 (DBImpl::DoCompactionWork, db/db_impl.cc), with the effect on every read.
 Size limits only choose between safe alternatives and are modelled as free choices.
 */
module Compaction {
  import opened Config
  import opened DbFormat
  import opened Options
  import opened VersionSet
  import opened Lookup

  // ---------------------------------------------------------------- choosing files

  ghost predicate NoOverlap(fs: seq<File>, lo: UserKey, hi: UserKey) {
    forall f :: f in fs ==> !Overlaps(f, Some(lo), Some(hi))
  }

  /** TotalFileSize. */
  function TotalSize(sizeOf: File -> nat, fs: seq<File>): nat {
    if fs == [] then 0 else TotalSize(sizeOf, fs[..|fs| - 1]) + sizeOf(fs[|fs| - 1])
  }

  /** How many bytes the files of a level hold that overlap a range of user keys. */
  ghost function OverlapBytes(sizeOf: File -> nat, files: seq<File>, lo: UserKey, hi: UserKey): nat {
    TotalSize(sizeOf, OverlappingUpTo(files, |files|, Some(lo), Some(hi)))
  }

  /** Not too many bytes overlap two levels below `l`. */
  ghost predicate FewGrandparents(sizeOf: File -> nat, v: Version, l: nat, lo: UserKey, hi: UserKey, maxBytes: nat) {
    l + 2 < |v| ==> OverlapBytes(sizeOf, v[l + 2], lo, hi) <= maxBytes
  }

  /** Checks that a file does not overlap too many grandparent bytes. */
  method GrandparentsAreFew(v: Version, level: nat, lo: UserKey, hi: UserKey, sizeOf: File -> nat, maxBytes: nat)
      returns (few: bool)
    requires |v| == NUM_LEVELS && lo <= hi
    ensures few <==> FewGrandparents(sizeOf, v, level, lo, hi, maxBytes)
  {
    few := true;
    if level + 2 < NUM_LEVELS {
      var overlaps, _, _ := GetOverlappingInputs(v[level + 2], level + 2, Some(lo), Some(hi));
      few := TotalSize(sizeOf, overlaps) <= maxBytes;
    }
  }

  /**
   Version::PickLevelForMemTableOutput: the deepest level, up to a limit, with no overlap in it or above,
   and with not too many bytes that overlap in the level two further down.
   */
  method PickLevelForMemTableOutput(v: Version, lo: UserKey, hi: UserKey, sizeOf: File -> nat, maxBytes: nat)
      returns (level: nat)
    requires ValidVersion(v) && lo <= hi
    ensures level <= MAX_MEM_COMPACT_LEVEL
    ensures level > 0 ==> forall l :: 0 <= l <= level ==> NoOverlap(v[l], lo, hi)
    ensures forall l :: 0 <= l < level ==> FewGrandparents(sizeOf, v, l, lo, hi, maxBytes)
    ensures level < MAX_MEM_COMPACT_LEVEL ==>
              || !NoOverlap(v[level], lo, hi) || !NoOverlap(v[level + 1], lo, hi)
              || !FewGrandparents(sizeOf, v, level, lo, hi, maxBytes)
  {
    hide FewGrandparents;
    level := 0;
    var overlap := SomeFileOverlapsRange(false, v[0], Some(lo), Some(hi));
    if !overlap {
      while level < MAX_MEM_COMPACT_LEVEL
        invariant level <= MAX_MEM_COMPACT_LEVEL
        invariant forall l :: 0 <= l <= level ==> NoOverlap(v[l], lo, hi)
        invariant forall l :: 0 <= l < level ==> FewGrandparents(sizeOf, v, l, lo, hi, maxBytes)
      {
        overlap := SomeFileOverlapsRange(true, v[level + 1], Some(lo), Some(hi));
        if overlap {
          break;
        }
        var few := GrandparentsAreFew(v, level, lo, hi, sizeOf, maxBytes);
        if !few {
          break;
        }
        level := level + 1;
      }
    }
  }

  /** The internal keys `lo` and `hi` bound all of `fs` and are keys of files in it. */
  ghost predicate IsRange(fs: seq<File>, lo: IKey, hi: IKey) {
    && (exists f :: f in fs && Smallest(f) == lo)
    && (exists f :: f in fs && Largest(f) == hi)
    && forall f :: f in fs ==> !Before(Smallest(f), lo) && !Before(hi, Largest(f))
  }

  /** VersionSet::GetRange. */
  method GetRange(inputs: seq<File>) returns (smallest: IKey, largest: IKey)
    requires inputs != []
    ensures IsRange(inputs, smallest, largest)
  {
    smallest, largest := Smallest(inputs[0]), Largest(inputs[0]);
    ghost var p, q := 0, 0;
    for i := 1 to |inputs|
      invariant 0 <= p < i && Smallest(inputs[p]) == smallest
      invariant 0 <= q < i && Largest(inputs[q]) == largest
      invariant forall j :: 0 <= j < i ==>
                  !Before(Smallest(inputs[j]), smallest) && !Before(largest, Largest(inputs[j]))
    {
      var f := inputs[i];
      if Before(Smallest(f), smallest) {
        smallest, p := Smallest(f), i;
      }
      if Before(largest, Largest(f)) {
        largest, q := Largest(f), i;
      }
    }
    assert inputs[p] in inputs && inputs[q] in inputs;
  }

  ghost predicate SharesNoKey(f: File, g: File) {
    forall e, e' :: e in f.entries && e' in g.entries ==> e.key.ukey != e'.key.ukey
  }

  /** No user key of a chosen file also occurs in an unchosen file of the same level. */
  ghost predicate CleanCut(files: seq<File>, chosen: seq<File>) {
    forall f, g :: f in chosen && g in files && g !in chosen ==> SharesNoKey(f, g)
  }

  /** The restarting scan of level 0 makes its own clean cut. */
  lemma ClosedIsCleanCut(files: seq<File>, lo: Option<UserKey>, hi: Option<UserKey>)
    requires Closed(files, lo, hi)
    ensures CleanCut(files, OverlappingUpTo(files, |files|, lo, hi))
  {
    var chosen := OverlappingUpTo(files, |files|, lo, hi);
    OverlappingMembers(files, |files|, lo, hi);
    assert files[..|files|] == files;
    forall f, g, e, e' | f in chosen && g in files && g !in chosen && e in f.entries && e' in g.entries
      ensures e.key.ukey != e'.key.ukey
    {
      InRange(f, e);
      InRange(g, e');
      assert Within(f, lo, hi) && !Overlaps(g, lo, hi);
    }
  }

  ghost predicate Subset(a: seq<File>, b: seq<File>) {
    forall f :: f in a ==> f in b
  }

  /** A list names each file once. */
  ghost predicate Distinct(fs: seq<File>) {
    forall i, j :: 0 <= i < j < |fs| ==> fs[i] != fs[j]
  }

  lemma {:induction false} OverlappingIsDistinct(files: seq<File>, n: nat, lo: Option<UserKey>, hi: Option<UserKey>)
    requires Distinct(files) && n <= |files|
    ensures Distinct(OverlappingUpTo(files, n, lo, hi))
  {
    if n > 0 {
      OverlappingIsDistinct(files, n - 1, lo, hi);
      OverlappingMembers(files, n - 1, lo, hi);
    }
  }

  /** `in1` is what level+1 must contribute: exactly its files that overlap the user-key range of `in0`. */
  ghost predicate CoversNextLevel(next: seq<File>, in0: seq<File>, in1: seq<File>) {
    exists lo, hi :: IsRange(in0, lo, hi) && in1 == OverlappingUpTo(next, |next|, Some(lo.ukey), Some(hi.ukey))
  }

  /** The files of a level that overlap a range of user keys, at level 0 the least closed one around it. */
  ghost predicate IsSelected(files: seq<File>, level: nat, lo: UserKey, hi: UserKey, inputs: seq<File>) {
    exists lo', hi' :: IsSelectedBy(files, level, lo, hi, lo', hi', inputs)
  }

  ghost predicate IsSelectedBy(files: seq<File>, level: nat, lo: UserKey, hi: UserKey, lo': Option<UserKey>,
      hi': Option<UserKey>, inputs: seq<File>)
  {
    && inputs == OverlappingUpTo(files, |files|, lo', hi')
    && if level > 0 then lo' == Some(lo) && hi' == Some(hi) else LeastClosed(files, Some(lo), Some(hi), lo', hi')
  }

  lemma SelectedOnce(files: seq<File>, level: nat, lo: UserKey, hi: UserKey, a: seq<File>, b: seq<File>)
    requires IsSelected(files, level, lo, hi, a) && IsSelected(files, level, lo, hi, b)
    ensures a == b
  {
    hide OverlappingUpTo, Closed;
    var lo1, hi1 :| IsSelectedBy(files, level, lo, hi, lo1, hi1, a);
    var lo2, hi2 :| IsSelectedBy(files, level, lo, hi, lo2, hi2, b);
    if level == 0 {
      assert Includes(lo1, hi1, lo2, hi2) && Includes(lo2, hi2, lo1, hi1);
    }
  }

  lemma RangeOnce(fs: seq<File>, a: IKey, b: IKey, c: IKey, d: IKey)
    requires IsRange(fs, a, b) && IsRange(fs, c, d)
    ensures a.ukey == c.ukey && b.ukey == d.ukey
  {
  }

  /** The files of level `l` that a compaction over `[lo, hi]` must take. */
  method SelectInputs(v: Version, l: nat, lo: UserKey, hi: UserKey) returns (inputs: seq<File>)
    requires l < |v| && lo <= hi
    ensures Subset(inputs, v[l])
    ensures forall f :: f in v[l] && Overlaps(f, Some(lo), Some(hi)) ==> f in inputs
    ensures l > 0 ==> inputs == OverlappingUpTo(v[l], |v[l]|, Some(lo), Some(hi))
    ensures l == 0 ==> CleanCut(v[0], inputs)
    ensures Distinct(v[l]) ==> Distinct(inputs)
    ensures forall base :: FillsRange(base, lo, hi) ==> NoGap(base + inputs)
    ensures IsSelected(v[l], l, lo, hi, inputs)
  {
    ghost var lo', hi';
    inputs, lo', hi' := GetOverlappingInputs(v[l], l, Some(lo), Some(hi));
    assert IsSelectedBy(v[l], l, lo, hi, lo', hi', inputs);
    if Distinct(v[l]) {
      OverlappingIsDistinct(v[l], |v[l]|, lo', hi');
    }
    OverlappingMembers(v[l], |v[l]|, lo', hi');
    assert v[l][..|v[l]|] == v[l];
    if l == 0 {
      ClosedIsCleanCut(v[0], lo', hi');
    }
    forall base | FillsRange(base, lo, hi) ensures NoGap(base + inputs) {
      if l == 0 {
        ClosureLeavesNoGap(v[0], base, inputs, lo, hi, lo'.value, hi'.value);
      } else {
        OverlappingLeavesNoGap(base, inputs, lo, hi);
      }
    }
  }

  // ---- Inputs without gaps

  ghost predicate Covers(fs: seq<File>, k: UserKey) {
    exists f :: f in fs && Smallest(f).ukey <= k <= Largest(f).ukey
  }

  /** Every user key between two keys of the files is in the range of one of them. */
  ghost predicate NoGap(fs: seq<File>) {
    forall f, g, k {:trigger Smallest(f), Largest(g), Covers(fs, k)} ::
      f in fs && g in fs && Smallest(f).ukey <= k <= Largest(g).ukey ==> Covers(fs, k)
  }

  /** The files overlap a range and cover all its keys. */
  ghost predicate FillsRange(fs: seq<File>, lo: UserKey, hi: UserKey) {
    && (forall f :: f in fs ==> Overlaps(f, Some(lo), Some(hi)))
    && forall k :: lo <= k <= hi ==> Covers(fs, k)
  }

  /** Files that overlap a range leave no gap beside files that fill it. */
  lemma OverlappingLeavesNoGap(base: seq<File>, more: seq<File>, lo: UserKey, hi: UserKey)
    requires FillsRange(base, lo, hi) && forall f :: f in more ==> Overlaps(f, Some(lo), Some(hi))
    ensures NoGap(base + more)
  {
    var fs := base + more;
    forall f, g, k {:trigger Smallest(f), Largest(g), Covers(fs, k)} |
      f in fs && g in fs && Smallest(f).ukey <= k <= Largest(g).ukey ensures Covers(fs, k)
    {
      if k < lo {
        assert Overlaps(f, Some(lo), Some(hi));
      } else if k > hi {
        assert Overlaps(g, Some(lo), Some(hi));
      } else {
        CoversMore(base, fs, k);
      }
    }
  }

  lemma CoversMore(some: seq<File>, all: seq<File>, k: UserKey)
    requires Subset(some, all) && Covers(some, k)
    ensures Covers(all, k)
  {
  }

  /** At level 0 the range grows no further than files without a gap reach. */
  lemma ClosureLeavesNoGap(files: seq<File>, base: seq<File>, inputs: seq<File>, lo: UserKey, hi: UserKey,
      lo': UserKey, hi': UserKey)
    requires FillsRange(base, lo, hi) && LeastClosed(files, Some(lo), Some(hi), Some(lo'), Some(hi'))
    requires forall f :: f in inputs <==> f in files && Overlaps(f, Some(lo'), Some(hi'))
    ensures NoGap(base + inputs)
  {
    var fs := base + inputs;
    forall k | lo' <= k <= hi' ensures Covers(fs, k) {
      if lo <= k <= hi {
        CoversMore(base, fs, k);
      } else if Covers(inputs, k) {
        CoversMore(inputs, fs, k);
      } else {
        ShorterIsClosed(files, inputs, lo', hi', k);
        if k < lo {
          assert Includes(Some(k + 1), Some(hi'), Some(lo), Some(hi));
        } else {
          assert Includes(Some(lo'), Some(k - 1), Some(lo), Some(hi));
        }
      }
    }
    assert FillsRange(fs, lo', hi');
    OverlappingLeavesNoGap(fs, [], lo', hi');
    assert fs + [] == fs;
  }

  /** A key no file covers cuts a closed range into two. */
  lemma ShorterIsClosed(files: seq<File>, inputs: seq<File>, lo: UserKey, hi: UserKey, k: UserKey)
    requires Closed(files, Some(lo), Some(hi)) && lo <= k <= hi && !Covers(inputs, k)
    requires forall f :: f in inputs <==> f in files && Overlaps(f, Some(lo), Some(hi))
    ensures Closed(files, Some(lo), Some(k - 1)) && Closed(files, Some(k + 1), Some(hi))
  {
    forall f | f in files && (Overlaps(f, Some(lo), Some(k - 1)) || Overlaps(f, Some(k + 1), Some(hi)))
      ensures Within(f, Some(lo), Some(hi)) && !(Smallest(f).ukey <= k <= Largest(f).ukey)
    {
      assert Overlaps(f, Some(lo), Some(hi)) && f in inputs;
    }
  }

  /** The files from the least to the greatest key of files without a gap. */
  lemma NoGapFills(fs: seq<File>, lo: IKey, hi: IKey)
    requires IsRange(fs, lo, hi) && NoGap(fs)
    ensures FillsRange(fs, lo.ukey, hi.ukey) && lo.ukey <= hi.ukey
  {
    var f, g :| f in fs && Smallest(f) == lo && g in fs && Largest(g) == hi;
    InRange(f, f.entries[0]);
    forall h | h in fs ensures Overlaps(h, Some(lo.ukey), Some(hi.ukey)) {
      InsideRange(fs, lo, hi, h);
    }
  }

  lemma InsideRange(fs: seq<File>, lo: IKey, hi: IKey, f: File)
    requires IsRange(fs, lo, hi) && f in fs
    ensures Overlaps(f, Some(lo.ukey), Some(hi.ukey))
  {
    InRange(f, f.entries[0]);
  }

  lemma RangeOfFilesAscends(fs: seq<File>, lo: IKey, hi: IKey)
    requires IsRange(fs, lo, hi)
    ensures lo.ukey <= hi.ukey
  {
    var f :| f in fs && Smallest(f) == lo;
    InRange(f, f.entries[0]);
  }

  /** If the inputs from the next level leave no gap, neither do the inputs grown around them. */
  lemma GrownLeaveNoGap(next: seq<File>, in0: seq<File>, in1: seq<File>, grown0: seq<File>, grown1: seq<File>,
      s: IKey, l: IKey, lo: IKey, hi: IKey)
    requires IsRange(in0, s, l) && in1 == OverlappingUpTo(next, |next|, Some(s.ukey), Some(l.ukey))
    requires IsRange(grown0, lo, hi) && grown1 == OverlappingUpTo(next, |next|, Some(lo.ukey), Some(hi.ukey))
    requires Subset(in0, grown0) && NoGap(in0 + in1 + grown0)
    ensures NoGap(grown0 + grown1)
  {
    OverlappingMembers(next, |next|, Some(s.ukey), Some(l.ukey));
    OverlappingMembers(next, |next|, Some(lo.ukey), Some(hi.ukey));
    assert next[..|next|] == next;
    var fs := grown0 + grown1;
    RangeWidens(in0, grown0, s, l, lo, hi);
    assert Subset(in0 + in1 + grown0, fs);
    var f, g :| f in grown0 && Smallest(f) == lo && g in grown0 && Largest(g) == hi;
    forall k | lo.ukey <= k <= hi.ukey ensures Covers(fs, k) {
      assert f in in0 + in1 + grown0 && g in in0 + in1 + grown0;
      assert Covers(in0 + in1 + grown0, k);
      CoversMore(in0 + in1 + grown0, fs, k);
    }
    forall h | h in fs ensures Overlaps(h, Some(lo.ukey), Some(hi.ukey)) {
      if h in grown0 {
        InsideRange(grown0, lo, hi, h);
      }
    }
    OverlappingLeavesNoGap(fs, [], lo.ukey, hi.ukey);
    assert fs + [] == fs;
  }

  lemma RangeWidens(some: seq<File>, all: seq<File>, s: IKey, l: IKey, lo: IKey, hi: IKey)
    requires Subset(some, all) && IsRange(some, s, l) && IsRange(all, lo, hi)
    ensures lo.ukey <= s.ukey && l.ukey <= hi.ukey
  {
    var f, g :| f in some && Smallest(f) == s && g in some && Largest(g) == l;
    assert f in all && g in all;
  }

  /**
   The inputs can be grown to `e0` and `e1`: there are more files of this level that overlap all of them,
   with these it is not too much, and no more files of the next level come along.
   */
  ghost predicate Grows(v: Version, level: nat, in0: seq<File>, in1: seq<File>, e0: seq<File>, e1: seq<File>,
      sizeOf: File -> nat, maxBytes: nat)
    requires level + 1 < |v|
  {
    && in1 != [] && |e0| > |in0| && TotalSize(sizeOf, in1) + TotalSize(sizeOf, e0) < maxBytes && |e1| == |in1|
    && (exists a, b :: IsRange(in0 + in1, a, b) && IsSelected(v[level], level, a.ukey, b.ukey, e0))
    && (exists c, d :: IsRange(e0, c, d) && IsSelected(v[level + 1], level + 1, c.ukey, d.ukey, e1))
  }

  lemma GrowsOnce(v: Version, level: nat, in0: seq<File>, in1: seq<File>, e0: seq<File>, e1: seq<File>,
      f0: seq<File>, f1: seq<File>, sizeOf: File -> nat, maxBytes: nat)
    requires level + 1 < |v| && Grows(v, level, in0, in1, e0, e1, sizeOf, maxBytes)
    requires Grows(v, level, in0, in1, f0, f1, sizeOf, maxBytes)
    ensures e0 == f0 && e1 == f1
  {
    hide IsRange, IsSelected, TotalSize;
    var a, b :| IsRange(in0 + in1, a, b) && IsSelected(v[level], level, a.ukey, b.ukey, e0);
    var a', b' :| IsRange(in0 + in1, a', b') && IsSelected(v[level], level, a'.ukey, b'.ukey, f0);
    RangeOnce(in0 + in1, a, b, a', b');
    SelectedOnce(v[level], level, a.ukey, b.ukey, e0, f0);
    var c, d :| IsRange(e0, c, d) && IsSelected(v[level + 1], level + 1, c.ukey, d.ukey, e1);
    var c', d' :| IsRange(f0, c', d') && IsSelected(v[level + 1], level + 1, c'.ukey, d'.ukey, f1);
    RangeOnce(e0, c, d, c', d');
    SelectedOnce(v[level + 1], level + 1, c.ukey, d.ukey, e1, f1);
  }

  /** The inputs of both levels are those that overlap, grown if they can be. */
  ghost predicate IsSetUp(v: Version, level: nat, in0: seq<File>, in1: seq<File>, out0: seq<File>, out1: seq<File>,
      sizeOf: File -> nat, maxBytes: nat)
    requires level + 1 < |v|
  {
    && CoversNextLevel(v[level + 1], in0, in1)
    && (|| Grows(v, level, in0, in1, out0, out1, sizeOf, maxBytes)
        || (out0 == in0 && out1 == in1 && forall e0, e1 :: !Grows(v, level, in0, in1, e0, e1, sizeOf, maxBytes)))
  }

  /** The files that would be selected do not grow the inputs. */
  lemma NoGrowth(v: Version, level: nat, in0: seq<File>, in1: seq<File>, a: IKey, b: IKey, x0: seq<File>,
      sizeOf: File -> nat, maxBytes: nat)
    requires level + 1 < |v| && IsRange(in0 + in1, a, b) && IsSelected(v[level], level, a.ukey, b.ukey, x0)
    requires !(|x0| > |in0| && TotalSize(sizeOf, in1) + TotalSize(sizeOf, x0) < maxBytes)
    ensures forall e0, e1 :: !Grows(v, level, in0, in1, e0, e1, sizeOf, maxBytes)
  {
    hide IsRange, IsSelected, TotalSize;
    forall e0, e1
      ensures !Grows(v, level, in0, in1, e0, e1, sizeOf, maxBytes)
    {
      if Grows(v, level, in0, in1, e0, e1, sizeOf, maxBytes) {
        var a', b' :| IsRange(in0 + in1, a', b') && IsSelected(v[level], level, a'.ukey, b'.ukey, e0);
        RangeOnce(in0 + in1, a, b, a', b');
        SelectedOnce(v[level], level, a.ukey, b.ukey, e0, x0);
      }
    }
  }

  lemma NoGrowthBelow(v: Version, level: nat, in0: seq<File>, in1: seq<File>, a: IKey, b: IKey, x0: seq<File>,
      c: IKey, d: IKey, x1: seq<File>, sizeOf: File -> nat, maxBytes: nat)
    requires level + 1 < |v| && IsRange(in0 + in1, a, b) && IsSelected(v[level], level, a.ukey, b.ukey, x0)
    requires IsRange(x0, c, d) && IsSelected(v[level + 1], level + 1, c.ukey, d.ukey, x1) && |x1| != |in1|
    ensures forall e0, e1 :: !Grows(v, level, in0, in1, e0, e1, sizeOf, maxBytes)
  {
    hide IsRange, IsSelected, TotalSize;
    forall e0, e1
      ensures !Grows(v, level, in0, in1, e0, e1, sizeOf, maxBytes)
    {
      if Grows(v, level, in0, in1, e0, e1, sizeOf, maxBytes) {
        var a', b' :| IsRange(in0 + in1, a', b') && IsSelected(v[level], level, a'.ukey, b'.ukey, e0);
        RangeOnce(in0 + in1, a, b, a', b');
        SelectedOnce(v[level], level, a.ukey, b.ukey, e0, x0);
        var c', d' :| IsRange(e0, c', d') && IsSelected(v[level + 1], level + 1, c'.ukey, d'.ukey, e1);
        RangeOnce(x0, c, d, c', d');
        SelectedOnce(v[level + 1], level + 1, c.ukey, d.ukey, e1, x1);
      }
    }
  }

  /**
   VersionSet::SetupOtherInputs: adds the overlapping files of level+1, and grows `in0` if that
   does not change how many these are. If the files picked have no gap between them, all inputs
   together have none.
   */
  method SetupOtherInputs(v: Version, level: nat, in0: seq<File>, sizeOf: File -> nat, maxBytes: nat)
      returns (out0: seq<File>, out1: seq<File>)
    requires ValidVersion(v) && level + 1 < NUM_LEVELS
    requires in0 != [] && Subset(in0, v[level])
    requires level == 0 ==> CleanCut(v[0], in0)
    ensures Subset(in0, out0) && Subset(out0, v[level]) && Subset(out1, v[level + 1])
    ensures CoversNextLevel(v[level + 1], out0, out1)
    ensures level == 0 ==> CleanCut(v[0], out0)
    ensures Distinct(v[level]) && Distinct(in0) ==> Distinct(out0)
    ensures NoGap(in0) ==> NoGap(out0 + out1)
    ensures exists in1 :: IsSetUp(v, level, in0, in1, out0, out1, sizeOf, maxBytes)
  {
    hide NoGap, FillsRange, Distinct, CleanCut, LevelOrdered, IsRange, Overlaps, OverlappingUpTo, IsSelected,
        TotalSize;
    var smallest, largest := GetRange(in0);
    RangeOfFilesAscends(in0, smallest, largest);
    out0 := in0;
    out1 := SelectInputs(v, level + 1, smallest.ukey, largest.ukey);
    ghost var in1 := out1;
    if NoGap(in0) {
      NoGapFills(in0, smallest, largest);
    }
    if out1 != [] {
      var allStart, allLimit := GetRange(in0 + out1);
      RangeOfFilesAscends(in0 + out1, allStart, allLimit);
      if NoGap(in0) {
        NoGapFills(in0 + out1, allStart, allLimit);
      }
      var expanded0 := SelectInputs(v, level, allStart.ukey, allLimit.ukey);
      forall f | f in in0 ensures f in expanded0 {
        InsideRange(in0 + out1, allStart, allLimit, f);
      }
      if |expanded0| > |in0| && TotalSize(sizeOf, out1) + TotalSize(sizeOf, expanded0) < maxBytes {
        var newStart, newLimit := GetRange(expanded0);
        RangeOfFilesAscends(expanded0, newStart, newLimit);
        var expanded1 := SelectInputs(v, level + 1, newStart.ukey, newLimit.ukey);
        if NoGap(in0) {
          GrownLeaveNoGap(v[level + 1], in0, out1, expanded0, expanded1, smallest, largest, newStart, newLimit);
        }
        if |expanded1| == |out1| {
          out0, out1 := expanded0, expanded1;
        } else {
          NoGrowthBelow(v, level, in0, in1, allStart, allLimit, expanded0, newStart, newLimit, expanded1, sizeOf,
                        maxBytes);
        }
      } else {
        NoGrowth(v, level, in0, in1, allStart, allLimit, expanded0, sizeOf, maxBytes);
      }
    }
    assert IsSetUp(v, level, in0, in1, out0, out1, sizeOf, maxBytes);
  }

  /** The end of PickCompaction: at level 0 all files that overlap the picked one, in turn, come along. */
  method PickInputs(v: Version, level: nat, f: File) returns (in0: seq<File>)
    requires level < |v| && f in v[level] && Distinct(v[level])
    ensures f in in0 && Subset(in0, v[level]) && Distinct(in0) && NoGap(in0)
    ensures level == 0 ==> CleanCut(v[0], in0)
    ensures level > 0 ==> in0 == [f]
  {
    in0 := [f];
    assert forall k :: Smallest(f).ukey <= k <= Largest(f).ukey ==> Covers([f], k) by {
      assert f in [f];
    }
    if level == 0 {
      var smallest, largest := GetRange(in0);
      RangeOfFilesAscends(in0, smallest, largest);
      InRange(f, f.entries[0]);
      in0 := SelectInputs(v, 0, smallest.ukey, largest.ukey);
      assert FillsRange([f], smallest.ukey, largest.ukey);
      assert f in in0;
      SameFilesNoGap([f] + in0, in0);
    }
  }

  lemma SameFilesNoGap(a: seq<File>, b: seq<File>)
    requires NoGap(a) && Subset(a, b) && Subset(b, a)
    ensures NoGap(b)
  {
    forall f, g, k {:trigger Smallest(f), Largest(g), Covers(b, k)} |
      f in b && g in b && Smallest(f).ukey <= k <= Largest(g).ukey ensures Covers(b, k)
    {
      assert Covers(a, k);
      CoversMore(a, b, k);
    }
  }

  // ---------------------------------------------------------------- which entries survive

  /** No file two or more levels down covers `k`. */
  ghost predicate BaseLevel(v: Version, level: nat, k: UserKey) {
    forall l, f :: level + 2 <= l < |v| && f in v[l] ==> !(Smallest(f).ukey <= k <= Largest(f).ukey)
  }

  /** Rule (A): the entry before it, of the same user key, is already old enough for every snapshot. */
  predicate Hidden(input: seq<Entry>, i: nat, smallestSnapshot: nat)
    requires i < |input|
  {
    i > 0 && input[i - 1].key.ukey == input[i].key.ukey && input[i - 1].key.seqno <= smallestSnapshot
  }

  /** Rule (B): a deletion every snapshot sees, with nothing below it to hide. */
  ghost predicate Obsolete(e: Entry, v: Version, level: nat, smallestSnapshot: nat) {
    e.key.kind.Deletion? && e.key.seqno <= smallestSnapshot && BaseLevel(v, level, e.key.ukey)
  }

  ghost predicate Dropped(input: seq<Entry>, i: nat, v: Version, level: nat, smallestSnapshot: nat)
    requires i < |input|
  {
    Hidden(input, i, smallestSnapshot) || Obsolete(input[i], v, level, smallestSnapshot)
  }

  /** The entries among the first `n` inputs that a compaction writes out. */
  ghost function Kept(input: seq<Entry>, n: nat, v: Version, level: nat, smallestSnapshot: nat): seq<Entry>
    requires n <= |input|
  {
    if n == 0 then []
    else
      var r := Kept(input, n - 1, v, level, smallestSnapshot);
      if Dropped(input, n - 1, v, level, smallestSnapshot) then r else r + [input[n - 1]]
  }

  lemma {:induction false} KeptMembers(input: seq<Entry>, n: nat, v: Version, level: nat, smallestSnapshot: nat)
    requires n <= |input|
    ensures forall e :: e in Kept(input, n, v, level, smallestSnapshot) <==>
            exists i :: 0 <= i < n && input[i] == e && !Dropped(input, i, v, level, smallestSnapshot)
  {
    if n > 0 {
      KeptMembers(input, n - 1, v, level, smallestSnapshot);
    }
  }

  /** A newer input of the same user key is seen by every snapshot. */
  ghost predicate IsCovered(input: seq<Entry>, i: nat, smallestSnapshot: nat)
    requires i < |input|
  {
    exists j :: 0 <= j < i && input[j].key.ukey == input[i].key.ukey && input[j].key.seqno <= smallestSnapshot
  }

  /**
   What a compaction writes, without its state: all inputs but deletions that are obsolete, and entries
   that no snapshot can see for a newer one.
   */
  lemma KeptExactly(input: seq<Entry>, i: nat, v: Version, level: nat, smallestSnapshot: nat)
    requires Sorted(input) && i < |input|
    ensures input[i] in Kept(input, |input|, v, level, smallestSnapshot) <==>
              !IsCovered(input, i, smallestSnapshot) && !Obsolete(input[i], v, level, smallestSnapshot)
  {
    hide Obsolete;
    KeptMembers(input, |input|, v, level, smallestSnapshot);
    forall j | 0 <= j < |input| && j != i
      ensures input[j] != input[i]
    {
      if j < i {
        KeysDiffer(input, j, i);
      } else {
        KeysDiffer(input, i, j);
      }
    }
    if IsCovered(input, i, smallestSnapshot) {
      var j :| 0 <= j < i && input[j].key.ukey == input[i].key.ukey && input[j].key.seqno <= smallestSnapshot;
      OlderIsHidden(input, j, i, smallestSnapshot);
    }
  }

  lemma KeysDiffer(input: seq<Entry>, i: nat, j: nat)
    requires Sorted(input) && i < j < |input|
    ensures input[i] != input[j]
  {
    assert Before(input[i].key, input[j].key);
  }

  lemma {:induction false} KeptSorted(input: seq<Entry>, n: nat, v: Version, level: nat, smallestSnapshot: nat)
    requires n <= |input| && Sorted(input)
    ensures Sorted(Kept(input, n, v, level, smallestSnapshot))
  {
    if n > 0 {
      KeptSorted(input, n - 1, v, level, smallestSnapshot);
      KeptMembers(input, n - 1, v, level, smallestSnapshot);
      var r := Kept(input, n - 1, v, level, smallestSnapshot);
      forall j | 0 <= j < |r| ensures Before(r[j].key, input[n - 1].key) {
        assert r[j] in r;
      }
    }
  }

  function Flatten(files: seq<File>): seq<Entry> {
    if files == [] then [] else Flatten(files[..|files| - 1]) + files[|files| - 1].entries
  }

  lemma OpenTableIsValid(all: seq<Entry>, closed: seq<Entry>, builder: seq<Entry>, number: nat)
    requires Sorted(all) && all == closed + builder && builder != []
    requires forall e :: e in all ==> e.key.seqno <= MAX_SEQUENCE
    ensures ValidTable(Table(number, builder))
  {
    forall i, j | 0 <= i < j < |builder| ensures Before(builder[i].key, builder[j].key) {
      assert all[|closed| + i] == builder[i] && all[|closed| + j] == builder[j];
    }
  }

  /** Files before the cursor end before `k`; if the file at the cursor begins after `k`, so do those behind it. */
  lemma CursorSkipsNone(files: seq<File>, cursor: nat, k: UserKey)
    requires LevelOrdered(files) && cursor <= |files| && forall i :: 0 <= i < cursor ==> AfterFile(Some(k), files[i])
    requires cursor < |files| ==> k < Smallest(files[cursor]).ukey
    ensures forall f :: f in files ==> !(Smallest(f).ukey <= k <= Largest(f).ukey)
  {
    LargestAscend(files);
    forall f | f in files ensures !(Smallest(f).ukey <= k <= Largest(f).ukey) {
      var i :| 0 <= i < |files| && files[i] == f;
      if i > cursor {
        assert Before(Smallest(files[cursor]), Smallest(files[i]));
      }
    }
  }

  class CompactionState {
    const level: nat
    const version: Version   // input_version_
    var levelPtrs: seq<nat>

    constructor (v: Version, level: nat)
      requires ValidVersion(v) && level + 1 < NUM_LEVELS
      ensures this.version == v && this.level == level && CursorsAt(None)
    {
      this.version, this.level := v, level;
      levelPtrs := seq(NUM_LEVELS, i => 0);
    }

    /** Every file a cursor has passed ends before `k`. */
    ghost predicate CursorsAt(k: Option<UserKey>)
      reads this
    {
      && ValidVersion(version) && level + 1 < NUM_LEVELS
      && |levelPtrs| == NUM_LEVELS
      && (forall l :: 0 <= l < NUM_LEVELS ==> levelPtrs[l] <= |version[l]|)
      && forall l, i :: 0 <= l < NUM_LEVELS && 0 <= i < levelPtrs[l] ==> AfterFile(k, version[l][i])
    }

    /** Compaction::IsBaseLevelForKey: for ascending keys the monotone cursors agree with a full scan. */
    method IsBaseLevelForKey(k: UserKey) returns (base: bool)
      requires CursorsAt(Some(k))
      modifies this
      ensures base <==> BaseLevel(version, level, k)
      ensures CursorsAt(Some(k))
    {
      for lvl := level + 2 to NUM_LEVELS
        invariant CursorsAt(Some(k))
        invariant forall l, f :: level + 2 <= l < lvl && f in version[l] ==> !(Smallest(f).ukey <= k <= Largest(f).ukey)
      {
        var files := version[lvl];
        while levelPtrs[lvl] < |files|
          invariant CursorsAt(Some(k))
          decreases |files| - levelPtrs[lvl]
        {
          var f := files[levelPtrs[lvl]];
          if k <= Largest(f).ukey {
            if k >= Smallest(f).ukey {
              assert f in version[lvl];
              return false;
            }
            break;
          }
          levelPtrs := levelPtrs[lvl := levelPtrs[lvl] + 1];
        }
        CursorSkipsNone(files, levelPtrs[lvl], k);
      }
      base := true;
    }

    /**
     DoCompactionWork: one pass over the merged input, cutting the output into files at
     will. What it writes is exactly `Kept`.
     */
    method DoCompactionWork(input: seq<Entry>, smallestSnapshot: nat, nextFile: nat) returns (outputs: seq<File>)
      requires CursorsAt(None)
      requires Sorted(input) && forall e :: e in input ==> e.key.seqno <= MAX_SEQUENCE
      requires smallestSnapshot < MAX_SEQUENCE
      modifies this
      ensures Flatten(outputs) == Kept(input, |input|, version, level, smallestSnapshot)
      ensures forall j :: 0 <= j < |outputs| ==> outputs[j].number == nextFile + j
    {
      var currentUserKey: Option<UserKey> := None;
      var lastSequenceForKey := MAX_SEQUENCE;
      var builder: seq<Entry> := [];   // empty when no output file is open
      outputs := [];
      for i := 0 to |input|
        invariant CursorsAt(currentUserKey)
        invariant currentUserKey == if i == 0 then None else Some(input[i - 1].key.ukey)
        invariant i > 0 ==> lastSequenceForKey == input[i - 1].key.seqno
        invariant Written(input, i, smallestSnapshot, outputs, builder, nextFile)
      {
        var key := input[i].key;
        outputs, builder := MaybeFinishOutput(input, i, smallestSnapshot, outputs, builder,
          nextFile);  // ShouldStopBefore
        if currentUserKey != Some(key.ukey) {
          currentUserKey := Some(key.ukey);
          lastSequenceForKey := MAX_SEQUENCE;
        }
        assert i > 0 ==> Before(input[i - 1].key, input[i].key);
        var drop := ShouldDrop(input[i], lastSequenceForKey, smallestSnapshot);
        lastSequenceForKey := key.seqno;
        if !drop {
          assert Kept(input, i + 1, version, level, smallestSnapshot) ==
              Kept(input, i, version, level, smallestSnapshot) + [input[i]];
          builder := builder + [input[i]];
          outputs, builder := MaybeFinishOutput(input, i + 1, smallestSnapshot, outputs, builder,
            nextFile);  // MaxOutputFileSize
        }
      }
      if builder != [] {
        outputs := FinishOutput(input, |input|, smallestSnapshot, outputs, builder, nextFile);
      }
    }

    /** Closed outputs followed by the open table hold what is kept of the first `n` inputs. */
    ghost predicate Written(input: seq<Entry>, n: nat, smallestSnapshot: nat, outputs: seq<File>, builder: seq<Entry>,
        nextFile: nat)
      requires n <= |input|
    {
      && Flatten(outputs) + builder == Kept(input, n, version, level, smallestSnapshot)
      && forall j :: 0 <= j < |outputs| ==> outputs[j].number == nextFile + j
    }

    method MaybeFinishOutput(input: seq<Entry>, n: nat, smallestSnapshot: nat, outputs: seq<File>, builder: seq<Entry>,
        nextFile: nat)
      returns (outputs': seq<File>, builder': seq<Entry>)
      requires n <= |input| && Sorted(input) && forall e :: e in input ==> e.key.seqno <= MAX_SEQUENCE
      requires Written(input, n, smallestSnapshot, outputs, builder, nextFile)
      ensures Written(input, n, smallestSnapshot, outputs', builder', nextFile)
    {
      var finish: bool := *;
      if finish && builder != [] {
        outputs' := FinishOutput(input, n, smallestSnapshot, outputs, builder, nextFile);
        builder' := [];
      } else {
        outputs', builder' := outputs, builder;
      }
    }

    /** The two drop rules of the loop. */
    method ShouldDrop(e: Entry, lastSequenceForKey: nat, smallestSnapshot: nat) returns (drop: bool)
      requires CursorsAt(Some(e.key.ukey))
      modifies this
      ensures drop <==> lastSequenceForKey <= smallestSnapshot || Obsolete(e, version, level, smallestSnapshot)
      ensures CursorsAt(Some(e.key.ukey))
    {
      drop := false;
      if lastSequenceForKey <= smallestSnapshot {
        drop := true;
      } else if e.key.kind.Deletion? && e.key.seqno <= smallestSnapshot {
        drop := IsBaseLevelForKey(e.key.ukey);
      }
    }

    /** FinishCompactionOutputFile: the open table becomes the next output. */
    method FinishOutput(input: seq<Entry>, n: nat, smallestSnapshot: nat, outputs: seq<File>, builder: seq<Entry>,
        nextFile: nat)
      returns (outputs': seq<File>)
      requires n <= |input| && Sorted(input) && forall e :: e in input ==> e.key.seqno <= MAX_SEQUENCE
      requires builder != [] && Written(input, n, smallestSnapshot, outputs, builder, nextFile)
      ensures Written(input, n, smallestSnapshot, outputs', [], nextFile)
      ensures |outputs'| == |outputs| + 1 && outputs'[|outputs|].entries == builder
    {
      KeptSorted(input, n, version, level, smallestSnapshot);
      KeptMembers(input, n, version, level, smallestSnapshot);
      OpenTableIsValid(Kept(input, n, version, level, smallestSnapshot), Flatten(outputs), builder,
        nextFile + |outputs|);
      outputs' := outputs + [Table(nextFile + |outputs|, builder)];
      assert outputs'[..|outputs|] == outputs;
    }
  }

  // ---------------------------------------------------------------- reads

  /** A dropped deletion uncovers a value: the newest entry left for its user key is not a deletion. */
  ghost predicate Exposes(input: seq<Entry>, rest: set<Entry>, v: Version, level: nat, smallestSnapshot: nat) {
    exists e, w ::
      && e in input && Obsolete(e, v, level, smallestSnapshot)
      && IsNewest((set x | x in input) + rest, e.key.ukey, smallestSnapshot, e)
      && IsNewest(rest, e.key.ukey, smallestSnapshot, w)
      && w.key.kind.Value?
  }

  ghost function Outcome(input: seq<Entry>, v: Version, level: nat, smallestSnapshot: nat): set<Entry> {
    set x | x in Kept(input, |input|, v, level, smallestSnapshot)
  }

  /** Every older input of the same key is hidden by an input at or below the smallest snapshot. */
  lemma {:induction false} OlderIsHidden(input: seq<Entry>, i: nat, j: nat, smallestSnapshot: nat)
    requires Sorted(input) && i < j < |input| && input[i].key.ukey == input[j].key.ukey
    requires input[i].key.seqno <= smallestSnapshot
    ensures Hidden(input, j, smallestSnapshot)
  {
    assert Before(input[i].key, input[j].key);
    if j - 1 > i {
      assert Before(input[i].key, input[j - 1].key) && Before(input[j - 1].key, input[j].key);
    }
  }

  /** A hidden entry is not the newest at any snapshot a reader may hold. */
  lemma HiddenIsNotNewest(input: seq<Entry>, i: nat, S: set<Entry>, smallestSnapshot: nat, s: nat)
    requires Sorted(input) && i < |input| && Hidden(input, i, smallestSnapshot)
    requires (forall e :: e in input ==> e in S) && UniqueVersions(S) && smallestSnapshot <= s
    ensures !IsNewest(S, input[i].key.ukey, s, input[i])
  {
    var e, p := input[i], input[i - 1];
    assert Before(p.key, e.key);
    assert p in S && e in S;
    assert Visible(p, e.key.ukey, s);
    assert p.key.seqno >= e.key.seqno;
  }

  /** If the newest entry of `k` survives, the read is unchanged. */
  lemma ReadKept(B: set<Entry>, A: set<Entry>, k: UserKey, s: nat, e: Entry)
    requires UniqueVersions(B) && A <= B && e in A && IsNewest(B, k, s, e)
    ensures ReadAt(A, k, s) == ReadAt(B, k, s)
  {
    assert IsNewest(A, k, s, e);
    ReadIs(A, k, s, e);
    ReadIs(B, k, s, e);
  }

  /** What a read sees once rule (B) has dropped the newest entry `e` of its key: the newest entry of the rest. */
  lemma ReadUncovered(input: seq<Entry>, rest: set<Entry>, v: Version, level: nat, smallestSnapshot: nat,
      s: nat, i: nat)
    requires Sorted(input) && UniqueVersions((set x | x in input) + rest)
    requires smallestSnapshot <= s && i < |input| && input[i] !in rest
    requires Obsolete(input[i], v, level, smallestSnapshot)
    requires IsNewest((set x | x in input) + rest, input[i].key.ukey, s, input[i])
    ensures forall x :: Visible(x, input[i].key.ukey, s) ==>
            (x in Outcome(input, v, level, smallestSnapshot) + rest <==> x in rest)
    ensures forall x :: x in rest && Visible(x, input[i].key.ukey, s) ==> x.key.seqno < input[i].key.seqno
  {
    var e, k := input[i], input[i].key.ukey;
    var B := (set x | x in input) + rest;
    KeptMembers(input, |input|, v, level, smallestSnapshot);
    forall x | x in Outcome(input, v, level, smallestSnapshot) ensures !Visible(x, k, s) {
      var j :| 0 <= j < |input| && input[j] == x && !Dropped(input, j, v, level, smallestSnapshot);
      assert x in B;
      if j < i {
        assert Before(input[j].key, input[i].key);
        assert x.key.ukey == k ==> x.key.seqno >= e.key.seqno;
        assert x.key.ukey == k && x.key.seqno == e.key.seqno ==> x == e;
      } else if j > i && x.key.ukey == k {
        OlderIsHidden(input, i, j, smallestSnapshot);
      }
    }
    forall x | x in rest && Visible(x, k, s) ensures x.key.seqno < e.key.seqno {
      assert x in B && e in B;
    }
  }

  /** Reads at snapshots the compaction respects survive it exactly when no dropped deletion uncovers a value. */
  lemma CompactionKeepsReadsIff(input: seq<Entry>, rest: set<Entry>, v: Version, level: nat, smallestSnapshot: nat)
    requires Sorted(input) && (forall e :: e in input ==> e !in rest)
    requires UniqueVersions((set x | x in input) + rest)
    ensures (forall k, s :: s >= smallestSnapshot ==>
               ReadAt(Outcome(input, v, level, smallestSnapshot) + rest, k, s) ==
                 ReadAt((set x | x in input) + rest, k, s))
       <==> !Exposes(input, rest, v, level, smallestSnapshot)
  {
    if Exposes(input, rest, v, level, smallestSnapshot) {
      ExposedReadDiffers(input, rest, v, level, smallestSnapshot);
    } else {
      forall k, s | s >= smallestSnapshot
        ensures ReadAt(Outcome(input, v, level, smallestSnapshot) + rest, k, s) ==
                ReadAt((set x | x in input) + rest, k, s)
      {
        UnexposedReadAgrees(input, rest, v, level, smallestSnapshot, k, s);
      }
    }
  }

  lemma ExposedReadDiffers(input: seq<Entry>, rest: set<Entry>, v: Version, level: nat, smallestSnapshot: nat)
    requires Sorted(input) && (forall e :: e in input ==> e !in rest)
    requires UniqueVersions((set x | x in input) + rest)
    requires Exposes(input, rest, v, level, smallestSnapshot)
    ensures exists k :: ReadAt(Outcome(input, v, level, smallestSnapshot) + rest, k, smallestSnapshot)
                     != ReadAt((set x | x in input) + rest, k, smallestSnapshot)
  {
    var B, A := (set x | x in input) + rest, Outcome(input, v, level, smallestSnapshot) + rest;
    var e, w :| && e in input && Obsolete(e, v, level, smallestSnapshot)
                && IsNewest(B, e.key.ukey, smallestSnapshot, e)
                && IsNewest(rest, e.key.ukey, smallestSnapshot, w) && w.key.kind.Value?;
    var i :| 0 <= i < |input| && input[i] == e;
    ReadUncovered(input, rest, v, level, smallestSnapshot, smallestSnapshot, i);
    KeptMembers(input, |input|, v, level, smallestSnapshot);
    assert A <= B;
    assert IsNewest(A, e.key.ukey, smallestSnapshot, w);
    ReadIs(A, e.key.ukey, smallestSnapshot, w);
    ReadIs(B, e.key.ukey, smallestSnapshot, e);
  }

  /** A dropped entry that is newest at some snapshot was obsolete. */
  lemma DroppedIsObsolete(input: seq<Entry>, rest: set<Entry>, v: Version, level: nat, smallestSnapshot: nat,
      k: UserKey, s: nat, e: Entry) returns (i: nat)
    requires Sorted(input) && s >= smallestSnapshot && UniqueVersions((set x | x in input) + rest)
    requires IsNewest((set x | x in input) + rest, k, s, e) && e !in Outcome(input, v, level, smallestSnapshot) + rest
    ensures i < |input| && input[i] == e && Obsolete(input[i], v, level, smallestSnapshot)
    ensures Outcome(input, v, level, smallestSnapshot) <= (set x | x in input)
  {
    hide Sorted, UniqueVersions, Obsolete, Hidden;
    KeptMembers(input, |input|, v, level, smallestSnapshot);
    i :| 0 <= i < |input| && input[i] == e;
    if Hidden(input, i, smallestSnapshot) {
      HiddenIsNotNewest(input, i, (set x | x in input) + rest, smallestSnapshot, s);
    }
  }

  lemma SubsetUnique(A: set<Entry>, B: set<Entry>)
    requires A <= B && UniqueVersions(B)
    ensures UniqueVersions(A)
  {
  }

  /** The newest entry of `k` was dropped, and what remains below it is no value. */
  lemma UncoveredReadAgrees(input: seq<Entry>, rest: set<Entry>, v: Version, level: nat, smallestSnapshot: nat,
      k: UserKey, s: nat, e: Entry)
    requires Sorted(input) && (forall x :: x in input ==> x !in rest)
    requires UniqueVersions((set x | x in input) + rest)
    requires !Exposes(input, rest, v, level, smallestSnapshot) && s >= smallestSnapshot
    requires IsNewest((set x | x in input) + rest, k, s, e) && e !in Outcome(input, v, level, smallestSnapshot) + rest
    ensures ReadAt(Outcome(input, v, level, smallestSnapshot) + rest, k, s) == ReadAt((set x | x in input) + rest, k, s)
  {
    hide Sorted, UniqueVersions, ReadAt;
    var B, A := (set x | x in input) + rest, Outcome(input, v, level, smallestSnapshot) + rest;
    var i := DroppedIsObsolete(input, rest, v, level, smallestSnapshot, k, s, e);
    ReadUncovered(input, rest, v, level, smallestSnapshot, s, i);
    SubsetUnique(A, B);
    ReadIs(B, k, s, e);
    if x :| x in rest && Visible(x, k, s) {
      SubsetUnique(rest, B);
      var n := NewestExists(rest, k, s, x);
      assert IsNewest(A, k, s, n);
      ReadIs(A, k, s, n);
      assert IsNewest(B, k, smallestSnapshot, e);
      assert IsNewest(rest, k, smallestSnapshot, n);
    } else {
      ReadNothing(A, k, s);
    }
  }

  lemma UnexposedReadAgrees(input: seq<Entry>, rest: set<Entry>, v: Version, level: nat, smallestSnapshot: nat,
      k: UserKey, s: nat)
    requires Sorted(input) && (forall e :: e in input ==> e !in rest)
    requires UniqueVersions((set x | x in input) + rest)
    requires !Exposes(input, rest, v, level, smallestSnapshot) && s >= smallestSnapshot
    ensures ReadAt(Outcome(input, v, level, smallestSnapshot) + rest, k, s) == ReadAt((set x | x in input) + rest, k, s)
  {
    var B, A := (set x | x in input) + rest, Outcome(input, v, level, smallestSnapshot) + rest;
    KeptMembers(input, |input|, v, level, smallestSnapshot);
    assert A <= B;
    if w :| w in B && Visible(w, k, s) {
      var e := NewestExists(B, k, s, w);
      if e in A {
        ReadKept(B, A, k, s, e);
      } else {
        UncoveredReadAgrees(input, rest, v, level, smallestSnapshot, k, s, e);
      }
    } else {
      ReadNothing(B, k, s);
      ReadNothing(A, k, s);
    }
  }
}
