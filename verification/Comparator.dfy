/**
 The order of keys (util/comparator.cc, db/dbformat.cc:50-99): byte strings, and internal keys
 that end in a tag of sequence number and type; and the short keys put between two others.
 */
module Comparator {
  import opened Words

  type Key = seq<byte>

  /** Bytewise: the first difference decides, and a prefix comes first. */
  predicate Less(a: Key, b: Key) {
    b != [] && (a == [] || a[0] < b[0] || (a[0] == b[0] && Less(a[1..], b[1..])))
  }

  lemma {:induction false} LessIsTotal(a: Key, b: Key)
    ensures Less(a, b) || a == b || Less(b, a)
    ensures !(Less(a, b) && Less(b, a)) && (a == b ==> !Less(a, b))
  {
    if a != [] && b != [] && a[0] == b[0] {
      LessIsTotal(a[1..], b[1..]);
      assert a == [a[0]] + a[1..] && b == [b[0]] + b[1..];
    }
  }

  lemma {:induction false} LessIsTransitive(a: Key, b: Key, c: Key)
    requires Less(a, b) && Less(b, c)
    ensures Less(a, c)
  {
    if a != [] && a[0] == b[0] == c[0] {
      LessIsTransitive(a[1..], b[1..], c[1..]);
    }
  }

  /** The first difference of two strings decides. */
  lemma {:induction false} LessAtDifference(a: Key, b: Key, n: nat)
    requires n < |a| && n < |b| && a[..n] == b[..n] && a[n] < b[n]
    ensures Less(a, b)
    decreases n
  {
    if n > 0 {
      assert a[..n][0] == b[..n][0] && a[1..][..n - 1] == a[..n][1..] == b[..n][1..] == b[1..][..n - 1];
      LessAtDifference(a[1..], b[1..], n - 1);
    }
  }

  /** The number of strings of a set that come before `k`. */
  ghost function RankIn(all: set<Key>, k: Key): nat {
    |set s | s in all && Less(s, k)|
  }

  /** Ranks reproduce the order of the strings of a finite set, so integers may stand for them. */
  lemma RanksReproduceOrder(all: set<Key>, a: Key, b: Key)
    requires a in all && b in all
    ensures RankIn(all, a) < RankIn(all, b) <==> Less(a, b)
    ensures RankIn(all, a) == RankIn(all, b) <==> a == b
  {
    LessIsTotal(a, b);
    if Less(a, b) {
      RankGrows(all, a, b);
    } else if Less(b, a) {
      RankGrows(all, b, a);
    }
  }

  lemma RankGrows(all: set<Key>, a: Key, b: Key)
    requires a in all && Less(a, b)
    ensures RankIn(all, a) < RankIn(all, b)
  {
    var below, upTo := set s | s in all && Less(s, a), set s | s in all && Less(s, b);
    forall s | s in below ensures s in upTo {
      LessIsTransitive(s, a, b);
    }
    LessIsTotal(a, a);
    assert a in upTo && a !in below;
    SmallerSet(below, upTo, a);
  }

  lemma SmallerSet(s: set<Key>, t: set<Key>, k: Key)
    requires s <= t && k in t && k !in s
    ensures |s| < |t|
  {
    assert t == s + (t - s) && k in t - s;
  }

  // ---- Keys as numbers

  /**
   The order of internal keys as an order of numbers between 0 and 1: user keys are digits, and the
   tag counts down.
   */
  function RankOf(user: Key, tag: nat): (r: real)
    requires tag < 0x1_0000_0000_0000_0000
    ensures 0.0 < r < 1.0
    ensures user == [] <==> r < 1.0 / 258.0
  {
    if user == [] then (0x1_0000_0000_0000_0000 - tag) as real / 0x1_0000_0000_0000_0001 as real / 258.0
    else ((user[0] as int + 1) as real + RankOf(user[1..], tag)) / 258.0
  }

  lemma {:induction false} RankIsOrder(a: Key, ta: nat, b: Key, tb: nat)
    requires ta < 0x1_0000_0000_0000_0000 && tb < 0x1_0000_0000_0000_0000
    ensures RankOf(a, ta) < RankOf(b, tb) <==> Less(a, b) || (a == b && ta > tb)
    ensures RankOf(a, ta) == RankOf(b, tb) <==> a == b && ta == tb
  {
    if a != [] && b != [] {
      RankIsOrder(a[1..], ta, b[1..], tb);
      if a[0] == b[0] {
        assert a == [a[0]] + a[1..] && b == [b[0]] + b[1..];
      }
    }
  }

  // ---- Short keys

  /** The strings first differ at `d`, and there is a byte in between there. */
  predicate HasGap(start: Key, limit: Key, d: nat) {
    d < |start| && d < |limit| && start[..d] == limit[..d] && limit[d] as int > start[d] as int + 1
  }

  /** No string that is not longer than the common part lies in between. */
  lemma {:induction false} ShorterIsOutside(start: Key, limit: Key, d: nat, t: Key)
    requires d < |start| && d <= |limit| && start[..d] == limit[..d] && |t| <= d
    ensures Less(t, start) || !Less(t, limit)
    decreases d
  {
    if t != [] && t[0] == start[0] {
      assert start[..d][0] == limit[..d][0];
      assert start[1..][..d - 1] == start[..d][1..] == limit[..d][1..] == limit[1..][..d - 1];
      ShorterIsOutside(start[1..], limit[1..], d - 1, t[1..]);
    } else if t != [] {
      assert start[..d][0] == limit[..d][0];
    }
  }

  lemma SameBefore(start: Key, limit: Key, d: nat, e: nat)
    requires e < d <= |start| && d <= |limit| && start[..d] == limit[..d]
    ensures start[e] == limit[e]
  {
    assert start[e] == start[..d][e] == limit[..d][e];
  }

  /** A gap can only be where the strings first differ. */
  lemma OnlyGap(start: Key, limit: Key, d: nat)
    requires d <= |start| && d <= |limit| && start[..d] == limit[..d]
    requires d < |start| && d < |limit| ==> start[d] != limit[d]
    ensures forall e: nat :: HasGap(start, limit, e) ==> e == d
  {
    forall e: nat | HasGap(start, limit, e)
      ensures e == d
    {
      if e < d {
        SameBefore(start, limit, d, e);
      } else if d < e {
        SameBefore(start, limit, e, d);
      }
    }
  }

  /**
   FindShortestSeparator: `start` itself, or where the strings differ by more than one in a byte
   a string before `limit` of the least length there is.
   */
  method FindShortestSeparator(start: Key, limit: Key) returns (r: Key)
    ensures |r| <= |start|
    ensures Less(start, limit) ==> !Less(r, start) && Less(r, limit)
    ensures r != start ==> Less(start, r) && Less(r, limit)
    ensures r != start <==> exists d: nat :: HasGap(start, limit, d)
    ensures forall d: nat :: HasGap(start, limit, d) ==> |r| == d + 1
    ensures r != start ==> forall t :: |t| < |r| ==> Less(t, start) || !Less(t, limit)
  {
    var minLength, diffIndex := if |start| < |limit| then |start| else |limit|, 0;
    while diffIndex < minLength && start[diffIndex] == limit[diffIndex]
      invariant diffIndex <= minLength && start[..diffIndex] == limit[..diffIndex]
    {
      diffIndex := diffIndex + 1;
    }
    LessIsTotal(start, start);
    OnlyGap(start, limit, diffIndex);
    r := start;
    if diffIndex < minLength {
      var diffByte := start[diffIndex];
      if diffByte < 0xff && diffByte + 1 < limit[diffIndex] {
        r := start[..diffIndex] + [diffByte + 1];
        LessAtDifference(start, r, diffIndex);
        LessAtDifference(r, limit, diffIndex);
        LessIsTotal(start, r);
        assert HasGap(start, limit, diffIndex);
        forall t: Key | |t| < |r|
          ensures Less(t, start) || !Less(t, limit)
        {
          ShorterIsOutside(start, limit, diffIndex, t);
        }
      }
    }
  }

  /** A byte other than 0xff, which can be counted up. */
  predicate HasRoom(key: Key, i: nat) {
    i < |key| && key[i] != 0xff && forall j :: 0 <= j < i ==> key[j] == 0xff
  }

  /** Strings that are not longer than a run of 0xff at the front come before. */
  lemma {:induction false} ShorterIsBefore(key: Key, i: nat, t: Key)
    requires i < |key| && (forall j :: 0 <= j < i ==> key[j] == 0xff) && |t| <= i
    ensures Less(t, key)
    decreases i
  {
    if t != [] && t[0] == key[0] {
      ShorterIsBefore(key[1..], i - 1, t[1..]);
    }
  }

  /** FindShortSuccessor: a string after `key` of the least length there is, or `key` if it is all 0xff. */
  method FindShortSuccessor(key: Key) returns (r: Key)
    ensures |r| <= |key| && !Less(r, key)
    ensures r != key ==> Less(key, r)
    ensures r == key <==> forall i: nat :: !HasRoom(key, i)
    ensures forall i: nat :: HasRoom(key, i) ==> |r| == i + 1
    ensures forall t :: |t| < |r| ==> Less(t, key)
  {
    LessIsTotal(key, key);
    for i := 0 to |key|
      invariant forall j :: 0 <= j < i ==> key[j] == 0xff
    {
      if key[i] != 0xff {
        r := key[..i] + [key[i] + 1];
        LessAtDifference(key, r, i);
        LessIsTotal(key, r);
        assert HasRoom(key, i);
        forall t: Key | |t| < |r|
          ensures Less(t, key)
        {
          ShorterIsBefore(key, i, t);
        }
        return;
      }
    }
    r := key;
    forall t: Key | |t| < |r|
      ensures Less(t, key)
    {
      ShorterIsBefore(key, |key| - 1, t);
    }
  }

  // ---- Internal keys

  const MAX_TAG: nat := 0xffff_ffff_ffff_ff01  // kMaxSequenceNumber and kValueTypeForSeek

  /** A user key, and the sequence number and type packed into a tag. */
  datatype InternalKey = InternalKey(user: Key, tag: nat)

  /** By user key, then by decreasing tag. */
  predicate InternalLess(a: InternalKey, b: InternalKey) {
    Less(a.user, b.user) || (a.user == b.user && a.tag > b.tag)
  }

  lemma InternalLessIsTotal(a: InternalKey, b: InternalKey)
    ensures InternalLess(a, b) || a == b || InternalLess(b, a)
    ensures !(InternalLess(a, b) && InternalLess(b, a)) && !InternalLess(a, a)
  {
    LessIsTotal(a.user, b.user);
    LessIsTotal(a.user, a.user);
  }

  /** Between two internal keys: `start` itself, or a shorter user key that lies strictly between theirs. */
  method FindInternalSeparator(start: InternalKey, limit: InternalKey) returns (r: InternalKey)
    requires InternalLess(start, limit)
    ensures !InternalLess(r, start) && InternalLess(r, limit)
    ensures r == start || (r.tag == MAX_TAG && |r.user| < |start.user| && Less(start.user, r.user)
            && Less(r.user, limit.user))
    ensures r == start <==> forall d: nat :: HasGap(start.user, limit.user, d) ==> |start.user| == d + 1
  {
    InternalLessIsTotal(start, start);
    r := start;
    var tmp := FindShortestSeparator(start.user, limit.user);
    LessIsTotal(start.user, tmp);
    if |tmp| < |start.user| && Less(start.user, tmp) {
      r := InternalKey(tmp, MAX_TAG);
      InternalLessIsTotal(start, r);
    }
  }

  method FindInternalSuccessor(key: InternalKey) returns (r: InternalKey)
    ensures !InternalLess(r, key)
    ensures r == key || (r.tag == MAX_TAG && |r.user| < |key.user| && Less(key.user, r.user))
    ensures r == key <==> forall i: nat :: HasRoom(key.user, i) ==> |key.user| == i + 1
  {
    InternalLessIsTotal(key, key);
    r := key;
    var tmp := FindShortSuccessor(key.user);
    if |tmp| < |key.user| && Less(key.user, tmp) {
      r := InternalKey(tmp, MAX_TAG);
      InternalLessIsTotal(key, r);
    }
  }
}
