/**
 DBIter (db/db_iter.cc): the iterator a client sees. It walks the versions of every user
 key and shows one entry per key: the newest at or below its sequence number, unless
 that is a deletion. It keeps different state in its two directions.
 */
module DbIter {
  import opened DbFormat
  import opened Options
  import opened Iterators

  /** Entry `i` is what the iterator shows for its user key. */
  ghost predicate Shown(es: seq<Entry>, s: nat, i: int) {
    && 0 <= i < |es| && es[i].key.seqno <= s && es[i].key.kind.Value?
    && forall j :: 0 <= j < i && es[j].key.ukey == es[i].key.ukey ==> es[j].key.seqno > s
  }

  /** The entries shown among the first `n`, in order. */
  ghost function ShownUpTo(es: seq<Entry>, s: nat, n: nat): seq<Entry>
    requires n <= |es|
  {
    if n == 0 then []
    else ShownUpTo(es, s, n - 1) + if Shown(es, s, n - 1) then [es[n - 1]] else []
  }

  /** The sequence the iterator is a cursor over. */
  ghost function ShownList(es: seq<Entry>, s: nat): seq<Entry> {
    ShownUpTo(es, s, |es|)
  }

  lemma {:induction false} ShownUpToMembers(es: seq<Entry>, s: nat, n: nat)
    requires n <= |es|
    ensures forall e :: e in ShownUpTo(es, s, n) <==> exists i :: 0 <= i < n && es[i] == e && Shown(es, s, i)
  {
    if n > 0 {
      ShownUpToMembers(es, s, n - 1);
    }
  }

  lemma {:induction false} ShownUpToAscends(es: seq<Entry>, s: nat, n: nat)
    requires n <= |es| && Sorted(es)
    ensures forall p, q :: 0 <= p < q < |ShownUpTo(es, s, n)| ==>
            ShownUpTo(es, s, n)[p].key.ukey < ShownUpTo(es, s, n)[q].key.ukey
  {
    if n > 0 {
      ShownUpToAscends(es, s, n - 1);
      ShownUpToMembers(es, s, n - 1);
      var L := ShownUpTo(es, s, n - 1);
      forall p | 0 <= p < |L| && Shown(es, s, n - 1) ensures L[p].key.ukey < es[n - 1].key.ukey {
        assert L[p] in L;
        var i :| 0 <= i < n - 1 && es[i] == L[p] && Shown(es, s, i);
        assert Before(es[i].key, es[n - 1].key);
      }
    }
  }

  /** The list has exactly one entry for each user key that reads as a value, with that value, in key order. */
  lemma ShownIsWhatReads(es: seq<Entry>, s: nat, k: UserKey, v: Val)
    requires Sorted(es) && UniqueVersions((set e | e in es))
    ensures ReadAt((set e | e in es), k, s) == Some(v) <==> exists e ::
            e in ShownList(es, s) && e.key.ukey == k && e.value == v
    ensures forall p, q :: 0 <= p < q < |ShownList(es, s)| ==>
            ShownList(es, s)[p].key.ukey < ShownList(es, s)[q].key.ukey
  {
    var S, L := (set e | e in es), ShownList(es, s);
    ShownUpToMembers(es, s, |es|);
    ShownUpToAscends(es, s, |es|);
    forall e | e in L ensures ReadAt(S, e.key.ukey, s) == Some(e.value) {
      var i :| 0 <= i < |es| && es[i] == e && Shown(es, s, i);
      ShownIsNewest(es, s, i);
      ReadIs(S, e.key.ukey, s, e);
    }
    if ReadAt(S, k, s) == Some(v) {
      if w :| w in S && Visible(w, k, s) {
        var e := NewestExists(S, k, s, w);
        ReadIs(S, k, s, e);
        NewestIsShown(es, s, k, e);
        assert e in L;
      } else {
        ReadNothing(S, k, s);
      }
    }
  }

  lemma ShownIsNewest(es: seq<Entry>, s: nat, i: nat)
    requires Sorted(es) && i < |es| && Shown(es, s, i)
    ensures IsNewest((set e | e in es), es[i].key.ukey, s, es[i])
  {
    forall f | f in es && Visible(f, es[i].key.ukey, s) ensures f.key.seqno <= es[i].key.seqno {
      var j :| 0 <= j < |es| && es[j] == f;
      assert j > i ==> Before(es[i].key, es[j].key);
    }
  }

  lemma NewestIsShown(es: seq<Entry>, s: nat, k: UserKey, e: Entry)
    requires Sorted(es) && UniqueVersions((set x | x in es)) && IsNewest((set x | x in es), k, s, e)
             && e.key.kind.Value?
    ensures exists i :: 0 <= i < |es| && es[i] == e && Shown(es, s, i)
  {
    var i :| 0 <= i < |es| && es[i] == e;
    forall j | 0 <= j < i && es[j].key.ukey == k ensures es[j].key.seqno > s {
      assert Before(es[j].key, es[i].key);
      assert es[j] in (set x | x in es) && (Visible(es[j], k, s) <==> es[j].key.seqno <= s);
    }
  }

  lemma {:induction false} NothingShownBetween(es: seq<Entry>, s: nat, a: nat, b: nat)
    requires a <= b <= |es| && forall j :: a <= j < b ==> !Shown(es, s, j)
    ensures ShownUpTo(es, s, b) == ShownUpTo(es, s, a)
  {
    if a < b {
      NothingShownBetween(es, s, a, b - 1);
    }
  }

  lemma {:induction false} ShownPrefix(es: seq<Entry>, s: nat, a: nat, b: nat)
    requires a <= b <= |es|
    ensures ShownUpTo(es, s, a) <= ShownUpTo(es, s, b)
  {
    if a < b {
      ShownPrefix(es, s, a, b - 1);
    }
  }

  /** A shown entry stands in the list behind all those shown before it. */
  lemma ShownStandsAt(es: seq<Entry>, s: nat, i: nat)
    requires i < |es| && Shown(es, s, i)
    ensures |ShownUpTo(es, s, i)| < |ShownList(es, s)| && ShownList(es, s)[|ShownUpTo(es, s, i)|] == es[i]
  {
    ShownPrefix(es, s, i + 1, |es|);
  }

  datatype Direction = Forward | Reverse

  class DBIter {
    const iter: Cursor
    const sequence: nat
    var direction: Direction
    var valid: bool
    var savedKey: UserKey   // the current key when direction == Reverse
    var savedValue: Val     // the current value when direction == Reverse
    ghost var current: nat  // index of the entry shown

    constructor (iter: Cursor, s: nat)
      requires iter.Ok()
      ensures Ok() && this.iter == iter && sequence == s && !valid
    {
      this.iter, sequence, direction, valid := iter, s, Forward, false;
      savedKey, savedValue, current := 0, "", 0;
    }

    ghost predicate IsVisible(i: int) {
      0 <= i < |iter.entries| && iter.entries[i].key.seqno <= sequence
    }

    ghost predicate IsShown(i: int) {
      Shown(iter.entries, sequence, i)
    }

    ghost function List(): seq<Entry> {
      ShownList(iter.entries, sequence)
    }

    /** No visible entry strictly between `lo` and `hi`. */
    ghost predicate NoneBetween(lo: int, hi: int) {
      forall j :: lo < j < hi ==> !IsVisible(j)
    }

    /** How the saved state and the inner position encode `current` in each direction. */
    ghost predicate Ok()
      reads this, iter
    {
      && iter.Ok()
      && (valid ==>
            && IsShown(current)
            && (direction.Forward? ==> iter.pos == current)
            && (direction.Reverse? ==>
               savedKey == iter.entries[current].key.ukey && savedValue == iter.entries[current].value
               && JustBefore(current)))
    }

    /**
     The inner iterator stands on the last visible entry before `i`, of a smaller key, or nowhere if
     there is none.
     */
    ghost predicate JustBefore(i: nat)
      reads iter
    {
      if iter.Valid() then iter.pos < i < |iter.entries| && iter.entries[iter.pos].key.ukey < iter.entries[i].key.ukey
          && NoneBetween(iter.pos, i)
      else NoneBetween(-1, i)
    }

    /** Position in the list shown; its length when not valid. */
    ghost function Position(): nat
      requires Ok()
      reads this, iter
    {
      if valid then |ShownUpTo(iter.entries, sequence, current)| else |List()|
    }

    function Key(): (k: UserKey)
      requires Ok() && valid
      reads this, iter
      ensures Position() < |List()| && k == List()[Position()].key.ukey
    {
      ShownStandsAt(iter.entries, sequence, current);
      if direction.Forward? then iter.Entry().key.ukey else savedKey
    }

    function Value(): (v: Val)
      requires Ok() && valid
      reads this, iter
      ensures Position() < |List()| && v == List()[Position()].value
    {
      ShownStandsAt(iter.entries, sequence, current);
      if direction.Forward? then iter.Entry().value else savedValue
    }

    /** Nothing shown in `[from, to)` among keys beyond `above`. */
    ghost predicate NoneShown(from: int, to: int, above: Option<UserKey>) {
      forall j :: from <= j < to && IsShown(j) ==> above.Some? && iter.entries[j].key.ukey <= above.value
    }

    lemma KeysAscend(p: nat)
      requires iter.Ok() && p < |iter.entries|
      ensures forall x :: p <= x < |iter.entries| ==> iter.entries[x].key.ukey >= iter.entries[p].key.ukey
      ensures forall x :: 0 <= x <= p ==> iter.entries[x].key.ukey <= iter.entries[p].key.ukey
    {
      assert forall x :: p < x < |iter.entries| ==> Before(iter.entries[p].key, iter.entries[x].key);
      assert forall x :: 0 <= x < p ==> Before(iter.entries[x].key, iter.entries[p].key);
    }

    /**
     FindNextUserEntry. Everything visible before the start belongs to smaller keys or is
     being skipped.
     */
    method FindNextUserEntry(skip0: Option<UserKey>)
      requires iter.Ok() && iter.Valid() && direction.Forward?
      requires forall x :: 0 <= x < iter.pos && IsVisible(x) ==>
                 iter.entries[x].key.ukey < iter.entries[iter.pos].key.ukey
                   || (skip0.Some? && iter.entries[x].key.ukey <= skip0.value)
      requires skip0.Some? ==> forall x :: iter.pos <= x && IsVisible(x) ==> iter.entries[x].key.ukey >= skip0.value
      modifies this, iter
      ensures iter.Ok() && direction.Forward?
      ensures valid ==> current == iter.pos && old(iter.pos) <= current && IsShown(current)
      ensures valid && skip0.Some? ==> iter.entries[current].key.ukey > skip0.value
      ensures NoneShown(old(iter.pos), if valid then current else |iter.entries|, skip0)
    {
      var skipping, skip := skip0.Some?, if skip0.Some? then skip0.value else 0;
      ghost var start, es, hider := iter.pos, iter.entries, -1;
      while iter.Valid()
        invariant iter.Ok() && direction.Forward? && start <= iter.pos
        invariant NoneShown(start, iter.pos, skip0)
        invariant forall x :: 0 <= x < iter.pos && IsVisible(x) ==>
                    (x < start && es[x].key.ukey < es[start].key.ukey) || (skipping && es[x].key.ukey <= skip)
        invariant skipping ==> forall x :: iter.pos <= x && IsVisible(x) ==> es[x].key.ukey >= skip
        invariant skip0.Some? ==> skipping && skip >= skip0.value
        invariant skipping && skip0 != Some(skip) ==>
                  start <= hider < iter.pos && IsVisible(hider) && es[hider].key.ukey == skip
        decreases |es| - iter.pos
      {
        var e := iter.Entry();
        ghost var p := iter.pos;
        KeysAscend(p);
        if e.key.seqno <= sequence {
          match e.key.kind {
            case Deletion =>
              skip, skipping, hider := e.key.ukey, true, p;
            case Value =>
              if skipping && e.key.ukey <= skip {
                assert skip0 != Some(skip) ==> !IsShown(p);
              } else {
                valid, current := true, iter.pos;
                return;
              }
          }
        }
        iter.Next();
      }
      valid := false;
    }

    method SeekToFirst()
      requires Ok()
      modifies this, iter
      ensures Ok() && Position() == 0
    {
      direction := Forward;
      iter.SeekToFirst();
      if iter.Valid() {
        FindNextUserEntry(None);
        NothingShownBetween(iter.entries, sequence, 0, if valid then current else |iter.entries|);
      } else {
        valid := false;
      }
    }

    /** Stands on the first entry shown whose user key is at or after `target`. */
    method Seek(target: UserKey)
      requires Ok()
      modifies this, iter
      ensures Ok()
      ensures forall p :: 0 <= p < |List()| ==> (p < Position() <==> List()[p].key.ukey < target)
    {
      direction := Forward;
      iter.Seek(SeekKey(target, sequence));
      ghost var from := iter.pos;
      if iter.Valid() {
        FindNextUserEntry(None);
      } else {
        valid := false;
      }
      SeekSplitsList(from, target);
    }

    lemma SeekSplitsList(from: nat, target: UserKey)
      requires Ok() && direction.Forward? && from <= |iter.entries|
      requires forall i :: 0 <= i < from ==> Before(iter.entries[i].key, SeekKey(target, sequence))
      requires forall i :: from <= i < |iter.entries| ==> !Before(iter.entries[i].key, SeekKey(target, sequence))
      requires valid ==> from <= current
      requires NoneShown(from, if valid then current else |iter.entries|, None)
      ensures forall p :: 0 <= p < |List()| ==> (p < Position() <==> List()[p].key.ukey < target)
    {
      var es, s, at := iter.entries, sequence, if valid then current else |iter.entries|;
      NothingShownBetween(es, s, from, at);
      ShownPrefix(es, s, at, |es|);
      ShownUpToMembers(es, s, at);
      ShownUpToAscends(es, s, |es|);
      forall p | 0 <= p < |List()| ensures p < Position() <==> List()[p].key.ukey < target {
        if p < Position() {
          assert List()[p] == ShownUpTo(es, s, from)[p] && List()[p] in ShownUpTo(es, s, from);
          ShownUpToMembers(es, s, from);
        } else {
          ShownStandsAt(es, s, current);
          assert p > Position() ==> List()[Position()].key.ukey < List()[p].key.ukey;
        }
      }
    }

    method Next()
      requires Ok() && valid
      modifies this, iter
      ensures Ok() && Position() == old(Position()) + 1
    {
      ghost var was, es := current, iter.entries;
      if direction.Reverse? {
        direction := Forward;
        if !iter.Valid() {
          iter.SeekToFirst();
        } else {
          iter.Next();
        }
        if !iter.Valid() {
          assert false;  // the entries of the saved key lie ahead
        }
      } else {
        savedKey := iter.Entry().key.ukey;
      }
      ghost var from := iter.pos;
      assert from <= was;
      SkipsKey(was, from);
      FindNextUserEntry(Some(savedKey));
      ghost var at := if valid then current else |es|;
      LaterKeysAreShownLater(was, from, at);
      NothingShownBetween(es, sequence, was + 1, at);
    }

    lemma SkipsKey(was: nat, from: nat)
      requires iter.Ok() && IsShown(was) && from <= was && NoneBetween(from - 1, was)
      ensures forall x :: 0 <= x < from && IsVisible(x) ==> iter.entries[x].key.ukey <= iter.entries[was].key.ukey
      ensures forall x :: from <= x && IsVisible(x) ==> iter.entries[x].key.ukey >= iter.entries[was].key.ukey
    {
      assert forall x :: 0 <= x < was ==> Before(iter.entries[x].key, iter.entries[was].key);
      assert forall x :: was < x < |iter.entries| ==> Before(iter.entries[was].key, iter.entries[x].key);
    }

    lemma LaterKeysAreShownLater(was: nat, from: nat, at: nat)
      requires iter.Ok() && IsShown(was) && from <= was && NoneShown(from, at, Some(iter.entries[was].key.ukey))
      requires at <= |iter.entries| && (at < |iter.entries| ==> iter.entries[at].key.ukey > iter.entries[was].key.ukey)
      ensures was < at && forall j :: was + 1 <= j < at ==> !IsShown(j)
    {
      var es := iter.entries;
      assert forall x :: 0 <= x < was ==> Before(es[x].key, es[was].key);
      assert forall x :: was < x < |es| ==> Before(es[was].key, es[x].key);
    }

    ghost predicate NothingShown(from: int, to: int) {
      forall j :: from <= j < to ==> !Shown(iter.entries, sequence, j)
    }

    /** The inner position from which a backward scan meets every visible entry below `bound`. */
    ghost predicate ScansBelow(bound: nat)
      reads iter
    {
      if iter.Valid() then iter.pos < bound && NoneBetween(iter.pos, bound) else NoneBetween(-1, bound)
    }

    ghost function Scan(): int
      reads iter
    {
      if iter.Valid() then iter.pos else -1
    }

    /** FindPrevUserEntry: the last entry shown below `bound`; going backward, a key's newest version comes last. */
    method FindPrevUserEntry(ghost bound: nat)
      requires iter.Ok() && direction.Reverse? && bound <= |iter.entries| && ScansBelow(bound)
      modifies this, iter
      ensures iter.Ok()
      ensures valid ==> direction.Reverse? && IsShown(current) && current < bound
                        && savedKey == iter.entries[current].key.ukey && savedValue == iter.entries[current].value
                           && JustBefore(current)
      ensures !valid ==> direction.Forward?
      ensures NothingShown(if valid then current + 1 else 0, bound)
    {
      var kind := Kind.Deletion;
      ghost var cand, es := bound, iter.entries;
      assert forall j :: Shown(es, sequence, j) ==> IsVisible(j);
      while iter.Valid()
        invariant iter.Ok() && direction.Reverse? && Scan() < bound
        invariant kind.Value? ==>
                    && Scan() < cand < bound && IsVisible(cand) && es[cand].key.kind.Value?
                    && NoneBetween(Scan(), cand)
        invariant kind.Value? ==> savedKey == es[cand].key.ukey && savedValue == es[cand].value
        invariant NothingShown(if kind.Value? then cand + 1 else Scan() + 1, bound)
        decreases Scan()
      {
        var e := iter.Entry();
        assert kind.Value? ==> Before(es[iter.pos].key, es[cand].key);
        if e.key.seqno <= sequence {
          if !kind.Deletion? && e.key.ukey < savedKey {
            CandidateIsShown(iter.pos, cand);
            valid, current := true, cand;
            return;
          }
          kind := e.key.kind;
          if kind.Value? {
            savedKey, savedValue, cand := e.key.ukey, e.value, iter.pos;
          }
        }
        iter.Prev();
      }
      if kind.Deletion? {
        valid, direction := false, Forward;
      } else {
        CandidateIsShown(-1, cand);
        valid, current := true, cand;
      }
    }

    lemma CandidateIsShown(scan: int, cand: nat)
      requires iter.Ok() && -1 <= scan < cand && IsVisible(cand) && iter.entries[cand].key.kind.Value?
      requires NoneBetween(scan, cand) && (scan >= 0 ==> iter.entries[scan].key.ukey < iter.entries[cand].key.ukey)
      ensures IsShown(cand)
    {
      var es := iter.entries;
      forall j | 0 <= j < cand && es[j].key.ukey == es[cand].key.ukey ensures es[j].key.seqno > sequence {
        assert 0 <= j < scan ==> Before(es[j].key, es[scan].key);
        assert scan < j ==> !IsVisible(j);
      }
    }

    method SeekToLast()
      requires Ok()
      modifies this, iter
      ensures Ok() && Position() == if List() == [] then 0 else |List()| - 1
    {
      direction := Reverse;
      iter.SeekToLast();
      FindPrevUserEntry(|iter.entries|);
      NothingShownBetween(iter.entries, sequence, if valid then current + 1 else 0, |iter.entries|);
    }

    /** Backward from the first entry shown, the iterator is no longer valid. */
    method Prev()
      requires Ok() && valid
      modifies this, iter
      ensures Ok() && Position() == if old(Position()) == 0 then |List()| else old(Position()) - 1
    {
      ghost var was, es := current, iter.entries;
      if direction.Forward? {
        savedKey := iter.Entry().key.ukey;
        while true
          invariant iter.Ok() && iter.Valid() && direction.Forward? && iter.pos <= was
          invariant savedKey == es[was].key.ukey
          invariant forall j :: iter.pos <= j < was ==> es[j].key.ukey == savedKey
          decreases iter.pos
        {
          iter.Prev();
          if !iter.Valid() {
            valid := false;
            NothingShownBetween(es, sequence, 0, was);
            return;
          }
          if iter.Entry().key.ukey < savedKey {
            break;
          }
          assert Before(es[iter.pos].key, es[was].key);
        }
        direction := Reverse;
      }
      FindPrevUserEntry(was);
      NothingShownBetween(es, sequence, if valid then current + 1 else 0, was);
    }
  }
}