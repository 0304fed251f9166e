/**
 MergingIterator (table/merger.cc): n sorted children that share no key, seen as one
 sorted sequence. The children stand at or after the current key going forward and at or
 before it going backward; switching direction repositions all but the current one.
 */
module Merger {
  import opened DbFormat
  import opened Options
  import opened Iterators
  import opened DbIter

  ghost predicate NoCommonKey(a: seq<Entry>, b: seq<Entry>) {
    forall e, e' :: e in a && e' in b ==> e.key != e'.key
  }

  /** `merged` is the sorted union of sorted lists that share no key. */
  ghost predicate IsUnion(lists: seq<seq<Entry>>, merged: seq<Entry>) {
    && (forall i :: 0 <= i < |lists| ==> Sorted(lists[i]))
    && (forall i, j :: 0 <= i < j < |lists| ==> NoCommonKey(lists[i], lists[j]))
    && Sorted(merged)
    && forall e :: e in merged <==> exists i :: 0 <= i < |lists| && e in lists[i]
  }

  /** Where each entry of each list stands in the union, and the way back. */
  datatype Ranks = Ranks(rank: seq<seq<nat>>, owner: seq<nat>, slot: seq<nat>)

  ghost predicate Ranked(lists: seq<seq<Entry>>, merged: seq<Entry>, r: Ranks) {
    && Sorted(merged) && |r.rank| == |lists| && |r.owner| == |r.slot| == |merged|
    && (forall i :: 0 <= i < |lists| ==> |r.rank[i]| == |lists[i]|)
    && (forall i, x {:trigger r.rank[i][x]} :: 0 <= i < |lists| && 0 <= x < |lists[i]| ==>
          && r.rank[i][x] < |merged| && merged[r.rank[i][x]] == lists[i][x]
          && r.owner[r.rank[i][x]] == i && r.slot[r.rank[i][x]] == x)
    && (forall p {:trigger r.owner[p]} :: 0 <= p < |merged| ==>
          r.owner[p] < |lists| && r.slot[p] < |lists[r.owner[p]]| && r.rank[r.owner[p]][r.slot[p]] == p)
    && (forall i, x, y {:trigger r.rank[i][x], r.rank[i][y]} :: 0 <= i < |lists| && 0 <= x < y < |lists[i]| ==>
       r.rank[i][x] < r.rank[i][y])
  }

  ghost function Index(all: seq<Entry>, e: Entry): (p: nat)
    requires e in all
    ensures p < |all| && all[p] == e
  {
    var p :| 0 <= p < |all| && all[p] == e;
    p
  }

  /** Comparing keys of a sorted sequence is comparing indices. */
  lemma IndexOrder(all: seq<Entry>, p: nat, q: nat)
    requires Sorted(all) && p < |all| && q < |all|
    ensures Before(all[p].key, all[q].key) <==> p < q
  {
    assert p < q ==> Before(all[p].key, all[q].key);
    assert q < p ==> Before(all[q].key, all[p].key);
  }

  ghost function Owner(lists: seq<seq<Entry>>, merged: seq<Entry>, p: nat): (o: (nat, nat))
    requires IsUnion(lists, merged) && p < |merged|
    ensures o.0 < |lists| && o.1 < |lists[o.0]| && lists[o.0][o.1] == merged[p]
  {
    assert merged[p] in merged;
    var i: nat :| i < |lists| && merged[p] in lists[i];
    (i, Index(lists[i], merged[p]))
  }

  ghost function Rank(lists: seq<seq<Entry>>, merged: seq<Entry>, i: nat, x: nat): (p: nat)
    requires IsUnion(lists, merged) && i < |lists| && x < |lists[i]|
    ensures p < |merged| && merged[p] == lists[i][x]
  {
    assert lists[i][x] in lists[i];
    Index(merged, lists[i][x])
  }

  /** An entry of the union is found in one list only, at one place. */
  lemma OwnerIsUnique(lists: seq<seq<Entry>>, merged: seq<Entry>, i: nat, x: nat, j: nat, y: nat)
    requires IsUnion(lists, merged) && i < |lists| && x < |lists[i]| && j < |lists| && y < |lists[j]|
    requires lists[i][x] == lists[j][y]
    ensures i == j && x == y
  {
    assert lists[i][x] in lists[i] && lists[j][y] in lists[j];
    assert i < j ==> NoCommonKey(lists[i], lists[j]);
    assert j < i ==> NoCommonKey(lists[j], lists[i]);
    IndexOrder(lists[i], x, y);
    IndexOrder(lists[i], y, x);
  }

  ghost function RanksOf(lists: seq<seq<Entry>>, merged: seq<Entry>): Ranks
    requires IsUnion(lists, merged)
  {
    Ranks(seq(|lists|, (i: nat) requires i < |lists| => seq(|lists[i]|,
      (x: nat) requires x < |lists[i]| => Rank(lists, merged, i, x))),
          seq(|merged|, (p: nat) requires p < |merged| => Owner(lists, merged, p).0),
          seq(|merged|, (p: nat) requires p < |merged| => Owner(lists, merged, p).1))
  }

  lemma UnionIsRanked(lists: seq<seq<Entry>>, merged: seq<Entry>)
    requires IsUnion(lists, merged)
    ensures Ranked(lists, merged, RanksOf(lists, merged))
  {
    var r := RanksOf(lists, merged);
    forall i, x | 0 <= i < |lists| && 0 <= x < |lists[i]|
      ensures r.rank[i][x] < |merged|
              && merged[r.rank[i][x]] == lists[i][x] && r.owner[r.rank[i][x]] == i && r.slot[r.rank[i][x]] == x
    {
      var o := Owner(lists, merged, r.rank[i][x]);
      OwnerIsUnique(lists, merged, i, x, o.0, o.1);
    }
    forall p | 0 <= p < |merged| ensures r.rank[r.owner[p]][r.slot[p]] == p {
      var o := Owner(lists, merged, p);
      IndexOrder(merged, p, Rank(lists, merged, o.0, o.1));
      IndexOrder(merged, Rank(lists, merged, o.0, o.1), p);
    }
    forall i, x, y | 0 <= i < |lists| && 0 <= x < y < |lists[i]| ensures r.rank[i][x] < r.rank[i][y] {
      IndexOrder(merged, r.rank[i][x], r.rank[i][y]);
      IndexOrder(lists[i], x, y);
    }
  }

  lemma FirstAtOrAfter(all: seq<Entry>, target: IKey) returns (p: nat)
    requires Sorted(all)
    ensures p <= |all|
    ensures forall q :: 0 <= q < p ==> Before(all[q].key, target)
    ensures forall q :: p <= q < |all| ==> !Before(all[q].key, target)
  {
    p := 0;
    while p < |all| && Before(all[p].key, target)
      invariant p <= |all|
      invariant forall q :: 0 <= q < p ==> Before(all[q].key, target)
    {
      p := p + 1;
    }
    assert forall q :: p < q < |all| ==> Before(all[p].key, all[q].key);
  }

  lemma SidesOf(all: seq<Entry>, p: nat)
    requires Sorted(all) && p < |all|
    ensures forall q :: 0 <= q < p ==> Before(all[q].key, all[p].key)
    ensures forall q :: p <= q < |all| ==> !Before(all[q].key, all[p].key)
  {
    assert forall q :: p < q < |all| ==> Before(all[p].key, all[q].key);
  }

  class MergingIterator {
    const children: seq<Cursor>
    ghost const lists: seq<seq<Entry>>
    ghost const merged: seq<Entry>
    ghost const ranks: Ranks
    var current: Option<nat>
    var direction: Direction
    ghost var at: nat         // index in merged; |merged| when not valid
    ghost var ps: seq<nat>    // the positions of the children

    /** The children are distinct cursors over the lists, and `merged` is their union. */
    ghost predicate Sources() {
      && |children| == |lists| && Ranked(lists, merged, ranks)
      && (forall i :: 0 <= i < |children| ==> Sorted(lists[i]) && children[i].entries == lists[i])
      && (forall i, j :: 0 <= i < j < |children| ==> children[i] != children[j])
    }

    ghost predicate Watched()
      reads this, children
    {
      && Sources() && |ps| == |children|
      && forall i {:trigger children[i]} {:trigger ps[i]} :: 0 <= i < |children| ==>
         children[i].pos == ps[i] <= |lists[i]|
    }

    constructor (children: seq<Cursor>, ghost lists: seq<seq<Entry>>, ghost merged: seq<Entry>)
      requires |children| == |lists| && IsUnion(lists, merged)
      requires forall i :: 0 <= i < |children| ==>
               children[i].entries == lists[i] && children[i].Ok() && !children[i].Valid()
      requires forall i, j :: 0 <= i < j < |children| ==> children[i] != children[j]
      ensures this.children == children && this.lists == lists && this.merged == merged && Ok() && !Valid()
    {
      this.children, this.lists, this.merged, ranks := children, lists, merged, RanksOf(lists, merged);
      current, direction, at := None, Forward, |merged|;
      ps := seq(|lists|, (i: nat) requires i < |lists| => |lists[i]|);
      UnionIsRanked(lists, merged);
    }

    /** Going forward: position `x` of child `i` is its first entry at or after index `p` of the union. */
    ghost predicate StandsFrom(i: nat, x: nat, p: nat)
      requires Sources() && i < |lists|
    {
      && x <= |lists[i]|
      && (x < |lists[i]| ==> ranks.rank[i][x] >= p)
      && (x > 0 ==> ranks.rank[i][x - 1] < p)
    }

    /** Going backward: position `x` of child `i` is its last entry at or before index `p` of the union, or nowhere. */
    ghost predicate StandsUpTo(i: nat, x: nat, p: int)
      requires Sources() && i < |lists|
    {
      && x <= |lists[i]|
      && (x < |lists[i]| ==> ranks.rank[i][x] <= p)
      && var next := if x < |lists[i]| then x + 1 else 0;
         next < |lists[i]| ==> ranks.rank[i][next] > p
    }

    ghost predicate AllFrom(xs: seq<nat>, p: nat) {
      Sources() && |xs| == |lists| && p <= |merged| && forall i :: 0 <= i < |lists| ==> StandsFrom(i, xs[i], p)
    }

    ghost predicate AllUpTo(xs: seq<nat>, p: int) {
      Sources() && |xs| == |lists| && -1 <= p < |merged| && forall i :: 0 <= i < |lists| ==> StandsUpTo(i, xs[i], p)
    }

    ghost predicate Ok()
      reads this, children
    {
      && Watched()
      && (current.None? ==> at == |merged|)
      && (current.Some? ==>
            && current.value < |children| && ps[current.value] < |lists[current.value]|
            && at == ranks.rank[current.value][ps[current.value]]
            && if direction.Forward? then AllFrom(ps, at) else AllUpTo(ps, at))
    }

    predicate Valid()
      reads this
    {
      current.Some?
    }

    /** Position in the sorted union; its length when not valid. */
    ghost function Position(): nat
      reads this
    {
      at
    }

    function Entry(): (e: Entry)
      requires Ok() && Valid()
      reads this, children
      ensures Position() < |merged| && e == merged[Position()]
    {
      children[current.value].Entry()
    }

    // IteratorWrapper (table/iterator_wrapper.h): moving a child and noting where it stands.

    method ChildSeekToFirst(i: nat)
      requires Watched() && i < |children|
      modifies this`ps, children[i]
      ensures Watched() && ps == old(ps)[i := 0]
    {
      children[i].SeekToFirst();
      ps := ps[i := 0];
    }

    method ChildSeekToLast(i: nat)
      requires Watched() && i < |children|
      modifies this`ps, children[i]
      ensures Watched() && ps == old(ps)[i := if |lists[i]| == 0 then 0 else |lists[i]| - 1]
    {
      children[i].SeekToLast();
      ps := ps[i := if |lists[i]| == 0 then 0 else |lists[i]| - 1];
    }

    method ChildSeek(i: nat, target: IKey)
      requires Watched() && i < |children|
      modifies this`ps, children[i]
      ensures Watched() && ps == old(ps)[i := ps[i]] && Sought(i, ps[i], target)
    {
      children[i].Seek(target);
      ps := ps[i := children[i].pos];
    }

    method ChildNext(i: nat)
      requires Watched() && i < |children| && ps[i] < |lists[i]|
      modifies this`ps, children[i]
      ensures Watched() && ps == old(ps)[i := old(ps[i]) + 1]
    {
      children[i].Next();
      ps := ps[i := ps[i] + 1];
    }

    method ChildPrev(i: nat)
      requires Watched() && i < |children| && ps[i] < |lists[i]|
      modifies this`ps, children[i]
      ensures Watched() && ps == old(ps)[i := if old(ps[i]) == 0 then |lists[i]| else old(ps[i]) - 1]
    {
      children[i].Prev();
      ps := ps[i := if ps[i] == 0 then |lists[i]| else ps[i] - 1];
    }

    /** Position `x` of child `i` is its first entry at or after `target`. */
    ghost predicate Sought(i: nat, x: nat, target: IKey)
      requires Sources() && i < |lists|
    {
      && x <= |lists[i]|
      && (forall y :: 0 <= y < x ==> Before(lists[i][y].key, target))
      && (forall y :: x <= y < |lists[i]| ==> !Before(lists[i][y].key, target))
    }

    /** Seeking in a child agrees with seeking in the union. */
    lemma SoughtStandsFrom(i: nat, x: nat, target: IKey, p: nat)
      requires Sources() && i < |lists| && Sought(i, x, target) && p <= |merged|
      requires forall q :: 0 <= q < p ==> Before(merged[q].key, target)
      requires forall q :: p <= q < |merged| ==> !Before(merged[q].key, target)
      ensures StandsFrom(i, x, p)
    {
      assert x < |lists[i]| ==> merged[ranks.rank[i][x]] == lists[i][x];
      assert x > 0 ==> merged[ranks.rank[i][x - 1]] == lists[i][x - 1];
    }

    /** `c` is the child of [lo, hi) whose head is least (or, with `largest`, greatest). */
    ghost predicate IsExtreme(c: Option<nat>, xs: seq<nat>, lo: nat, hi: nat, largest: bool)
      requires Sources() && hi <= |lists| == |xs|
    {
      match c
      case None => forall j :: lo <= j < hi ==> xs[j] >= |lists[j]|
      case Some(c) =>
        && lo <= c < hi && xs[c] < |lists[c]|
        && forall j :: lo <= j < hi && j != c && xs[j] < |lists[j]| ==>
             if largest then ranks.rank[j][xs[j]] < ranks.rank[c][xs[c]]
                 else ranks.rank[c][xs[c]] < ranks.rank[j][xs[j]]
    }

    /** Comparing two heads is comparing where they stand in the union; they are never equal. */
    lemma CompareHeads(i: nat, x: nat, j: nat, y: nat)
      requires Sources() && i < |lists| && x < |lists[i]| && j < |lists| && y < |lists[j]| && i != j
      ensures Before(lists[i][x].key, lists[j][y].key) <==> ranks.rank[i][x] < ranks.rank[j][y]
      ensures ranks.rank[i][x] != ranks.rank[j][y]
    {
      IndexOrder(merged, ranks.rank[i][x], ranks.rank[j][y]);
    }

    lemma KeysDiffer(i: nat, x: nat, j: nat, y: nat)
      requires Sources() && i < |lists| && x < |lists[i]| && j < |lists| && y < |lists[j]| && i != j
      ensures lists[i][x].key != lists[j][y].key
    {
      CompareHeads(i, x, j, y);
      CompareHeads(j, y, i, x);
    }

    method FindSmallest()
      requires Watched()
      modifies this`current
      ensures IsExtreme(current, ps, 0, |lists|, false)
    {
      current := None;
      for i := 0 to |children|
        invariant IsExtreme(current, ps, 0, i, false)
      {
        if children[i].Valid() {
          if current.None? {
            current := Some(i);
          } else {
            CompareHeads(i, ps[i], current.value, ps[current.value]);
            if Before(children[i].Entry().key, children[current.value].Entry().key) {
              current := Some(i);
            }
          }
        }
      }
    }

    method FindLargest()
      requires Watched()
      modifies this`current
      ensures IsExtreme(current, ps, 0, |lists|, true)
    {
      current := None;
      for i := |children| downto 0
        invariant IsExtreme(current, ps, i, |lists|, true)
      {
        if children[i].Valid() {
          if current.None? {
            current := Some(i);
          } else {
            CompareHeads(current.value, ps[current.value], i, ps[i]);
            if Before(children[current.value].Entry().key, children[i].Entry().key) {
              current := Some(i);
            }
          }
        }
      }
    }

    /** With every child standing from `p`, the smallest head is entry `p` of the union. */
    lemma SmallestIsNext(c: Option<nat>, xs: seq<nat>, p: nat)
      requires AllFrom(xs, p) && IsExtreme(c, xs, 0, |lists|, false)
      ensures c.None? <==> p == |merged|
      ensures c.Some? ==> ranks.rank[c.value][xs[c.value]] == p
    {
      assert c.Some? ==> StandsFrom(c.value, xs[c.value], p);
      if p < |merged| {
        var i, x := ranks.owner[p], ranks.slot[p];
        assert StandsFrom(i, xs[i], p) && ranks.rank[i][x] == p;
      }
    }

    /** With every child standing up to `p`, the largest head is entry `p` of the union. */
    lemma LargestIsPrevious(c: Option<nat>, xs: seq<nat>, p: int)
      requires AllUpTo(xs, p) && IsExtreme(c, xs, 0, |lists|, true)
      ensures c.None? <==> p == -1
      ensures c.Some? ==> ranks.rank[c.value][xs[c.value]] == p
    {
      assert c.Some? ==> StandsUpTo(c.value, xs[c.value], p);
      if p >= 0 {
        var i, x := ranks.owner[p], ranks.slot[p];
        assert StandsUpTo(i, xs[i], p) && ranks.rank[i][x] == p;
      }
    }

    /** The end of every forward move: the smallest head is the entry at `p`. */
    method SettleOnSmallest(ghost p: nat)
      requires Watched() && AllFrom(ps, p) && direction.Forward?
      modifies this`current, this`at
      ensures Ok() && Position() == p
    {
      FindSmallest();
      at := p;
      SmallestIsNext(current, ps, p);
    }

    /** The end of every backward move: the largest head is the entry at `p`, if there is one. */
    method SettleOnLargest(ghost p: int)
      requires Watched() && AllUpTo(ps, p) && direction.Reverse?
      modifies this`current, this`at
      ensures Ok() && Position() == if p == -1 then |merged| else p
    {
      FindLargest();
      at := if p == -1 then |merged| else p;
      LargestIsPrevious(current, ps, p);
    }

    method SeekToFirst()
      requires Ok()
      modifies this, children
      ensures Ok() && Position() == 0
    {
      for i := 0 to |children|
        invariant Watched() && forall j :: 0 <= j < i ==> ps[j] == 0
      {
        ChildSeekToFirst(i);
      }
      direction := Forward;
      SettleOnSmallest(0);
    }

    method SeekToLast()
      requires Ok()
      modifies this, children
      ensures Ok() && Position() == if merged == [] then 0 else |merged| - 1
    {
      for i := 0 to |children|
        invariant Watched() && forall j :: 0 <= j < i ==> ps[j] == if |lists[j]| == 0 then 0 else |lists[j]| - 1
      {
        ChildSeekToLast(i);
      }
      direction := Reverse;
      SettleOnLargest(|merged| - 1);
    }

    /** Stands on the first entry of the union at or after `target`. */
    method Seek(target: IKey)
      requires Ok()
      modifies this, children
      ensures Ok() && Position() <= |merged|
      ensures forall p :: 0 <= p < Position() ==> Before(merged[p].key, target)
      ensures forall p :: Position() <= p < |merged| ==> !Before(merged[p].key, target)
    {
      ghost var p := FirstAtOrAfter(merged, target);
      for i := 0 to |children|
        invariant Watched() && forall j :: 0 <= j < i ==> StandsFrom(j, ps[j], p)
      {
        ChildSeek(i, target);
        SoughtStandsFrom(i, ps[i], target, p);
      }
      direction := Forward;
      SettleOnSmallest(p);
    }

    /** Only its owner holds entry `p` of the union. */
    lemma NotOwned(i: nat, c: nat, p: nat)
      requires Sources() && i < |lists| && c < |lists| && p < |merged| && ranks.owner[p] == c && i != c
      ensures forall x :: 0 <= x < |lists[i]| ==> ranks.rank[i][x] != p
    {
    }

    /** Puts child `i` on its first entry after `key`, the key at `at` that child `c` stands on. */
    method ChildSeekPast(i: nat, c: nat, key: IKey)
      requires Watched() && i < |children| && c < |children| && i != c
      requires ps[c] < |lists[c]| && ranks.rank[c][ps[c]] == at && key == lists[c][ps[c]].key
      modifies this`ps, children[i]
      ensures Watched() && ps == old(ps)[i := ps[i]] && StandsFrom(i, ps[i], at)
    {
      SidesOf(merged, at);
      ChildSeek(i, key);
      SoughtStandsFrom(i, ps[i], key, at);
      if children[i].Valid() && children[i].Entry().key == key {
        KeysDiffer(i, ps[i], c, ps[c]);
        assert false;  // two children never hold one key, so stepping past it is never needed
      }
    }

    /** The direction switch of Next: every other child moves to its first entry after the current key. */
    method TurnForward()
      requires Ok() && Valid() && direction.Reverse?
      modifies this`ps, this`direction, children
      ensures Watched() && AllFrom(ps, at) && direction.Forward? && ps[current.value] == old(ps[current.value])
    {
      var c, key := current.value, Entry().key;
      for i := 0 to |children|
        invariant Watched() && ps[c] == old(ps[c])
        invariant forall j :: 0 <= j < i && j != c ==> StandsFrom(j, ps[j], at)
      {
        if i != c {
          ChildSeekPast(i, c, key);
        }
      }
      direction := Forward;
      assert StandsFrom(c, ps[c], at);
    }

    /** Moving the owner of entry `p` forward leaves every child standing from `p + 1`. */
    lemma StepForward(xs: seq<nat>, c: nat, p: nat)
      requires AllFrom(xs, p) && c < |lists| && xs[c] < |lists[c]| && ranks.rank[c][xs[c]] == p
      ensures AllFrom(xs[c := xs[c] + 1], p + 1)
    {
      var ys := xs[c := xs[c] + 1];
      forall i | 0 <= i < |lists| ensures StandsFrom(i, ys[i], p + 1) {
        assert StandsFrom(i, xs[i], p);
        if i != c {
          NotOwned(i, c, p);
        }
      }
    }

    lemma StepBackward(xs: seq<nat>, c: nat, p: nat)
      requires AllUpTo(xs, p) && c < |lists| && xs[c] < |lists[c]| && ranks.rank[c][xs[c]] == p
      ensures AllUpTo(xs[c := if xs[c] == 0 then |lists[c]| else xs[c] - 1], p - 1)
    {
      var ys := xs[c := if xs[c] == 0 then |lists[c]| else xs[c] - 1];
      forall i | 0 <= i < |lists| ensures StandsUpTo(i, ys[i], p - 1) {
        assert StandsUpTo(i, xs[i], p);
        if i != c {
          NotOwned(i, c, p);
        }
      }
    }

    method Next()
      requires Ok() && Valid()
      modifies this, children
      ensures Ok() && Position() == old(Position()) + 1
    {
      hide Ranked, Sorted, AllUpTo;
      if direction != Forward {
        TurnForward();
      }
      StepForward(ps, current.value, at);
      ChildNext(current.value);
      SettleOnSmallest(at + 1);
    }

    /** One back from position `x` of `n` entries, where "nowhere" is past the last one. */
    ghost function OneBack(x: nat, n: nat): nat
      requires x <= n
    {
      if x < n then if x == 0 then n else x - 1 else if n == 0 then 0 else n - 1
    }

    method ChildStepBack(i: nat)
      requires Watched() && i < |children|
      modifies this`ps, children[i]
      ensures Watched() && ps == old(ps)[i := OneBack(old(ps[i]), |lists[i]|)]
    {
      if children[i].Valid() {
        ChildPrev(i);
      } else {
        ChildSeekToLast(i);
      }
    }

    /** Stepping a child back from its first entry at or after `p` puts it on its last entry before. */
    lemma StepBehind(i: nat, x: nat, c: nat, p: nat)
      requires Sources() && i < |lists| && c < |lists| && p < |merged| && ranks.owner[p] == c && i != c
      requires StandsFrom(i, x, p)
      ensures StandsUpTo(i, OneBack(x, |lists[i]|), p)
    {
      NotOwned(i, c, p);
    }

    /** Puts child `i` on its last entry before `key`, the key at `at` that child `c` stands on. */
    method ChildStepBehind(i: nat, c: nat, key: IKey)
      requires Watched() && i < |children| && c < |children| && i != c
      requires ps[c] < |lists[c]| && ranks.rank[c][ps[c]] == at && key == lists[c][ps[c]].key
      modifies this`ps, children[i]
      ensures Watched() && ps == old(ps)[i := ps[i]] && StandsUpTo(i, ps[i], at)
    {
      SidesOf(merged, at);
      ChildSeek(i, key);
      SoughtStandsFrom(i, ps[i], key, at);
      StepBehind(i, ps[i], c, at);
      ChildStepBack(i);
    }

    /** The direction switch of Prev: every other child moves to its last entry before the current key. */
    method TurnBackward()
      requires Ok() && Valid() && direction.Forward?
      modifies this`ps, this`direction, children
      ensures Watched() && AllUpTo(ps, at) && direction.Reverse? && ps[current.value] == old(ps[current.value])
    {
      var c, key := current.value, Entry().key;
      for i := 0 to |children|
        invariant Watched() && ps[c] == old(ps[c])
        invariant forall j :: 0 <= j < i && j != c ==> StandsUpTo(j, ps[j], at)
      {
        if i != c {
          ChildStepBehind(i, c, key);
        }
      }
      direction := Reverse;
      assert StandsUpTo(c, ps[c], at);
    }

    method Prev()
      requires Ok() && Valid()
      modifies this, children
      ensures Ok() && Position() == if old(Position()) == 0 then |merged| else old(Position()) - 1
    {
      if direction != Reverse {
        TurnBackward();
      }
      StepBackward(ps, current.value, at);
      ChildPrev(current.value);
      SettleOnLargest(at - 1);
    }
  }
}
