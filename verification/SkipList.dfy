/**
 The skip list (db/skiplist.h): one writer links nodes in level by level, from the bottom up,
 while readers walk the list without locks. Nodes are numbered in the order they are
 allocated; node 0 is the head. Keys are real numbers, of which only the order is used. Loads and
 stores are single steps.
 */
module SkipList {
  import opened Options

  const MAX_HEIGHT: nat := 12
  const HEAD: nat := 0
  const NIL: int := -1
  const UNSET: int := -2

  /** The pointers of all nodes; `linked[n]` is how many levels node `n` has been published on. */
  datatype List = List(keys: seq<real>, next: seq<seq<int>>, linked: seq<nat>, maxHeight: nat) {
    predicate Node(n: int) {
      0 <= n < |keys|
    }

    /** Node `n` is in the list of level `l`; the head is in every list. */
    predicate On(n: int, l: nat)
      requires |linked| == |keys|
    {
      Node(n) && l < linked[n]
    }

    predicate IsBefore(n: nat, m: nat)
      requires Node(n) && Node(m)
    {
      m != HEAD && (n == HEAD || keys[n] < keys[m])
    }

    ghost predicate Shape() {
      && 0 < |keys| == |next| == |linked| && 1 <= maxHeight <= MAX_HEIGHT
      && (forall n {:trigger next[n]} :: 0 <= n < |keys| ==> 1 <= |next[n]| <= MAX_HEIGHT && linked[n] <= |next[n]|)
      && linked[HEAD] == MAX_HEIGHT
      && (forall n {:trigger linked[n]} :: 0 < n < |keys| ==> linked[n] <= maxHeight)
      && (forall m, n {:trigger keys[m], keys[n]} :: 0 < m < |keys| && 0 < n < |keys| && keys[m] == keys[n] ==> m == n)
    }

    /** The node that follows `n` on level `l` is the next one there in key order. */
    ghost predicate Follows(n: nat, l: nat)
      requires Shape() && On(n, l)
    {
      var p := next[n][l];
      && (p == NIL || (On(p, l) && IsBefore(n, p)))
      && forall m {:trigger linked[m]} :: 0 <= m < |keys| && linked[m] > l && IsBefore(n, m) ==>
         p != NIL && keys[p] <= keys[m]
    }

    ghost predicate Valid() {
      Shape() && forall n, l {:trigger Follows(n, l)} :: 0 <= n < |keys| && 0 <= l < linked[n] ==> Follows(n, l)
    }

    /** The bottom list, as a set of nodes. */
    function Members(): set<nat>
      requires |linked| == |keys|
    {
      set n: nat | 0 < n < |keys| && 0 < linked[n]
    }

    /** Members after `n`, which a walk along any level can only make fewer. */
    function Beyond(n: nat): set<nat>
      requires |linked| == |keys| && Node(n)
    {
      set m: nat | m in Members() && IsBefore(n, m)
    }

    function SetNext(n: nat, l: nat, p: int): List
      requires n < |next| && l < |next[n]|
    {
      this.(next := next[n := next[n][l := p]])
    }

    /** NewNode: all pointers are still unset. */
    function Allocate(key: real, height: nat): List {
      List(keys + [key], next + [seq(height, i => UNSET)], linked + [0], maxHeight)
    }

    function Raise(height: nat): List {
      this.(maxHeight := if height > maxHeight then height else maxHeight)
    }

    /** Publishes node `x` on level `l` behind `prev`. */
    function Publish(prev: nat, l: nat, x: nat): List
      requires prev < |next| && l < |next[prev]| && x < |linked|
    {
      SetNext(prev, l, x).(linked := linked[x := l + 1])
    }
  }

  function EmptyList(): List {
    List([0.0], [seq(MAX_HEIGHT, i => NIL)], [MAX_HEIGHT], 1)
  }

  lemma EmptyListIsValid()
    ensures EmptyList().Valid() && EmptyList().Members() == {}
  {
    var s := EmptyList();
    assert forall m :: m !in s.Members();
    forall n, l | 0 <= n < |s.keys| && 0 <= l < s.linked[n] ensures s.Follows(n, l) {
      assert |s.keys| == 1 && n == HEAD && s.next[HEAD][l] == NIL;
    }
  }

  /** `prev` is the last node of level `l` before key `k`. */
  ghost predicate IsLastBefore(s: List, prev: nat, l: nat, k: real)
    requires s.Shape()
  {
    && s.On(prev, l) && (prev == HEAD || s.keys[prev] < k)
    && (s.next[prev][l] == NIL || (s.Node(s.next[prev][l]) && s.keys[s.next[prev][l]] >= k))
  }

  // ---- The writer's steps keep every level a sorted list

  lemma AllocateKeepsValid(s: List, key: real, height: nat)
    requires s.Valid() && 1 <= height <= MAX_HEIGHT
    requires forall n {:trigger s.keys[n]} :: 0 < n < |s.keys| ==> s.keys[n] != key
    ensures s.Allocate(key, height).Valid() && s.Allocate(key, height).Members() == s.Members()
  {
    var t := s.Allocate(key, height);
    assert forall m :: m in t.Members() <==> m in s.Members();
    assert t.Shape();
    forall n, l | 0 <= n < |t.keys| && 0 <= l < t.linked[n] ensures t.Follows(n, l) {
      assert s.Follows(n, l);
      assert forall m :: t.On(m, l) ==> s.On(m, l);
    }
  }

  lemma RaiseKeepsValid(s: List, height: nat)
    requires s.Valid() && height <= MAX_HEIGHT
    ensures s.Raise(height).Valid() && s.Raise(height).Members() == s.Members()
  {
    var t := s.Raise(height);
    assert t.Members() == s.Members();
    assert t.Shape();
    forall n, l | 0 <= n < |t.keys| && 0 <= l < t.linked[n] ensures t.Follows(n, l) {
      assert s.Follows(n, l);
      assert forall m :: t.On(m, l) ==> s.On(m, l);
    }
  }

  /** Setting a pointer of a node on a level it is not yet published on. */
  lemma PrepareKeepsValid(s: List, x: nat, l: nat, p: int)
    requires s.Valid() && s.Node(x) && s.linked[x] <= l < |s.next[x]|
    ensures s.SetNext(x, l, p).Valid() && s.SetNext(x, l, p).Members() == s.Members()
  {
    var t := s.SetNext(x, l, p);
    assert t.Members() == s.Members();
    assert t.Shape();
    forall n, l' | 0 <= n < |t.keys| && 0 <= l' < t.linked[n] ensures t.Follows(n, l') {
      assert s.Follows(n, l') && t.next[n][l'] == s.next[n][l'];
      assert forall m :: t.On(m, l') ==> s.On(m, l');
    }
  }

  /** Any other node of the level before key `k` is followed by one that is also before it. */
  lemma OthersAreBefore(s: List, prev: nat, l: nat, k: real, n: nat)
    requires s.Valid() && IsLastBefore(s, prev, l, k) && s.On(n, l) && n != prev && (n == HEAD || s.keys[n] < k)
    ensures s.Node(s.next[n][l]) && s.keys[s.next[n][l]] < k
  {
    assert s.Follows(prev, l) && s.Follows(n, l);
    assert s.linked[n] > l && s.linked[prev] > l;
    assert s.IsBefore(prev, n) || s.IsBefore(n, prev);
  }

  /** Node `x` is about to be published behind `prev`. */
  ghost predicate Ready(s: List, prev: nat, l: nat, x: nat) {
    && s.Valid() && s.Node(x) && x != HEAD && s.linked[x] == l < |s.next[x]| && l < s.maxHeight
    && IsLastBefore(s, prev, l, s.keys[x]) && s.next[x][l] == s.next[prev][l]
  }

  lemma PublishKeepsShape(s: List, prev: nat, l: nat, x: nat)
    requires Ready(s, prev, l, x)
    ensures s.Publish(prev, l, x).Shape() && s.Publish(prev, l, x).Members() == s.Members() + {x}
  {
    var t := s.Publish(prev, l, x);
    assert t.Shape();
    assert forall m :: m in t.Members() <==> m in s.Members() + {x};
  }

  lemma PublishSameLevel(s: List, prev: nat, l: nat, x: nat, n: nat)
    requires Ready(s, prev, l, x) && s.Publish(prev, l, x).Shape() && s.Publish(prev, l, x).On(n, l)
    ensures s.Publish(prev, l, x).Follows(n, l)
  {
    assert s.Follows(prev, l);
    if n != x {
      assert s.Follows(n, l);
      if n != prev && (n == HEAD || s.keys[n] < s.keys[x]) {
        OthersAreBefore(s, prev, l, s.keys[x], n);
      }
    }
  }

  lemma PublishOtherLevel(s: List, prev: nat, l: nat, x: nat, n: nat, l': nat)
    requires Ready(s, prev, l, x) && s.Publish(prev, l, x).Shape() && s.Publish(prev, l, x).On(n, l') && l' != l
    ensures s.Publish(prev, l, x).Follows(n, l')
  {
    assert s.Follows(n, l');
  }

  lemma PublishKeepsValid(s: List, prev: nat, l: nat, x: nat)
    requires Ready(s, prev, l, x)
    ensures s.Publish(prev, l, x).Valid() && s.Publish(prev, l, x).Members() == s.Members() + {x}
  {
    var t := s.Publish(prev, l, x);
    PublishKeepsShape(s, prev, l, x);
    forall n, l' | 0 <= n < |t.keys| && 0 <= l' < t.linked[n] ensures t.Follows(n, l') {
      if l' == l {
        PublishSameLevel(s, prev, l, x, n);
      } else {
        PublishOtherLevel(s, prev, l, x, n, l');
      }
    }
  }

  /** Above the height of the list there is only the head. */
  lemma HeadIsLastAbove(s: List, k: real)
    requires s.Valid()
    ensures forall l :: s.maxHeight <= l < MAX_HEIGHT ==> IsLastBefore(s, HEAD, l, k)
  {
    forall l | s.maxHeight <= l < MAX_HEIGHT ensures IsLastBefore(s, HEAD, l, k) {
      assert s.Follows(HEAD, l);
    }
  }

  /** Node `x` is published below level `i` and its predecessors on the levels from there on are known. */
  ghost predicate IsLinking(s: List, x: nat, prev: seq<nat>, i: nat) {
    && s.Valid() && s.Node(x) && x != HEAD && s.linked[x] == i && |s.next[x]| <= s.maxHeight
    && |s.next[x]| <= |prev| && i <= |s.next[x]|
    && forall l :: i <= l < |s.next[x]| ==> IsLastBefore(s, prev[l], l, s.keys[x])
  }

  /** The two stores of one turn: the pointer of the new node, then the pointer to it. */
  function Copied(s: List, x: nat, prev: seq<nat>, i: nat): List
    requires x < |s.next| && i < |s.next[x]| && i < |prev| && prev[i] < |s.next| && i < |s.next[prev[i]]|
  {
    s.SetNext(x, i, s.next[prev[i]][i])
  }

  lemma CopyKeepsLinking(s: List, x: nat, prev: seq<nat>, i: nat)
    requires IsLinking(s, x, prev, i) && i < |s.next[x]|
    ensures var t := Copied(s, x, prev, i);
            IsLinking(t, x, prev, i) && t.Members() == s.Members() && t.keys == s.keys
              && t.next[x][i] == t.next[prev[i]][i]
  {
    assert IsLastBefore(s, prev[i], i, s.keys[x]);
    PrepareKeepsValid(s, x, i, s.next[prev[i]][i]);
    var t := Copied(s, x, prev, i);
    forall l | i <= l < |t.next[x]| ensures IsLastBefore(t, prev[l], l, t.keys[x]) {
      assert IsLastBefore(s, prev[l], l, s.keys[x]);
    }
  }

  lemma PublishKeepsLinking(s: List, x: nat, prev: seq<nat>, i: nat)
    requires IsLinking(s, x, prev, i) && i < |s.next[x]| && s.next[x][i] == s.next[prev[i]][i]
    ensures var t := s.Publish(prev[i], i, x);
            IsLinking(t, x, prev, i + 1) && t.Members() == s.Members() + {x} && t.keys == s.keys
  {
    PublishKeepsValid(s, prev[i], i, x);
    var t := s.Publish(prev[i], i, x);
    forall l | i + 1 <= l < |t.next[x]| ensures IsLastBefore(t, prev[l], l, t.keys[x]) {
      assert IsLastBefore(s, prev[l], l, s.keys[x]);
    }
  }

  /** What the search found stays right when the node is allocated. */
  lemma AllocateStartsLinking(s: List, key: real, prev: seq<nat>, height: nat)
    requires s.Valid() && 1 <= height <= s.maxHeight && height <= |prev|
    requires forall n {:trigger s.keys[n]} :: 0 < n < |s.keys| ==> s.keys[n] != key
    requires forall l :: 0 <= l < height ==> IsLastBefore(s, prev[l], l, key)
    ensures var t := s.Allocate(key, height);
            IsLinking(t, |s.keys|, prev, 0) && t.Members() == s.Members()
  {
    AllocateKeepsValid(s, key, height);
    var t := s.Allocate(key, height);
    forall l | 0 <= l < height ensures IsLastBefore(t, prev[l], l, key) {
      assert IsLastBefore(s, prev[l], l, key);
    }
  }

  /** The predecessors found by the search, with the head for the levels above. */
  function WithHead(prev: seq<nat>, height: nat): seq<nat> {
    if height > |prev| then prev + seq(height - |prev|, i => HEAD) else prev
  }

  lemma RaiseKeepsFound(s: List, key: real, prev: seq<nat>, height: nat)
    requires s.Valid() && height <= MAX_HEIGHT && |prev| == s.maxHeight
    requires forall l :: 0 <= l < |prev| ==> IsLastBefore(s, prev[l], l, key)
    ensures s.Raise(height).Valid() && s.Raise(height).Members() == s.Members()
    ensures forall l :: 0 <= l < height ==> IsLastBefore(s.Raise(height), WithHead(prev, height)[l], l, key)
  {
    RaiseKeepsValid(s, height);
    HeadIsLastAbove(s, key);
    var t, p := s.Raise(height), WithHead(prev, height);
    forall l | 0 <= l < height ensures IsLastBefore(t, p[l], l, key) {
      assert IsLastBefore(s, if l < |prev| then prev[l] else HEAD, l, key);
    }
  }

  // ---- Searching

  predicate IsAfter(target: Option<real>, key: real) {
    target.None? || key < target.value
  }

  /** Between `x` and `next` of the bottom list lies `target`; nothing is at or after no target. */
  ghost predicate Between(s: List, target: Option<real>, x: nat, next: int) {
    && s.Shape() && s.On(x, 0) && (x == HEAD || IsAfter(target, s.keys[x]))
    && (next == NIL || (next in s.Members() && !IsAfter(target, s.keys[next])))
    && (forall m {:trigger s.linked[m]} :: m in s.Members() ==>
          if IsAfter(target, s.keys[m]) then x != HEAD && s.keys[m] <= s.keys[x]
              else next != NIL && s.keys[next] <= s.keys[m])
  }

  lemma SearchEnds(s: List, target: Option<real>, x: nat)
    requires s.Valid() && s.On(x, 0) && (x == HEAD || IsAfter(target, s.keys[x]))
    requires var p := s.next[x][0]; p == NIL || (s.Node(p) && !IsAfter(target, s.keys[p]))
    ensures Between(s, target, x, s.next[x][0])
  {
    assert s.Follows(x, 0);
    forall m {:trigger s.linked[m]} | m in s.Members()
      ensures var next := s.next[x][0];
              if IsAfter(target, s.keys[m]) then x != HEAD && s.keys[m] <= s.keys[x]
                  else next != NIL && s.keys[next] <= s.keys[m]
    {
      assert s.linked[m] > 0;
      assert s.IsBefore(x, m) || (x != HEAD && s.keys[m] <= s.keys[x]);
    }
  }

  class SkipList {
    var list: List

    constructor ()
      ensures list == EmptyList() && list.Valid()
    {
      list := EmptyList();
      EmptyListIsValid();
    }

    /** The loop of FindGreaterOrEqual, FindLessThan and FindLast: the nodes around `target`, on each level. */
    method Find(target: Option<real>) returns (x: nat, next: int, prev: seq<nat>)
      requires list.Valid()
      ensures |prev| == list.maxHeight > 0 && prev[0] == x
      ensures Between(list, target, x, next)
      ensures target.Some? ==> forall l :: 0 <= l < |prev| ==> IsLastBefore(list, prev[l], l, target.value)
    {
      x, prev := HEAD, seq(list.maxHeight, i => HEAD);
      var level: nat := list.maxHeight - 1;
      while true
        invariant level < list.maxHeight == |prev|
        invariant list.On(x, level) && (x == HEAD || IsAfter(target, list.keys[x]))
        invariant target.Some? ==> forall l :: level < l < |prev| ==> IsLastBefore(list, prev[l], l, target.value)
        decreases level, list.Beyond(x)
      {
        assert list.Follows(x, level);
        next := list.next[x][level];
        if next != NIL && IsAfter(target, list.keys[next]) {
          assert next in list.Beyond(x) && next !in list.Beyond(next);
          x := next;
        } else {
          prev := prev[level := x];
          if level == 0 {
            SearchEnds(list, target, x);
            return;
          }
          level := level - 1;
        }
      }
    }

    method FindGreaterOrEqual(key: real) returns (node: int, prev: seq<nat>)
      requires list.Valid()
      ensures |prev| == list.maxHeight > 0 && forall l :: 0 <= l < |prev| ==> IsLastBefore(list, prev[l], l, key)
      ensures Between(list, Some(key), prev[0], node)
    {
      var x;
      x, node, prev := Find(Some(key));
    }

    /** The last node before `key`, or the head. */
    method FindLessThan(key: real) returns (node: nat)
      requires list.Valid()
      ensures exists next :: Between(list, Some(key), node, next)
    {
      var next, prev;
      node, next, prev := Find(Some(key));
    }

    /** The last node, or the head. */
    method FindLast() returns (node: nat)
      requires list.Valid()
      ensures exists next :: Between(list, None, node, next)
    {
      var next, prev;
      node, next, prev := Find(None);
    }

    method Contains(key: real) returns (found: bool)
      requires list.Valid()
      ensures found <==> exists m :: m in list.Members() && list.keys[m] == key
    {
      var x, prev := FindGreaterOrEqual(key);
      found := x != NIL && list.keys[x] == key;
      if x != NIL {
        assert x in list.Members();
      }
    }

    /** Links a new key in, level by level from the bottom; every store leaves the list valid. */
    method Insert(key: real, height: nat)
      requires list.Valid() && 1 <= height <= MAX_HEIGHT
      requires forall n {:trigger list.keys[n]} :: 0 < n < |list.keys| ==> list.keys[n] != key
      modifies this
      ensures list.Valid() && list.Members() == old(list.Members()) + {old(|list.keys|)}
      ensures list.keys == old(list.keys) + [key]
    {
      var x, prev := FindGreaterOrEqual(key);
      RaiseKeepsFound(list, key, prev, height);
      ghost var raised, all := list.Raise(height), WithHead(prev, height);
      if height > list.maxHeight {
        prev := prev + seq(height - list.maxHeight, i => HEAD);
        list := list.Raise(height);
      }
      assert list == raised && prev == all;
      AllocateStartsLinking(list, key, prev, height);
      var node := |list.keys|;
      list := list.Allocate(key, height);
      for i := 0 to height
        invariant IsLinking(list, node, prev, i) && list.keys == old(list.keys) + [key] && |list.next[node]| == height
        invariant list.Members() == old(list.Members()) + if i == 0 then {} else {node}
      {
        CopyKeepsLinking(list, node, prev, i);
        list := Copied(list, node, prev, i);
        PublishKeepsLinking(list, node, prev, i);
        list := list.Publish(prev[i], i, node);
      }
    }
  }
}
