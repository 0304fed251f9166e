/**
 Readers of a skip list that walk it while the one writer inserts (db/skiplist.h:262-281,
 337-370). Every load and store is one step, and the steps of the writer and of any number
 of readers interleave freely.
 */
module SkipListReaders {
  import opened Options
  import opened SkipList

  /** How far an insertion has come; the height of the list was raised before the node was allocated. */
  datatype Writer =
    | Idle
    | Searched(key: real, prev: seq<nat>, height: nat)
    | Raised(key: real, prev: seq<nat>, height: nat)
    | Linking(x: nat, prev: seq<nat>, level: nat, copied: bool)

  /** A search for the first node at or after `target`, or past the end if there is no target. */
  datatype Reader =
    | Walking(target: Option<real>, x: nat, level: nat)
    | Found(target: Option<real>, x: nat, next: int)

  datatype System = System(list: List, writer: Writer, readers: seq<Reader>)

  ghost predicate WriterOk(s: List, w: Writer) {
    s.Shape() && match w
    case Idle => true
    case Searched(key, prev, height) =>
      && 1 <= height <= MAX_HEIGHT && |prev| == s.maxHeight && IsNew(s, key)
      && forall l :: 0 <= l < |prev| ==> IsLastBefore(s, prev[l], l, key)
    case Raised(key, prev, height) =>
      && 1 <= height <= s.maxHeight && height <= |prev| && IsNew(s, key)
      && forall l :: 0 <= l < height ==> IsLastBefore(s, prev[l], l, key)
    case Linking(x, prev, level, copied) =>
      && IsLinking(s, x, prev, level) && level < |s.next[x]|
      && (copied ==> s.next[x][level] == s.next[prev[level]][level])
  }

  /** REQUIRES of Insert: nothing equal to the key is in the list. */
  ghost predicate IsNew(s: List, key: real) {
    forall n {:trigger s.keys[n]} :: 0 < n < |s.keys| ==> s.keys[n] != key
  }

  /** A walking reader stands before its target, on a node published on its level. */
  ghost predicate ReaderOk(s: List, r: Reader) {
    s.Shape() && match r
    case Walking(target, x, level) => s.On(x, level) && (x == HEAD || IsAfter(target, s.keys[x]))
    case Found(target, x, next) => s.On(x, 0) && (next == NIL || s.On(next, 0))
  }

  ghost predicate Inv(sys: System) {
    && sys.list.Valid() && WriterOk(sys.list, sys.writer)
    && forall i :: 0 <= i < |sys.readers| ==> ReaderOk(sys.list, sys.readers[i])
  }

  ghost predicate Init(sys: System) {
    sys.list == EmptyList() && sys.writer == Idle && sys.readers == []
  }

  // ---- Steps of the writer

  /** One load or store of Insert, or its search, whose loads nobody else's stores can upset. */
  ghost predicate WriterStep(s: List, w: Writer, t: List, v: Writer) {
    s.Shape() && match w
    case Idle =>
      && t == s && v.Searched? && IsNew(s, v.key) && 1 <= v.height <= MAX_HEIGHT && |v.prev| == s.maxHeight
      && forall l :: 0 <= l < |v.prev| ==> IsLastBefore(s, v.prev[l], l, v.key)
    case Searched(key, prev, height) =>
      t == s.Raise(height) && v == Raised(key, WithHead(prev, height), height)
    case Raised(key, prev, height) =>
      t == s.Allocate(key, height) && v == Linking(|s.keys|, prev, 0, false)
    case Linking(x, prev, level, copied) =>
      && x < |s.next| && level < |s.next[x]| && level < |prev| && prev[level] < |s.next| == |s.linked|
         && level < |s.next[prev[level]]|
      && if !copied then t == Copied(s, x, prev, level) && v == Linking(x, prev, level, true)
         else t == s.Publish(prev[level], level, x)
              && v == if level + 1 < |s.next[x]| then Linking(x, prev, level + 1, false) else Idle
  }

  /** What is published stays published, and keys never change. */
  ghost predicate Grows(s: List, t: List) {
    && s.Shape() && t.Shape() && s.keys <= t.keys && s.maxHeight <= t.maxHeight
    && forall n {:trigger t.linked[n]} {:trigger s.linked[n]} :: 0 <= n < |s.keys| ==> s.linked[n] <= t.linked[n]
  }

  lemma WriterStepKeepsOk(s: List, w: Writer, t: List, v: Writer)
    requires s.Valid() && WriterOk(s, w) && WriterStep(s, w, t, v)
    ensures t.Valid() && WriterOk(t, v) && Grows(s, t)
  {
    match w
    case Idle =>
    case Searched(key, prev, height) =>
      RaiseKeepsFound(s, key, prev, height);
    case Raised(key, prev, height) =>
      AllocateStartsLinking(s, key, prev, height);
    case Linking(x, prev, level, copied) =>
      if !copied {
        CopyKeepsLinking(s, x, prev, level);
      } else {
        PublishKeepsLinking(s, x, prev, level);
      }
  }

  lemma GrowthKeepsReader(s: List, t: List, r: Reader)
    requires Grows(s, t) && ReaderOk(s, r)
    ensures ReaderOk(t, r)
  {
  }

  // ---- Steps of a reader

  /** One load of a pointer and what follows from it. */
  ghost predicate ReaderStep(s: List, r: Reader, q: Reader) {
    && r.Walking? && s.Node(r.x) && |s.next| == |s.keys| && r.level < |s.next[r.x]|
    && var next := s.next[r.x][r.level];
       && (s.Node(next) || next < 0)
       && q == if next != NIL && s.Node(next) && IsAfter(r.target, s.keys[next]) then Walking(r.target, next, r.level)
               else if r.level == 0 then Found(r.target, r.x, next)
               else Walking(r.target, r.x, r.level - 1)
  }

  /** A new search starts at the head, with the height of the list now or at an earlier time. */
  ghost predicate ReaderStart(s: List, q: Reader) {
    q.Walking? && q.x == HEAD && q.level < s.maxHeight
  }

  /** No reader loads a pointer that has not been set. */
  lemma ReaderLoadsSetPointer(s: List, r: Reader)
    requires s.Valid() && ReaderOk(s, r) && r.Walking?
    ensures r.level < |s.next[r.x]| && s.next[r.x][r.level] != UNSET
  {
    assert s.Follows(r.x, r.level);
  }

  lemma ReaderStepKeepsOk(s: List, r: Reader, q: Reader)
    requires s.Valid() && ReaderOk(s, r) && ReaderStep(s, r, q)
    ensures ReaderOk(s, q)
  {
    assert s.Follows(r.x, r.level);
  }

  /** The load that ends a search finds the nodes around the target in the bottom list as it then is. */
  lemma ReaderFinds(s: List, r: Reader, q: Reader)
    requires s.Valid() && ReaderOk(s, r) && ReaderStep(s, r, q) && q.Found?
    ensures Between(s, q.target, q.x, q.next)
  {
    assert s.Follows(r.x, r.level);
    SearchEnds(s, r.target, r.x);
  }

  // ---- Runs

  ghost predicate Step(a: System, b: System) {
    || (WriterStep(a.list, a.writer, b.list, b.writer) && b.readers == a.readers)
    || (b.list == a.list && b.writer == a.writer && exists q :: ReaderStart(a.list, q) && b.readers == a.readers + [q])
    || (b.list == a.list && b.writer == a.writer && exists i,
       q :: 0 <= i < |a.readers| && ReaderStep(a.list, a.readers[i], q) && b.readers == a.readers[i := q])
  }

  lemma StepKeepsInv(a: System, b: System)
    requires Inv(a) && Step(a, b)
    ensures Inv(b) && Grows(a.list, b.list)
  {
    if WriterStep(a.list, a.writer, b.list, b.writer) && b.readers == a.readers {
      WriterStepKeepsOk(a.list, a.writer, b.list, b.writer);
      forall i | 0 <= i < |b.readers| ensures ReaderOk(b.list, b.readers[i]) {
        GrowthKeepsReader(a.list, b.list, a.readers[i]);
      }
    } else if q :| ReaderStart(a.list, q) && b.readers == a.readers + [q] {
    } else {
      var i, q :| 0 <= i < |a.readers| && ReaderStep(a.list, a.readers[i], q) && b.readers == a.readers[i := q];
      ReaderStepKeepsOk(a.list, a.readers[i], q);
    }
  }

  ghost predicate StepAt(run: seq<System>, i: nat)
    requires i + 1 < |run|
  {
    Step(run[i], run[i + 1])
  }

  ghost predicate IsRun(run: seq<System>) {
    run != [] && Init(run[0]) && forall i :: 0 <= i < |run| - 1 ==> StepAt(run, i)
  }

  /** At every step of every run each level is a list in key order, and every reader is where it should be. */
  lemma {:induction false} RunKeepsInv(run: seq<System>, i: nat)
    requires IsRun(run) && i < |run|
    ensures Inv(run[i])
  {
    if i == 0 {
      EmptyListIsValid();
    } else {
      RunKeepsInv(run, i - 1);
      assert StepAt(run, i - 1);
      StepKeepsInv(run[i - 1], run[i]);
    }
  }

  lemma GrowsFurther(s: List, t: List, u: List)
    requires Grows(s, t) && Grows(t, u)
    ensures Grows(s, u)
  {
    assert forall n :: 0 <= n < |s.keys| ==> s.linked[n] <= t.linked[n] <= u.linked[n];
  }

  lemma {:induction false} RunGrows(run: seq<System>, i: nat, j: nat)
    requires IsRun(run) && i <= j < |run|
    ensures Grows(run[i].list, run[j].list)
    decreases j
  {
    RunKeepsInv(run, i);
    if i < j {
      RunGrows(run, i, j - 1);
      RunKeepsInv(run, j - 1);
      assert StepAt(run, j - 1);
      StepKeepsInv(run[j - 1], run[j]);
      GrowsFurther(run[i].list, run[j - 1].list, run[j].list);
    }
  }

  /**
   A search that ends in step `j` finds the first key at or after its target in the bottom
   list of that moment, so it misses no key that was in the list at any earlier moment `i`.
   */
  lemma SearchFindsEarlierKeys(run: seq<System>, i: nat, j: nat, k: nat, m: nat)
    requires IsRun(run) && i <= j < |run| - 1 && k < |run[j].readers|
    requires run[j].readers[k].Walking? && |run[j + 1].readers| == |run[j].readers| && run[j + 1].readers[k].Found?
    requires m < |run[i].list.keys| == |run[i].list.linked| && m in run[i].list.Members()
    ensures var s, r := run[j].list, run[j + 1].readers[k];
            && run[j + 1].list == s && Between(s, r.target, r.x, r.next)
            && m in s.Members() && s.keys[m] == run[i].list.keys[m]
            && (!IsAfter(r.target, s.keys[m]) ==> r.next != NIL && s.keys[r.next] <= s.keys[m])
  {
    var a, b := run[j], run[j + 1];
    RunKeepsInv(run, j);
    RunGrows(run, i, j);
    assert StepAt(run, j);
    assert a.readers[k] != b.readers[k];
    var i', q :| 0 <= i' < |a.readers| && ReaderStep(a.list, a.readers[i'], q) && b.readers == a.readers[i' := q]
        && b.list == a.list;
    assert i' == k && q == b.readers[k];
    ReaderFinds(a.list, a.readers[k], q);
    assert a.list.linked[m] > 0;
  }

  // ---- A whole insertion

  function Keys(s: List): set<real>
    requires |s.linked| == |s.keys|
  {
    set m | m in s.Members() :: s.keys[m]
  }

  /** What an unfinished insertion has done to the keys `before` it. */
  ghost predicate Progress(s: List, w: Writer, before: set<real>, key: real) {
    s.Shape() && match w
    case Idle => Keys(s) == before + {key}
    case Searched(k, prev, height) => k == key && Keys(s) == before
    case Raised(k, prev, height) => k == key && Keys(s) == before
    case Linking(x, prev, level, copied) =>
      s.Node(x) && s.keys[x] == key && Keys(s) == before + if level == 0 then {} else {key}
  }

  lemma SameKeys(s: List, t: List)
    requires s.Shape() && t.Shape() && s.keys <= t.keys && t.Members() == s.Members()
    ensures Keys(t) == Keys(s)
  {
    assert forall m :: m in s.Members() ==> t.keys[m] == s.keys[m];
  }

  lemma OneMoreKey(s: List, t: List, x: nat)
    requires s.Shape() && t.Shape() && t.keys == s.keys && x < |s.keys| && t.Members() == s.Members() + {x}
    ensures Keys(t) == Keys(s) + {s.keys[x]}
  {
    assert x in t.Members();
    forall k | k in Keys(s) + {s.keys[x]} ensures k in Keys(t) {
      if k in Keys(s) {
        var m :| m in s.Members() && s.keys[m] == k;
        assert m in t.Members();
      }
    }
  }

  lemma WriterStepProgress(s: List, w: Writer, t: List, v: Writer, before: set<real>, key: real)
    requires s.Valid() && WriterOk(s, w) && w != Idle && WriterStep(s, w, t, v) && Progress(s, w, before, key)
    ensures Progress(t, v, before, key)
  {
    WriterStepKeepsOk(s, w, t, v);
    match w
    case Searched(_, prev, height) =>
      RaiseKeepsFound(s, key, prev, height);
      SameKeys(s, t);
    case Raised(_, prev, height) =>
      AllocateStartsLinking(s, key, prev, height);
      SameKeys(s, t);
    case Linking(x, prev, level, copied) =>
      if !copied {
        CopyKeepsLinking(s, x, prev, level);
        SameKeys(s, t);
      } else {
        PublishKeepsLinking(s, x, prev, level);
        OneMoreKey(s, t, x);
      }
  }

  lemma StepProgress(a: System, b: System, before: set<real>, key: real)
    requires Inv(a) && Step(a, b) && a.writer != Idle && Progress(a.list, a.writer, before, key)
    ensures Progress(b.list, b.writer, before, key)
  {
    if WriterStep(a.list, a.writer, b.list, b.writer) {
      WriterStepProgress(a.list, a.writer, b.list, b.writer, before, key);
    }
  }

  /** An insertion runs in steps `i` to `j`: whatever the readers do, it adds its key and nothing else. */
  lemma {:induction false} InsertAddsOneKey(run: seq<System>, i: nat, j: nat, key: real)
    requires IsRun(run) && i <= j < |run| && run[i].writer.Searched? && run[i].writer.key == key
    requires forall n :: i <= n < j ==> run[n].writer != Idle
    ensures run[i].list.Shape() && Progress(run[j].list, run[j].writer, Keys(run[i].list), key)
    decreases j
  {
    RunKeepsInv(run, i);
    if i < j {
      InsertAddsOneKey(run, i, j - 1, key);
      RunKeepsInv(run, j - 1);
      assert StepAt(run, j - 1);
      StepProgress(run[j - 1], run[j], Keys(run[i].list), key);
    }
  }

  // ---- Levels as lists

  predicate Ascending(keys: seq<real>) {
    forall i, j :: 0 <= i < j < |keys| ==> keys[i] < keys[j]
  }

  /** The keys met by following the pointers of level `l` from node `n`. */
  ghost function Walk(s: List, l: nat, n: nat): (keys: seq<real>)
    requires s.Valid() && s.On(n, l)
    decreases s.Beyond(n)
  {
    assert s.Follows(n, l);
    var p := s.next[n][l];
    if p == NIL then [] else
      assert p in s.Beyond(n) && p !in s.Beyond(p);
      [s.keys[p]] + Walk(s, l, p)
  }

  ghost function LevelKeys(s: List, l: nat, n: nat): set<real>
    requires s.Valid() && s.Node(n)
  {
    set m | m in s.Beyond(n) && s.linked[m] > l :: s.keys[m]
  }

  /** Following pointers meets exactly the published nodes, in strictly ascending order. */
  lemma {:induction false} WalkIsSorted(s: List, l: nat, n: nat)
    requires s.Valid() && s.On(n, l)
    ensures Ascending(Walk(s, l, n))
    ensures forall k :: k in Walk(s, l, n) <==> k in LevelKeys(s, l, n)
    decreases s.Beyond(n)
  {
    assert s.Follows(n, l);
    var p := s.next[n][l];
    if p == NIL {
      assert forall m :: m in s.Beyond(n) ==> s.linked[m] <= l;
    } else {
      assert p in s.Beyond(n) && p !in s.Beyond(p);
      NextKeys(s, l, n);
      hide List.Valid, List.Beyond, LevelKeys;
      WalkIsSorted(s, l, p);
      var w := Walk(s, l, p);
      assert forall i :: 0 <= i < |w| ==> w[i] in w;
      assert Walk(s, l, n) == [s.keys[p]] + w;
    }
  }

  /** Behind a node are the next one and what is behind that. */
  lemma NextKeys(s: List, l: nat, n: nat)
    requires s.Valid() && s.On(n, l) && s.next[n][l] != NIL
    ensures var p := s.next[n][l];
            && s.On(p, l) && LevelKeys(s, l, n) == {s.keys[p]} + LevelKeys(s, l, p)
            && forall k :: k in LevelKeys(s, l, p) ==> k > s.keys[p]
  {
    assert s.Follows(n, l);
    var p := s.next[n][l];
    assert p in s.Beyond(n);
    forall k | k in LevelKeys(s, l, n) ensures k == s.keys[p] || k in LevelKeys(s, l, p) {
      var m :| m in s.Beyond(n) && s.linked[m] > l && s.keys[m] == k;
      assert m == p || m in s.Beyond(p);
    }
    assert s.keys[p] in LevelKeys(s, l, n);
    forall k | k in LevelKeys(s, l, p) ensures k in LevelKeys(s, l, n) && k > s.keys[p] {
      var m :| m in s.Beyond(p) && s.linked[m] > l && s.keys[m] == k;
      assert m in s.Beyond(n);
    }
  }

  /** Each level is a strictly ascending sublist of the level below. */
  lemma LevelsAreSublists(s: List, l: nat)
    requires s.Valid() && l + 1 < MAX_HEIGHT
    ensures forall k :: k in Walk(s, l + 1, HEAD) ==> k in Walk(s, l, HEAD)
    ensures Ascending(Walk(s, l + 1, HEAD)) && Ascending(Walk(s, l, HEAD))
  {
    WalkIsSorted(s, l, HEAD);
    WalkIsSorted(s, l + 1, HEAD);
    forall k | k in LevelKeys(s, l + 1, HEAD) ensures k in LevelKeys(s, l, HEAD) {
      var m :| m in s.Beyond(HEAD) && s.linked[m] > l + 1 && s.keys[m] == k;
    }
  }
}
