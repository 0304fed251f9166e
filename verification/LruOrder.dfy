/**
 Least recently used, over runs of the cache: unused entries are listed, and evicted, in the
 order in which their last client let go of them. When that was is told by the operations,
 by who holds a handle and by what is cached, not by the lists.
 */
module LruOrder {
  import opened Words
  import opened Options
  import opened HashTable
  import opened Rings
  import opened LruCache

  /** Cached, and no client holds it. */
  predicate Unused(s: State, h: Handle) {
    h in s.cached && h !in s.held
  }

  /** Operation `t` of the run made the handle unused, and it has been so in every state up to the `n`-th. */
  ghost predicate UnusedSince(states: seq<State>, h: Handle, t: nat, n: nat) {
    && t < n < |states| && !Unused(states[t], h)
    && forall u :: t < u <= n ==> Unused(states[u], h)
  }

  ghost predicate Precedes(s: seq<Handle>, g: Handle, h: Handle) {
    exists i, j :: 0 <= i < j < |s| && s[i] == g && s[j] == h
  }

  // ---- One operation

  ghost predicate KeepsOrder(a: seq<Handle>, b: seq<Handle>) {
    && (forall h :: h in b ==> h in a)
    && forall g, h :: Precedes(b, g, h) ==> Precedes(a, g, h)
  }

  lemma TailKeepsOrder(a: seq<Handle>, k: nat)
    requires k <= |a|
    ensures KeepsOrder(a, a[k..])
  {
    forall g, h | Precedes(a[k..], g, h)
      ensures Precedes(a, g, h)
    {
      var i, j :| 0 <= i < j < |a[k..]| && a[k..][i] == g && a[k..][j] == h;
      assert a[k + i] == g && a[k + j] == h;
    }
  }

  lemma DropKeepsOrder(a: seq<Handle>, e: Handle)
    requires e in a
    ensures KeepsOrder(a, Drop(a, e))
  {
    var p := Index(a, e);
    var b := Drop(a, e);
    assert forall i :: 0 <= i < |b| ==> b[i] == a[if i < p then i else i + 1];
    forall g, h | Precedes(b, g, h)
      ensures Precedes(a, g, h)
    {
      var i, j :| 0 <= i < j < |b| && b[i] == g && b[j] == h;
      var i', j' := if i < p then i else i + 1, if j < p then j else j + 1;
      assert i' < j' && a[i'] == g && a[j'] == h;
    }
  }

  /** One operation adds nothing but the handle that is released, and that behind all the others. */
  ghost predicate Ages(s: State, op: Op, t: State) {
    || KeepsOrder(s.lru, t.lru)
    || (op.ReleaseHandle? && op.e !in s.lru && t.lru == s.lru + [op.e])
  }

  lemma UnusedIsListed(s: State, h: Handle)
    requires Inv(s)
    ensures Unused(s, h) <==> h in s.lru
  {
    hide UniqueKeys, Charge;
    if h in s.cached {
      assert h in s.refs && s.refs[h] == s.held[h] + 1;
    }
  }

  lemma ErasingAges(s: State, e: Handle)
    requires (e in s.lru || e in s.inUse) && e in s.refs && s.refs[e] > 0
    ensures KeepsOrder(s.lru, FinishErase(s, e).lru)
  {
    if e in s.lru {
      DropKeepsOrder(s.lru, e);
    }
  }

  lemma InsertingAges(s: State, key: Key, hash: uint32, charge: nat)
    requires Inv(s)
    ensures KeepsOrder(s.lru, Inserted(s, key, hash, charge).lru)
  {
    hide Inv, FinishErase, KeepsOrder;
    InsertedInSteps(s, key, hash, charge);
    var t, e := Added(s, NewHandle(s, key, hash, charge)), FoundIn(s.cached, key, hash);
    if s.capacity > 0 && e.Some? {
      ErasingAges(t, e.value);
    } else {
      TailKeepsOrder(s.lru, 0);
      assert s.lru[0..] == s.lru;
    }
  }

  lemma EvictingAges(s: State, all: bool)
    requires Inv(s)
    ensures KeepsOrder(s.lru, Evicted(s, all).lru)
  {
    hide Inv, KeepsOrder;
    var k := EvictsOldestFirst(s, all);
    TailKeepsOrder(s.lru, k);
  }

  lemma OrderIsKept(a: seq<Handle>, b: seq<Handle>, c: seq<Handle>)
    requires KeepsOrder(a, b) && KeepsOrder(b, c)
    ensures KeepsOrder(a, c)
  {
    hide Precedes;
  }

  lemma OperationAges(s: State, op: Op)
    requires Inv(s) && Legal(s, op)
    ensures Ages(s, op, Apply(s, op))
  {
    hide KeepsOrder, Counted, Listed, Deleted, UniqueKeys, Charge;
    TailKeepsOrder(s.lru, 0);
    assert s.lru[0..] == s.lru;
    match op
    case Insert(key, hash, charge) =>
      InsertingAges(s, key, hash, charge);
      EvictingAges(Inserted(s, key, hash, charge), false);
      OrderIsKept(s.lru, Inserted(s, key, hash, charge).lru, Apply(s, op).lru);
    case Lookup(key, hash) =>
      FoundIsListed(s, key, hash);
      var e := FoundIn(s.cached, key, hash);
      if e.Some? && e.value in s.lru {
        DropKeepsOrder(s.lru, e.value);
      }
    case ReleaseHandle(e) =>
      UnusedIsListed(s, e);
      ReleaseKeepsCounts(s, e);
    case EraseKey(key, hash) =>
      FoundIsListed(s, key, hash);
      var e := FoundIn(s.cached, key, hash);
      if e.Some? {
        ErasingAges(s, e.value);
      }
    case Prune =>
      EvictingAges(s, true);
  }

  // ---- Runs

  ghost predicate LegalUpTo(ops: seq<Op>, states: seq<State>, n: nat)
    requires n <= |ops| && |states| == |ops| + 1
  {
    forall j :: 0 <= j < n ==> Legal(states[j], ops[j])
  }

  /** The step before state `n`. */
  lemma LastStep(capacity: nat, ops: seq<Op>, states: seq<State>, n: nat)
    requires IsRun(capacity, ops, states) && 0 < n < |states| && LegalUpTo(ops, states, n)
    ensures var s, op, t := states[n - 1], ops[n - 1], states[n];
            Inv(s) && Inv(t) && LegalUpTo(ops, states, n - 1) && Ages(s, op, t)
            && (op.ReleaseHandle? ==> op.e in s.held)
  {
    hide Inv, Ages, Apply;
    RunKeepsInv(capacity, ops, states, n - 1);
    RunKeepsInv(capacity, ops, states, n);
    assert StepAt(ops, states, n - 1);
    OperationAges(states[n - 1], ops[n - 1]);
  }

  lemma SinceBefore(states: seq<State>, h: Handle, t: nat, n: nat)
    requires 0 < n && UnusedSince(states, h, t, n)
    ensures t < n - 1 ==> UnusedSince(states, h, t, n - 1)
    ensures t < n - 1 <==> Unused(states[n - 1], h)
  {
    hide Unused;
  }

  /** An entry that is unused has been so since an operation, and that released it. */
  lemma {:induction false} UnusedWasReleased(capacity: nat, ops: seq<Op>, states: seq<State>, n: nat, h: Handle)
      returns (t: nat)
    requires IsRun(capacity, ops, states) && n < |states| && LegalUpTo(ops, states, n) && Unused(states[n], h)
    ensures UnusedSince(states, h, t, n) && ops[t] == ReleaseHandle(h)
  {
    hide Inv, LegalUpTo;
    assert n > 0;
    LastStep(capacity, ops, states, n);
    UnusedIsListed(states[n - 1], h);
    UnusedIsListed(states[n], h);
    if Unused(states[n - 1], h) {
      t := UnusedWasReleased(capacity, ops, states, n - 1, h);
    } else {
      t := n - 1;
    }
  }

  /** The list of unused entries is in the order in which they became unused. */
  lemma {:induction false} OlderIsFirst(capacity: nat, ops: seq<Op>, states: seq<State>, n: nat, g: Handle, h: Handle,
      tg: nat, th: nat)
    requires IsRun(capacity, ops, states) && n < |states| && LegalUpTo(ops, states, n)
    requires UnusedSince(states, g, tg, n) && UnusedSince(states, h, th, n) && Precedes(states[n].lru, g, h)
    ensures tg < th
  {
    hide Inv, LegalUpTo;
    SinceBefore(states, g, tg, n);
    SinceBefore(states, h, th, n);
    LastStep(capacity, ops, states, n);
    UnusedIsListed(states[n - 1], g);
    UnusedIsListed(states[n - 1], h);
    var s, op, t := states[n - 1], ops[n - 1], states[n];
    if Precedes(s.lru, g, h) {
      OlderIsFirst(capacity, ops, states, n - 1, g, h, tg, th);
    } else {
      PrecedesByRelease(s.lru, op.e, g, h);
    }
  }

  lemma PrecedesByRelease(a: seq<Handle>, e: Handle, g: Handle, h: Handle)
    requires Precedes(a + [e], g, h)
    ensures Precedes(a, g, h) || (g in a && h == e)
  {
    var b := a + [e];
    var i, j :| 0 <= i < j < |b| && b[i] == g && b[j] == h;
    assert i < |a| ==> a[i] == g;
    assert j < |a| ==> a[j] == h;
  }

  lemma IsListedAt(s: seq<Handle>, h: Handle) returns (i: nat)
    requires h in s
    ensures i < |s| && s[i] == h
  {
    i :| 0 <= i < |s| && s[i] == h;
  }

  lemma OneOfThemPrecedes(s: seq<Handle>, g: Handle, h: Handle)
    requires g in s && h in s && g != h
    ensures Precedes(s, g, h) || Precedes(s, h, g)
  {
    var i := IsListedAt(s, g);
    var j := IsListedAt(s, h);
  }

  /** Of two unused entries the one that was released first is listed first, and the other way round. */
  lemma OlderIsFirstIff(capacity: nat, ops: seq<Op>, states: seq<State>, n: nat, g: Handle, h: Handle,
      tg: nat, th: nat)
    requires IsRun(capacity, ops, states) && n < |states| && LegalUpTo(ops, states, n) && g != h
    requires UnusedSince(states, g, tg, n) && UnusedSince(states, h, th, n)
    ensures Precedes(states[n].lru, g, h) <==> tg < th
  {
    hide Inv, Precedes;
    RunKeepsInv(capacity, ops, states, n);
    UnusedIsListed(states[n], g);
    UnusedIsListed(states[n], h);
    OneOfThemPrecedes(states[n].lru, g, h);
    if Precedes(states[n].lru, g, h) {
      OlderIsFirst(capacity, ops, states, n, g, h, tg, th);
    }
    if Precedes(states[n].lru, h, g) {
      OlderIsFirst(capacity, ops, states, n, h, g, th, tg);
    }
  }

  // ---- Eviction

  /** The state from which an operation evicts. */
  ghost function BeforeEviction(s: State, op: Op): (u: State)
    requires Inv(s) && (op.Insert? || op.Prune?)
    ensures Inv(u)
  {
    if op.Insert? then Inserted(s, op.key, op.hash, op.charge) else s
  }

  /** An unused entry stays listed until eviction begins, but for the one that is replaced: its deleter has run. */
  lemma ListedOrReplaced(s: State, op: Op, h: Handle)
    requires Inv(s) && (op.Insert? || op.Prune?) && h in s.lru
    ensures var u := BeforeEviction(s, op);
            if h in u.lru then h !in u.deleted else h in u.deleted && op.Insert? && h.Matches(op.key, op.hash)
  {
    hide Charge, UniqueKeys, NoRepeats;
    UnusedIsListed(s, h);
    assert h in s.refs;
    if op.Insert? {
      InsertedInSteps(s, op.key, op.hash, op.charge);
      var t, e := Added(s, NewHandle(s, op.key, op.hash, op.charge)), FoundIn(s.cached, op.key, op.hash);
      AddedKeepsBalance(s, NewHandle(s, op.key, op.hash, op.charge));
      if s.capacity > 0 && e.Some? {
        ErasedOrKept(t, e.value, h);
      }
    }
  }

  lemma ErasedOrKept(t: State, e: Handle, h: Handle)
    requires Balanced(t) && e in t.cached && h in t.lru && h !in t.held && h !in t.deleted
    ensures e in t.refs && (e in t.lru || e in t.inUse)
    ensures var u := FinishErase(t, e);
            if h == e then h in u.deleted && h !in u.lru else h in u.lru && h !in u.deleted
  {
    hide Charge, UniqueKeys, FinishErase;
    FinishEraseKeepsBalance(t, e);
    FinishedLists(t, e);
    if e in t.lru {
      DropHas(t.lru, e);
    }
  }

  lemma FinishedLists(t: State, e: Handle)
    requires (e in t.lru || e in t.inUse) && e in t.refs && t.refs[e] > 0
    ensures FinishErase(t, e).lru == if e in t.lru then Drop(t.lru, e) else t.lru
  {
  }

  lemma FrontIsEvicted(lru: seq<Handle>, deleted: seq<Handle>, k: nat, g: Handle, h: Handle)
    requires NoRepeats(lru) && k <= |lru| && Precedes(lru, g, h) && h in lru[..k]
    ensures Precedes(deleted + lru[..k], g, h)
  {
    var i, j :| 0 <= i < j < |lru| && lru[i] == g && lru[j] == h;
    var all := deleted + lru[..k];
    assert j < k;
    assert all[|deleted| + i] == g && all[|deleted| + j] == h;
  }

  lemma DeletedBefore(deleted: seq<Handle>, more: seq<Handle>, g: Handle, h: Handle)
    requires g in deleted && h in more
    ensures Precedes(deleted + more, g, h)
  {
    var i := IsListedAt(deleted, g);
    var j := IsListedAt(more, h);
    var all := deleted + more;
    assert all[i] == g && all[|deleted| + j] == h;
  }

  /**
   Of two unused entries the one released first is evicted first: when an insertion or a pruning
   evicts the other, its deleter has run already.
   */
  lemma OlderIsEvictedFirst(capacity: nat, ops: seq<Op>, states: seq<State>, n: nat, g: Handle, h: Handle,
      tg: nat, th: nat)
    requires IsRun(capacity, ops, states) && n < |ops| && LegalUpTo(ops, states, n + 1)
    requires UnusedSince(states, g, tg, n) && UnusedSince(states, h, th, n) && tg < th
    requires ops[n].Prune? || (ops[n].Insert? && !h.Matches(ops[n].key, ops[n].hash))
    requires h in states[n + 1].deleted
    ensures Precedes(states[n + 1].deleted, g, h)
  {
    hide Inv, Precedes, NoRepeats;
    var s, op := states[n], ops[n];
    RunKeepsInv(capacity, ops, states, n);
    assert StepAt(ops, states, n);
    UnusedIsListed(s, g);
    UnusedIsListed(s, h);
    ListedOrReplaced(s, op, g);
    ListedOrReplaced(s, op, h);
    var u := BeforeEviction(s, op);
    var k := EvictsOldestFirst(u, op.Prune?);
    if g in u.lru {
      OlderIsFirstIff(capacity, ops, states, n, g, h, tg, th);
      OlderIsFirstIff(capacity, ops, states, n, h, g, th, tg);
      OneOfThemPrecedes(u.lru, g, h);
      EvictionKeepsOrder(s, op);
      ListHasNoRepeats(u);
      FrontIsEvicted(u.lru, u.deleted, k, g, h);
    } else {
      DeletedBefore(u.deleted, u.lru[..k], g, h);
    }
  }

  lemma ListHasNoRepeats(s: State)
    requires Inv(s)
    ensures NoRepeats(s.lru)
  {
  }

  lemma EvictionKeepsOrder(s: State, op: Op)
    requires Inv(s) && (op.Insert? || op.Prune?)
    ensures KeepsOrder(s.lru, BeforeEviction(s, op).lru)
  {
    hide KeepsOrder, Inv;
    if op.Insert? {
      InsertingAges(s, op.key, op.hash, op.charge);
    } else {
      TailKeepsOrder(s.lru, 0);
      assert s.lru[0..] == s.lru;
    }
  }
}
