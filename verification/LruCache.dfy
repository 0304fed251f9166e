/**
 The cache (util/cache.cc, class LRUCache). What its operations do is first given on values,
 together with what every run of them keeps; the class then does it with rings and a table.
 */
module LruCache {
  import opened Words
  import opened Options
  import opened HashTable
  import opened Rings

  /** The dummy heads of the two lists. */
  const LRU := Handle(0, "", 0, 0)
  const IN_USE := Handle(1, "", 0, 0)

  /**
   `refs` has the handles that are allocated; `cached` those with in_cache set; `held` the
   handles clients were given and have not released; `deleted` the deleter calls so far.
   */
  datatype State = State(capacity: nat, usage: int, refs: map<Handle, nat>, cached: set<Handle>,
                         lru: seq<Handle>, inUse: seq<Handle>, held: multiset<Handle>, deleted: seq<Handle>,
                         issued: set<Handle>, nextAddress: nat)

  function Charge(s: seq<Handle>): nat {
    if s == [] then 0 else s[0].charge + Charge(s[1..])
  }

  function Index(s: seq<Handle>, e: Handle): (i: nat)
    requires e in s
    ensures i < |s| && s[i] == e
  {
    if s[0] == e then 0 else Index(s[1..], e) + 1
  }

  function Drop(s: seq<Handle>, e: Handle): seq<Handle>
    requires e in s
  {
    Without(s, Index(s, e))
  }

  lemma {:induction false} ChargeAppend(a: seq<Handle>, b: seq<Handle>)
    ensures Charge(a + b) == Charge(a) + Charge(b)
  {
    if a == [] {
      assert a + b == b;
    } else {
      assert (a + b)[1..] == a[1..] + b;
      ChargeAppend(a[1..], b);
    }
  }

  lemma ChargeDrop(s: seq<Handle>, e: Handle)
    requires e in s
    ensures Charge(s) == Charge(Drop(s, e)) + e.charge
  {
    var i := Index(s, e);
    ChargeAppend(s[..i], s[i..]);
    ChargeAppend(s[..i], s[i + 1..]);
    assert s == s[..i] + s[i..] && s[i..][1..] == s[i + 1..];
  }

  // ---- What every run keeps

  ghost predicate UniqueKeys(handles: set<Handle>) {
    forall g, h :: g in handles && h in handles && g.Matches(h.key, h.hash) ==> g == h
  }

  /** References are counted: one for the cache and one for each time a client holds the handle. */
  ghost predicate Counted(s: State) {
    && (forall h {:trigger h in s.refs} :: h in s.refs ==>
       s.refs[h] == s.held[h] + (if h in s.cached then 1 else 0) && s.refs[h] > 0)
    && (forall h {:trigger s.held[h]} :: h in s.held ==> h in s.refs)
    && (forall h {:trigger h in s.cached} :: h in s.cached ==> h in s.refs)
  }

  /** A cached handle is on exactly one list: with the oldest first if only the cache refers to it, else in use. */
  ghost predicate Listed(s: State) {
    && NoRepeats(s.lru) && NoRepeats(s.inUse)
    && (forall h {:trigger h in s.lru} :: h in s.lru <==> h in s.cached && h in s.refs && s.refs[h] == 1)
    && (forall h {:trigger h in s.inUse} :: h in s.inUse <==> h in s.cached && h in s.refs && s.refs[h] >= 2)
  }

  /** Every handle is allocated still or has had its deleter run, once. */
  ghost predicate Deleted(s: State) {
    && s.nextAddress >= 2 && NoRepeats(s.deleted)
    && (forall h {:trigger h in s.refs} :: h in s.refs ==> 2 <= h.address < s.nextAddress && h !in s.deleted)
    && (forall h {:trigger h in s.deleted} :: h in s.deleted ==> 2 <= h.address < s.nextAddress)
    && (forall h {:trigger h in s.issued} :: h in s.issued <==> h in s.refs || h in s.deleted)
  }

  ghost predicate Balanced(s: State) {
    Counted(s) && Listed(s) && Deleted(s) && s.usage == Charge(s.lru) + Charge(s.inUse)
  }

  ghost predicate Inv(s: State) {
    Balanced(s) && UniqueKeys(s.cached)
  }

  // ---- The operations

  function Empty(capacity: nat): State {
    State(capacity, 0, map[], {}, [], [], multiset{}, [], {}, 2)
  }

  /** Gives a handle to a client. */
  function Ref(s: State, e: Handle): State
    requires e in s.refs && (e in s.cached && s.refs[e] == 1 ==> e in s.lru)
  {
    var t := s.(refs := s.refs[e := s.refs[e] + 1], held := s.held + multiset{e});
    if s.refs[e] == 1 && e in s.cached then t.(lru := Drop(s.lru, e), inUse := s.inUse + [e]) else t
  }

  function Unref(s: State, e: Handle): State
    requires e in s.refs && s.refs[e] > 0 && (e in s.cached && s.refs[e] == 2 ==> e in s.inUse)
  {
    if s.refs[e] == 1 then
      s.(refs := s.refs - {e}, deleted := s.deleted + [e])
    else
      var t := s.(refs := s.refs[e := s.refs[e] - 1]);
      if e in s.cached && s.refs[e] == 2 then t.(inUse := Drop(s.inUse, e), lru := s.lru + [e]) else t
  }

  function Release(s: State, e: Handle): State
    requires e in s.refs && s.refs[e] > 0 && (e in s.cached && s.refs[e] == 2 ==> e in s.inUse)
  {
    Unref(s, e).(held := s.held - multiset{e})
  }

  /** Takes a handle off its list and out of the accounts. */
  function Unlisted(s: State, e: Handle): State
    requires e in s.lru || e in s.inUse
  {
    var t := s.(cached := s.cached - {e}, usage := s.usage - e.charge);
    if e in s.lru then t.(lru := Drop(s.lru, e)) else t.(inUse := Drop(s.inUse, e))
  }

  function FinishErase(s: State, e: Handle): State
    requires (e in s.lru || e in s.inUse) && e in s.refs && s.refs[e] > 0
  {
    Unref(Unlisted(s, e), e)
  }

  /** A new entry, in the cache unless caching is turned off. */
  function Added(s: State, h: Handle): State {
    var t := s.(held := s.held + multiset{h}, issued := s.issued + {h}, nextAddress := s.nextAddress + 1);
    if s.capacity > 0 then
      t.(refs := s.refs[h := 2], cached := s.cached + {h}, inUse := s.inUse + [h], usage := s.usage + h.charge)
    else
      t.(refs := s.refs[h := 1])
  }

  // ---- What they keep

  lemma EmptyKeepsInv(capacity: nat)
    ensures Inv(Empty(capacity))
  {
  }

  lemma DropHas(s: seq<Handle>, e: Handle)
    requires e in s && NoRepeats(s)
    ensures NoRepeats(Drop(s, e)) && forall h :: h in Drop(s, e) <==> h in s && h != e
  {
    WithoutHas(s, Index(s, e));
  }

  lemma AppendHas(s: seq<Handle>, e: Handle)
    requires e !in s && NoRepeats(s)
    ensures NoRepeats(s + [e]) && forall h :: h in s + [e] <==> h in s || h == e
  {
    forall i, j | 0 <= i < j < |s + [e]| ensures (s + [e])[i] != (s + [e])[j] {
      assert s[i] in s;
    }
  }

  lemma RefKeepsCounts(s: State, e: Handle)
    requires Inv(s) && e in s.refs
    ensures s.refs[e] > 0 && (e in s.cached && s.refs[e] == 1 ==> e in s.lru)
    ensures Counted(Ref(s, e)) && Deleted(Ref(s, e))
  {
    hide UniqueKeys, Charge, NoRepeats;
  }

  lemma RefKeepsLists(s: State, e: Handle)
    requires Inv(s) && e in s.refs
    ensures e in s.cached && s.refs[e] == 1 ==> e in s.lru
    ensures Listed(Ref(s, e)) && Ref(s, e).usage == Charge(Ref(s, e).lru) + Charge(Ref(s, e).inUse)
  {
    hide UniqueKeys, Counted, Deleted, NoRepeats;
    RefKeepsCounts(s, e);
    if s.refs[e] == 1 && e in s.cached {
      DropHas(s.lru, e);
      ChargeDrop(s.lru, e);
      AppendHas(s.inUse, e);
      ChargeAppend(s.inUse, [e]);
    }
  }

  lemma RefKeepsInv(s: State, e: Handle)
    requires Inv(s) && e in s.refs
    ensures Inv(Ref(s, e))
  {
    hide Counted, Listed, Deleted, Charge, UniqueKeys;
    RefKeepsCounts(s, e);
    RefKeepsLists(s, e);
  }

  lemma ReleaseKeepsCounts(s: State, e: Handle)
    requires Inv(s) && e in s.held
    ensures e in s.refs && Counted(Release(s, e)) && Deleted(Release(s, e))
  {
    hide UniqueKeys, Charge, Listed, NoRepeats, Drop;
    assert s.held[e] > 0 && e in s.refs;
    if s.refs[e] == 1 {
      AppendHas(s.deleted, e);
    }
  }

  lemma ReleaseKeepsLists(s: State, e: Handle)
    requires Inv(s) && e in s.held
    ensures e in s.refs && Listed(Release(s, e)) && Release(s, e).usage ==
            Charge(Release(s, e).lru) + Charge(Release(s, e).inUse)
  {
    hide UniqueKeys;
    assert s.held[e] > 0 && e in s.refs;
    if s.refs[e] == 2 && e in s.cached {
      DropHas(s.inUse, e);
      ChargeDrop(s.inUse, e);
      AppendHas(s.lru, e);
      ChargeAppend(s.lru, [e]);
    }
  }

  lemma ReleaseKeepsInv(s: State, e: Handle)
    requires Inv(s) && e in s.held
    ensures e in s.refs && Inv(Release(s, e))
  {
    ReleaseKeepsCounts(s, e);
    ReleaseKeepsLists(s, e);
  }

  lemma FinishEraseKeepsCounts(s: State, e: Handle)
    requires Balanced(s) && e in s.cached
    ensures e in s.refs && (e in s.lru || e in s.inUse)
    ensures Counted(FinishErase(s, e)) && Deleted(FinishErase(s, e))
    ensures FinishErase(s, e).deleted == s.deleted + if e in s.held then [] else [e]
  {
    assert e in s.refs && (e in s.lru || e in s.inUse);
    if s.refs[e] == 1 {
      AppendHas(s.deleted, e);
    }
  }

  lemma FinishEraseKeepsLists(s: State, e: Handle)
    requires Balanced(s) && e in s.cached
    ensures e in s.refs && (e in s.lru || e in s.inUse)
    ensures Listed(FinishErase(s, e)) && FinishErase(s, e).usage ==
            Charge(FinishErase(s, e).lru) + Charge(FinishErase(s, e).inUse)
  {
    assert e in s.refs && (e in s.lru || e in s.inUse);
    if e in s.lru {
      DropHas(s.lru, e);
      ChargeDrop(s.lru, e);
    } else {
      DropHas(s.inUse, e);
      ChargeDrop(s.inUse, e);
    }
  }

  /** Erasing keeps the books, and runs the deleter just if no client holds the handle. */
  lemma FinishEraseKeepsBalance(s: State, e: Handle)
    requires Balanced(s) && e in s.cached
    ensures e in s.refs && (e in s.lru || e in s.inUse)
    ensures Balanced(FinishErase(s, e)) && FinishErase(s, e).cached == s.cached - {e}
    ensures FinishErase(s, e).deleted == s.deleted + if e in s.held then [] else [e]
  {
    FinishEraseKeepsCounts(s, e);
    FinishEraseKeepsLists(s, e);
  }

  lemma AddedKeepsCounts(s: State, h: Handle)
    requires Balanced(s) && h.address == s.nextAddress
    ensures h !in s.refs && h !in s.cached && Counted(Added(s, h)) && Deleted(Added(s, h))
  {
    hide Listed, Charge, UniqueKeys, NoRepeats, Deleted;
    AddedKeepsDeleted(s, h);
    assert s.held[h] == 0;
  }

  lemma AddedKeepsDeleted(s: State, h: Handle)
    requires Balanced(s) && h.address == s.nextAddress
    ensures h !in s.refs && Deleted(Added(s, h))
  {
    hide Listed, Charge, Counted, NoRepeats;
  }

  lemma AddedKeepsLists(s: State, h: Handle)
    requires Balanced(s) && h.address == s.nextAddress
    ensures Listed(Added(s, h)) && Added(s, h).usage == Charge(Added(s, h).lru) + Charge(Added(s, h).inUse)
  {
    assert h !in s.refs && h !in s.inUse && h !in s.lru;
    AppendHas(s.inUse, h);
    ChargeAppend(s.inUse, [h]);
  }

  lemma AddedKeepsBalance(s: State, h: Handle)
    requires Balanced(s) && h.address == s.nextAddress
    ensures Balanced(Added(s, h)) && h !in s.cached
  {
    AddedKeepsCounts(s, h);
    AddedKeepsLists(s, h);
  }

  function NewHandle(s: State, key: Key, hash: uint32, charge: nat): Handle {
    Handle(s.nextAddress, key, hash, charge)
  }

  /** With the new entry in, the one with its key can be taken out, and then the keys are unique. */
  lemma InsertKeepsInv(s: State, h: Handle)
    requires Inv(s) && h.address == s.nextAddress
    ensures var t, replaced := Added(s, h), FoundIn(s.cached, h.key, h.hash);
      if s.capacity > 0 && replaced.Some? then
        var e := replaced.value;
        (e in t.lru || e in t.inUse) && e in t.refs && t.refs[e] > 0 && Inv(FinishErase(t, e))
      else Inv(t)
  {
    hide Counted, Listed, Deleted, Charge;
    var t, replaced := Added(s, h), FoundIn(s.cached, h.key, h.hash);
    AddedKeepsBalance(s, h);
    if s.capacity > 0 && replaced.Some? {
      BalancedIsCounted(t, replaced.value);
      FinishEraseKeepsBalance(t, replaced.value);
    }
  }

  lemma BalancedIsCounted(s: State, e: Handle)
    requires Balanced(s) && e in s.cached
    ensures e in s.refs && s.refs[e] > 0
  {
  }

  /** A new entry in place of one with its key. */
  ghost function Inserted(s: State, key: Key, hash: uint32, charge: nat): (t: State)
    requires Inv(s)
    ensures Inv(t)
  {
    var h, replaced := NewHandle(s, key, hash, charge), FoundIn(s.cached, key, hash);
    InsertKeepsInv(s, h);
    var t := Added(s, h);
    if s.capacity > 0 && replaced.Some? then
      FinishErase(t, replaced.value)
    else
      t
  }

  /** How the code gets to Inserted: add the entry, then finish erasing the one it replaced. */
  lemma InsertedInSteps(s: State, key: Key, hash: uint32, charge: nat)
    requires Inv(s)
    ensures var h, replaced := NewHandle(s, key, hash, charge), FoundIn(s.cached, key, hash);
            var t := Added(s, h);
            && h !in s.cached && (forall g :: g in s.lru || g in s.inUse ==> g.address < s.nextAddress)
            && if s.capacity > 0 && replaced.Some? then
                 var e := replaced.value;
                 && (e in t.lru || e in t.inUse) && e in t.refs && t.refs[e] > 0
                 && Inserted(s, key, hash, charge) == FinishErase(t, e) && FinishErase(t, e).cached == t.cached - {e}
               else Inserted(s, key, hash, charge) == t
  {
    var h, replaced := NewHandle(s, key, hash, charge), FoundIn(s.cached, key, hash);
    AddedKeepsBalance(s, h);
    if s.capacity > 0 && replaced.Some? {
      FinishEraseKeepsBalance(Added(s, h), replaced.value);
    }
  }

  lemma OldestIsFree(s: State)
    requires Balanced(s) && s.lru != []
    ensures var e := s.lru[0];
            e in s.cached && e in s.refs && s.refs[e] == 1 && e !in s.held && Drop(s.lru, e) == s.lru[1..]
  {
    hide Charge;
    assert s.lru[0] in s.lru;
    assert Drop(s.lru, s.lru[0]) == s.lru[..0] + s.lru[1..];
  }

  lemma OldestErased(s: State)
    requires Inv(s) && s.lru != []
    ensures var e := s.lru[0];
            && e in s.cached && e in s.refs
            && FinishErase(s, e) == s.(cached := s.cached - {e}, usage := s.usage - e.charge, lru := s.lru[1..],
                                       refs := s.refs - {e}, deleted := s.deleted + [e])
            && Inv(FinishErase(s, e))
  {
    hide Counted, Listed, Deleted, Charge, Drop;
    OldestIsFree(s);
    FinishEraseKeepsBalance(s, s.lru[0]);
  }

  /** Evicts the oldest entries that only the cache refers to: all of them, or as long as there is too much. */
  ghost function Evicted(s: State, all: bool): (t: State)
    requires Inv(s)
    ensures Inv(t)
    decreases |s.lru|
  {
    if (all || s.usage > s.capacity) && s.lru != [] then
      OldestErased(s);
      Evicted(FinishErase(s, s.lru[0]), all)
    else
      s
  }

  /** State `t` is `s` without its `k` oldest unused entries: all of them, or the fewest that make the rest fit. */
  ghost predicate EvictedTo(s: State, t: State, all: bool, k: nat) {
    && k <= |s.lru| && t.lru == s.lru[k..] && t.inUse == s.inUse && t.capacity == s.capacity
    && t.deleted == s.deleted + s.lru[..k] && t.usage == s.usage - Charge(s.lru[..k])
    && (if all then k == |s.lru| else t.usage <= s.capacity || k == |s.lru|)
    && (!all ==> forall j :: 0 <= j < k ==> s.usage - Charge(s.lru[..j]) > s.capacity)
  }

  lemma ChargeOfFirst(s: seq<Handle>, k: nat)
    requires 0 < k <= |s|
    ensures s[..k] == [s[0]] + s[1..][..k - 1] && Charge(s[..k]) == s[0].charge + Charge(s[1..][..k - 1])
  {
    assert s[..k][1..] == s[1..][..k - 1];
  }

  lemma OneMoreEvicted(s: State, u: State, t: State, all: bool, k: nat)
    requires s.lru != [] && (all || s.usage > s.capacity) && EvictedTo(u, t, all, k)
    requires u.lru == s.lru[1..] && u.inUse == s.inUse && u.capacity == s.capacity
    requires u.deleted == s.deleted + [s.lru[0]] && u.usage == s.usage - s.lru[0].charge
    ensures EvictedTo(s, t, all, k + 1)
  {
    ChargeOfFirst(s.lru, k + 1);
    assert s.deleted + [s.lru[0]] + u.lru[..k] == s.deleted + ([s.lru[0]] + u.lru[..k]);
    forall j | 0 <= j < k + 1 && !all ensures s.usage - Charge(s.lru[..j]) > s.capacity {
      if j > 0 {
        ChargeOfFirst(s.lru, j);
      }
    }
  }

  lemma OldestEvicted(s: State, all: bool) returns (u: State)
    requires Inv(s) && s.lru != [] && (all || s.usage > s.capacity)
    ensures Inv(u) && Evicted(u, all) == Evicted(s, all)
    ensures u.lru == s.lru[1..] && u.inUse == s.inUse && u.capacity == s.capacity
    ensures u.deleted == s.deleted + [s.lru[0]] && u.usage == s.usage - s.lru[0].charge
  {
    OldestErased(s);
    u := FinishErase(s, s.lru[0]);
  }

  /** Eviction goes from the oldest on, calls each deleter, and stops as soon as the rest fits. */
  lemma {:induction false} EvictsOldestFirst(s: State, all: bool) returns (k: nat)
    requires Inv(s)
    ensures EvictedTo(s, Evicted(s, all), all, k)
    decreases |s.lru|
  {
    if (all || s.usage > s.capacity) && s.lru != [] {
      var u := OldestEvicted(s, all);
      k := EvictsOldestFirst(u, all);
      OneMoreEvicted(s, u, Evicted(s, all), all, k);
      k := k + 1;
    } else {
      k := 0;
      assert s.deleted + s.lru[..0] == s.deleted;
    }
  }

  // ---- Runs

  datatype Op =
    | Insert(key: Key, hash: uint32, charge: nat)
    | Lookup(key: Key, hash: uint32)
    | ReleaseHandle(e: Handle)
    | EraseKey(key: Key, hash: uint32)
    | Prune

  /** Clients release only handles they hold. */
  ghost predicate Legal(s: State, op: Op) {
    op.ReleaseHandle? ==> op.e in s.held
  }

  lemma FoundIsListed(s: State, key: Key, hash: uint32)
    requires Inv(s)
    ensures var e := FoundIn(s.cached, key, hash);
            e.Some? ==>
              && e.value in s.cached && e.value in s.refs && s.refs[e.value] > 0
              && (e.value in s.lru || e.value in s.inUse)
  {
    var e := FoundIn(s.cached, key, hash);
    if e.Some? {
      assert e.value in s.cached && e.value in s.refs;
    }
  }

  ghost function LookedUp(s: State, key: Key, hash: uint32): (t: State)
    requires Inv(s)
    ensures Inv(t)
  {
    var e := FoundIn(s.cached, key, hash);
    FoundIsListed(s, key, hash);
    if e.Some? then RefKeepsInv(s, e.value); Ref(s, e.value) else s
  }

  ghost function Released(s: State, e: Handle): (t: State)
    requires Inv(s) && e in s.held
    ensures Inv(t)
  {
    ReleaseKeepsInv(s, e);
    Release(s, e)
  }

  ghost function Erased(s: State, key: Key, hash: uint32): (t: State)
    requires Inv(s)
    ensures Inv(t)
  {
    var e := FoundIn(s.cached, key, hash);
    FoundIsListed(s, key, hash);
    if e.Some? then FinishEraseKeepsBalance(s, e.value); FinishErase(s, e.value) else s
  }

  ghost function Apply(s: State, op: Op): (t: State)
    requires Inv(s) && Legal(s, op)
    ensures Inv(t)
  {
    match op
    case Insert(key, hash, charge) => Evicted(Inserted(s, key, hash, charge), false)
    case Lookup(key, hash) => LookedUp(s, key, hash)
    case ReleaseHandle(e) => Released(s, e)
    case EraseKey(key, hash) => Erased(s, key, hash)
    case Prune => Evicted(s, true)
  }

  /** After an insertion the charges fit, or nothing more could be evicted. */
  lemma InsertionFits(s: State, key: Key, hash: uint32, charge: nat)
    requires Inv(s)
    ensures var t := Apply(s, Insert(key, hash, charge));
            (t.usage <= s.capacity || t.lru == []) && Charge(t.lru) + Charge(t.inUse) == t.usage
  {
    var u := Inserted(s, key, hash, charge);
    var k := EvictsOldestFirst(u, false);
  }

  ghost predicate IsRun(capacity: nat, ops: seq<Op>, states: seq<State>) {
    && |states| == |ops| + 1 && states[0] == Empty(capacity)
    && forall i :: 0 <= i < |ops| ==> StepAt(ops, states, i)
  }

  ghost predicate StepAt(ops: seq<Op>, states: seq<State>, i: nat)
    requires i < |ops| && |states| == |ops| + 1
  {
    Inv(states[i]) && Legal(states[i], ops[i]) ==> states[i + 1] == Apply(states[i], ops[i])
  }

  /** In every state of every run in which clients keep to the rules, the books are in order. */
  lemma {:induction false} RunKeepsInv(capacity: nat, ops: seq<Op>, states: seq<State>, i: nat)
    requires IsRun(capacity, ops, states) && i < |states|
    requires forall j :: 0 <= j < i ==> Legal(states[j], ops[j])
    ensures Inv(states[i])
  {
    if i == 0 {
      EmptyKeepsInv(capacity);
    } else {
      RunKeepsInv(capacity, ops, states, i - 1);
      assert StepAt(ops, states, i - 1);
    }
  }

  /**
   A deleter has run once, and no client holds the handle then; when nobody holds or caches one any
   more, it has run.
   */
  lemma DeleterRunsOnce(s: State, h: Handle)
    requires Inv(s) && h in s.issued
    ensures h in s.deleted <==> h !in s.held && h !in s.cached
    ensures multiset(s.deleted)[h] <= 1
  {
    assert h in s.refs || h in s.deleted;
    assert s.held[h] >= 0;
    OccursOnce(s.deleted, h);
  }

  lemma {:induction false} OccursOnce(s: seq<Handle>, h: Handle)
    requires NoRepeats(s)
    ensures multiset(s)[h] == if h in s then 1 else 0
  {
    if s != [] {
      var t := s[..|s| - 1];
      assert s == t + [s[|s| - 1]];
      assert s[|s| - 1] !in t;
      OccursOnce(t, h);
    }
  }
}
