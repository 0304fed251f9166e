/**
 What each operation of the cache does to what is cached and to what clients hold, without
 its lists and counters (include/leveldb/cache.h).
 */
module LruOperations {
  import opened Words
  import opened Options
  import opened HashTable
  import opened Rings
  import opened LruCache

  /** The cached handles with another key. */
  ghost function Others(cached: set<Handle>, key: Key, hash: uint32): set<Handle> {
    set h | h in cached && !h.Matches(key, hash)
  }

  lemma OthersAre(cached: set<Handle>, key: Key, hash: uint32)
    requires UniqueKeys(cached)
    ensures var e := FoundIn(cached, key, hash);
            Others(cached, key, hash) == if e.Some? then cached - {e.value} else cached
    ensures FoundIn(Others(cached, key, hash), key, hash) == None
  {
  }

  lemma FinishedIs(s: State, e: Handle)
    requires (e in s.lru || e in s.inUse) && e in s.refs && s.refs[e] > 0
    ensures FinishErase(s, e).cached == s.cached - {e} && FinishErase(s, e).held == s.held
  {
  }

  /** Erase: nothing with the key is cached, and nothing else changes. */
  lemma EraseTakesOut(s: State, key: Key, hash: uint32)
    requires Inv(s)
    ensures var t := Apply(s, EraseKey(key, hash));
            t.cached == Others(s.cached, key, hash) && t.held == s.held && FoundIn(t.cached, key, hash) == None
  {
    OthersAre(s.cached, key, hash);
    FoundIsListed(s, key, hash);
    var e := FoundIn(s.cached, key, hash);
    if e.Some? {
      FinishedIs(s, e.value);
    }
  }

  /** Lookup: the client holds the handle that is found once more. */
  lemma LookupGivesHandle(s: State, key: Key, hash: uint32)
    requires Inv(s)
    ensures var t, e := Apply(s, Lookup(key, hash)), FoundIn(s.cached, key, hash);
            t.cached == s.cached && t.held == if e.Some? then s.held + multiset{e.value} else s.held
  {
    FoundIsListed(s, key, hash);
  }

  /** Release: the client holds the handle once less. */
  lemma ReleaseTakesHandle(s: State, e: Handle)
    requires Inv(s) && e in s.held
    ensures var t := Apply(s, ReleaseHandle(e));
            t.cached == s.cached && t.held == s.held - multiset{e}
  {
    hide Counted, Listed, Deleted, Charge, UniqueKeys;
    ReleaseKeepsCounts(s, e);
  }

  /** Insert, before it evicts: the new handle is held, and cached in place of any with its key. */
  lemma InsertedIsCached(s: State, key: Key, hash: uint32, charge: nat)
    requires Inv(s)
    ensures var t, h := Inserted(s, key, hash, charge), NewHandle(s, key, hash, charge);
            && h !in s.issued && h.key == key && h.hash == hash && h.charge == charge
            && t.held == s.held + multiset{h}
            && t.cached == if s.capacity > 0 then Others(s.cached, key, hash) + {h} else s.cached
    ensures s.capacity > 0 ==>
              FoundIn(Inserted(s, key, hash, charge).cached, key, hash) == Some(NewHandle(s, key, hash, charge))
  {
    hide Counted, Listed, Charge, FinishErase;
    var h, e := NewHandle(s, key, hash, charge), FoundIn(s.cached, key, hash);
    OthersAre(s.cached, key, hash);
    InsertedInSteps(s, key, hash, charge);
    AddedKeepsBalance(s, h);
    if s.capacity > 0 && e.Some? {
      FinishedIs(Added(s, h), e.value);
    }
  }

  /** Evicting takes entries out that no client holds. */
  lemma {:induction false} EvictedIs(s: State, all: bool)
    requires Inv(s)
    ensures var t := Evicted(s, all);
            && t.held == s.held
            && forall h :: h in t.cached <==> h in s.cached && (h in s.lru ==> h in t.lru)
    decreases |s.lru|
  {
    if (all || s.usage > s.capacity) && s.lru != [] {
      var u := s.lru[0];
      OldestErased(s);
      FinishedIs(s, u);
      EvictedIs(FinishErase(s, u), all);
    }
  }

  /** Prune: what stays cached is what clients hold. */
  lemma PruneKeepsHeld(s: State)
    requires Inv(s)
    ensures var t := Apply(s, Prune);
            t.held == s.held && forall h :: h in t.cached <==> h in s.cached && h in s.held
  {
    hide Deleted, Charge, UniqueKeys;
    EvictedIs(s, true);
    var k := EvictsOldestFirst(s, true);
  }
}
