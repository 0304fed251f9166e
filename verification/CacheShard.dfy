/**
 The cache as the code has it (util/cache.cc:152-333): rings through the handles, a hash
 table and counters, proved to do what LruCache says.
 */
module CacheShard {
  import opened Words
  import opened Options
  import opened HashTable
  import opened Rings
  import opened LruCache

  ghost predicate RingsOk(l: Links, lru: seq<Handle>, inUse: seq<Handle>) {
    Ring(l, LRU, lru) && Ring(l, IN_USE, inUse) && Apart(LRU, lru, IN_USE, inUse)
  }

  lemma Taken(l: Links, head: Handle, s: seq<Handle>, head': Handle, s': seq<Handle>, e: Handle)
    requires Ring(l, head, s) && Ring(l, head', s') && Apart(head, s, head', s') && e in s
    ensures e in l.next && e in l.prev
    ensures Ring(l.Remove(e), head, Drop(s, e)) && Ring(l.Remove(e), head', s') && Apart(head, Drop(s, e), head', s')
    ensures forall h :: h in Drop(s, e) <==> h in s && h != e
  {
    var i := Index(s, e);
    assert PlaceOk(l, head, s, i);
    RemoveFromRing(l, head, s, i);
    RemoveElsewhere(l, head, s, i, head', s');
    DropHas(s, e);
  }

  lemma Put(l: Links, head: Handle, s: seq<Handle>, head': Handle, s': seq<Handle>, e: Handle)
    requires Ring(l, head, s) && Ring(l, head', s') && Apart(head, s, head', s') && e !in s && e !in s' && e != head
             && e != head'
    ensures Ring(l.Append(head, e), head, s + [e]) && Ring(l.Append(head, e), head', s')
            && Apart(head, s + [e], head', s')
  {
    AppendToRing(l, head, s, e);
    AppendElsewhere(l, head, s, e, head', s');
  }

  lemma ApartSwaps(head: Handle, s: seq<Handle>, head': Handle, s': seq<Handle>)
    requires Apart(head, s, head', s')
    ensures Apart(head', s', head, s)
  {
  }

  lemma MovedToInUse(l: Links, lru: seq<Handle>, inUse: seq<Handle>, e: Handle)
    requires RingsOk(l, lru, inUse) && e in lru && e.address >= 2
    ensures e in l.next && e in l.prev && IN_USE in l.Remove(e).prev
    ensures RingsOk(l.Remove(e).Append(IN_USE, e), Drop(lru, e), inUse + [e])
  {
    Taken(l, LRU, lru, IN_USE, inUse, e);
    ApartSwaps(LRU, Drop(lru, e), IN_USE, inUse);
    Put(l.Remove(e), IN_USE, inUse, LRU, Drop(lru, e), e);
    ApartSwaps(IN_USE, inUse + [e], LRU, Drop(lru, e));
  }

  lemma MovedToLru(l: Links, lru: seq<Handle>, inUse: seq<Handle>, e: Handle)
    requires RingsOk(l, lru, inUse) && e in inUse && e.address >= 2
    ensures e in l.next && e in l.prev && LRU in l.Remove(e).prev
    ensures RingsOk(l.Remove(e).Append(LRU, e), lru + [e], Drop(inUse, e))
  {
    ApartSwaps(LRU, lru, IN_USE, inUse);
    Taken(l, IN_USE, inUse, LRU, lru, e);
    ApartSwaps(IN_USE, Drop(inUse, e), LRU, lru);
    Put(l.Remove(e), LRU, lru, IN_USE, Drop(inUse, e), e);
  }

  lemma TakenOff(l: Links, lru: seq<Handle>, inUse: seq<Handle>, e: Handle)
    requires RingsOk(l, lru, inUse) && (e in lru || e in inUse)
    ensures e in l.next && e in l.prev
    ensures RingsOk(l.Remove(e), if e in lru then Drop(lru, e) else lru, if e in lru then inUse else Drop(inUse, e))
  {
    if e in lru {
      Taken(l, LRU, lru, IN_USE, inUse, e);
    } else {
      ApartSwaps(LRU, lru, IN_USE, inUse);
      Taken(l, IN_USE, inUse, LRU, lru, e);
      ApartSwaps(IN_USE, Drop(inUse, e), LRU, lru);
    }
  }

  lemma PutInUse(l: Links, lru: seq<Handle>, inUse: seq<Handle>, e: Handle)
    requires RingsOk(l, lru, inUse) && e !in lru && e !in inUse && e.address >= 2
    ensures IN_USE in l.prev && RingsOk(l.Append(IN_USE, e), lru, inUse + [e])
  {
    ApartSwaps(LRU, lru, IN_USE, inUse);
    Put(l, IN_USE, inUse, LRU, lru, e);
    ApartSwaps(IN_USE, inUse + [e], LRU, lru);
  }

  lemma ReplaceInSet(c: set<Handle>, g: Handle, h: Handle)
    requires g in c && h !in c
    ensures c - {g} + {h} == c + {h} - {g}
  {
  }

  lemma ReleaseIsReady(s: State, e: Handle)
    requires Inv(s) && e in s.held
    ensures e in s.refs && s.refs[e] > 0 && (e in s.cached && s.refs[e] == 2 ==> e in s.inUse && e.address >= 2)
    ensures Inv(Released(s, e)) && Released(s, e) == LruCache.Release(s, e)
  {
    hide UniqueKeys, Charge;
    assert s.held[e] > 0;
  }

  class LRUCache {
    const capacity: nat
    const table: HandleTable
    var usage: int
    var links: Links
    var refs: map<Handle, nat>
    var inCache: set<Handle>
    var deleted: seq<Handle>
    var nextAddress: nat
    ghost var lru: seq<Handle>
    ghost var inUse: seq<Handle>
    ghost var held: multiset<Handle>
    ghost var issued: set<Handle>

    ghost function View(): State
      reads this
    {
      State(capacity, usage, refs, inCache, lru, inUse, held, deleted, issued, nextAddress)
    }

    ghost predicate Valid()
      reads this, table
    {
      Inv(View()) && RingsOk(links, lru, inUse) && table.Valid() && table.contents == inCache
    }

    constructor (capacity: nat)
      ensures Valid() && View() == Empty(capacity) && fresh(table)
    {
      this.capacity := capacity;
      table := new HandleTable();
      usage, refs, inCache, deleted, nextAddress := 0, map[], {}, [], 2;
      links := Links(map[LRU := LRU, IN_USE := IN_USE], map[LRU := LRU, IN_USE := IN_USE]);
      lru, inUse, held, issued := [], [], multiset{}, {};
    }

    // LRU_Remove and LRU_Append on the two lists.

    method MoveToInUse(e: Handle)
      requires RingsOk(links, lru, inUse) && e in lru && e.address >= 2
      modifies this`links, this`lru, this`inUse
      ensures RingsOk(links, lru, inUse) && lru == Drop(old(lru), e) && inUse == old(inUse) + [e]
    {
      MovedToInUse(links, lru, inUse, e);
      links := links.Remove(e);
      links := links.Append(IN_USE, e);
      lru, inUse := Drop(lru, e), inUse + [e];
    }

    method MoveToLru(e: Handle)
      requires RingsOk(links, lru, inUse) && e in inUse && e.address >= 2
      modifies this`links, this`lru, this`inUse
      ensures RingsOk(links, lru, inUse) && lru == old(lru) + [e] && inUse == Drop(old(inUse), e)
    {
      MovedToLru(links, lru, inUse, e);
      links := links.Remove(e);
      links := links.Append(LRU, e);
      lru, inUse := lru + [e], Drop(inUse, e);
    }

    method TakeOff(e: Handle)
      requires RingsOk(links, lru, inUse) && (e in lru || e in inUse)
      modifies this`links, this`lru, this`inUse
      ensures RingsOk(links, lru, inUse)
      ensures lru == if e in old(lru) then Drop(old(lru), e) else old(lru)
      ensures inUse == if e in old(lru) then old(inUse) else Drop(old(inUse), e)
    {
      TakenOff(links, lru, inUse, e);
      links := links.Remove(e);
      lru, inUse := if e in lru then Drop(lru, e) else lru, if e in lru then inUse else Drop(inUse, e);
    }

    method AppendInUse(e: Handle)
      requires RingsOk(links, lru, inUse) && e !in lru && e !in inUse && e.address >= 2
      modifies this`links, this`inUse
      ensures RingsOk(links, lru, inUse) && inUse == old(inUse) + [e]
    {
      PutInUse(links, lru, inUse, e);
      links := links.Append(IN_USE, e);
      inUse := inUse + [e];
    }

    /** Adds a reference, and moves the handle to the in-use list if the cache had the only one. */
    method Ref(e: Handle)
      requires RingsOk(links, lru, inUse) && e in refs && (e in inCache && refs[e] == 1 ==> e in lru && e.address >= 2)
      modifies this`refs, this`held, this`links, this`lru, this`inUse
      ensures View() == LruCache.Ref(old(View()), e) && RingsOk(links, lru, inUse)
    {
      if refs[e] == 1 && e in inCache {
        MoveToInUse(e);
      }
      refs := refs[e := refs[e] + 1];
      held := held + multiset{e};
    }

    /** Frees a handle nobody refers to any more. */
    method Deallocate(e: Handle)
      requires e in refs
      modifies this`refs, this`deleted
      ensures View() == old(View()).(refs := old(refs) - {e}, deleted := old(deleted) + [e])
    {
      refs := refs - {e};
      deleted := deleted + [e];
    }

    method DropReference(e: Handle)
      requires e in refs && refs[e] > 1
      modifies this`refs
      ensures View() == old(View()).(refs := old(refs)[e := old(refs[e]) - 1])
    {
      refs := refs[e := refs[e] - 1];
    }

    /** Takes a reference away: calls the deleter with the last one, or moves the handle to the LRU list. */
    method Unref(e: Handle)
      requires e in refs && refs[e] > 0 && (e in inCache && refs[e] == 2 ==> e in inUse && e.address >= 2)
      requires RingsOk(links, lru, inUse)
      modifies this`refs, this`deleted, this`links, this`lru, this`inUse
      ensures View() == LruCache.Unref(old(View()), e) && RingsOk(links, lru, inUse)
    {
      if refs[e] == 1 {
        Deallocate(e);
      } else {
        DropReference(e);
        if e in inCache && refs[e] == 1 {
          MoveToLru(e);
        }
      }
    }

    method Release(e: Handle)
      requires Valid() && e in held
      modifies this
      ensures Valid() && View() == Released(old(View()), e)
    {
      hide RingsOk, Inv, Released;
      ReleaseIsReady(View(), e);
      Unref(e);
      held := held - multiset{e};
    }

    method Lookup(key: Key, hash: uint32) returns (e: Option<Handle>)
      requires Valid()
      modifies this
      ensures Valid() && e == FoundIn(old(inCache), key, hash) && View() == LookedUp(old(View()), key, hash)
    {
      hide RingsOk, Drop;
      e := table.Lookup(key, hash);
      FoundIsListed(View(), key, hash);
      if e.Some? {
        RefKeepsInv(View(), e.value);
        Ref(e.value);
      }
    }

    /** Takes an entry that is no longer in the hash table off its list. */
    method Unlist(e: Handle)
      requires RingsOk(links, lru, inUse) && (e in lru || e in inUse)
      modifies this`inCache, this`usage, this`links, this`lru, this`inUse
      ensures View() == Unlisted(old(View()), e) && RingsOk(links, lru, inUse)
    {
      hide RingsOk, Drop;
      TakeOff(e);
      inCache, usage := inCache - {e}, usage - e.charge;
    }

    method FinishErase(e: Handle)
      requires RingsOk(links, lru, inUse) && (e in lru || e in inUse) && e in refs && refs[e] > 0
      modifies this
      ensures View() == LruCache.FinishErase(old(View()), e) && RingsOk(links, lru, inUse)
    {
      Unlist(e);
      Unref(e);
    }

    method Erase(key: Key, hash: uint32)
      requires Valid()
      modifies this, table
      ensures Valid() && View() == Erased(old(View()), key, hash)
    {
      FoundIsListed(View(), key, hash);
      var e := table.Remove(key, hash);
      if e.Some? {
        FinishEraseKeepsBalance(View(), e.value);
        FinishErase(e.value);
      }
    }

    /** One turn of the eviction loops: the oldest entry is removed. */
    method EvictOldest()
      requires Valid() && links.next[LRU] != LRU
      modifies this, table
      ensures Valid() && old(lru) != [] && old(lru[0]) in old(refs)
      ensures View() == LruCache.FinishErase(old(View()), old(lru[0])) && lru == old(lru)[1..]
    {
      OldestErased(View());
      var e := links.next[LRU];
      assert e == lru[0] && FoundIn(inCache, e.key, e.hash) == Some(e);
      var removed := table.Remove(e.key, e.hash);
      FinishErase(e);
    }

    method Prune()
      requires Valid()
      modifies this, table
      ensures Valid() && View() == Evicted(old(View()), true)
    {
      ghost var pruned := Evicted(View(), true);
      while links.next[LRU] != LRU
        invariant Valid() && Evicted(View(), true) == pruned
        decreases |lru|
      {
        EvictOldest();
      }
    }

    /** The new entry, with the counts of a client and, unless caching is off, of the cache. */
    method Allocate(key: Key, hash: uint32, charge: nat) returns (e: Handle)
      requires RingsOk(links, lru, inUse) && nextAddress >= 2
      requires forall h :: h in lru || h in inUse ==> h.address < nextAddress
      modifies this
      ensures e == NewHandle(old(View()), key, hash, charge) && View() == Added(old(View()), e)
              && RingsOk(links, lru, inUse)
    {
      hide RingsOk;
      e := Handle(nextAddress, key, hash, charge);
      nextAddress, held, issued := nextAddress + 1, held + multiset{e}, issued + {e};
      if capacity > 0 {
        PutInCache(e);
      } else {
        refs := refs[e := 1];
      }
    }

    /** The cache's own reference to a new entry. */
    method PutInCache(e: Handle)
      requires RingsOk(links, lru, inUse) && e !in lru && e !in inUse && e.address >= 2
      modifies this`refs, this`inCache, this`usage, this`links, this`inUse
      ensures RingsOk(links, lru, inUse) && inUse == old(inUse) + [e]
      ensures refs == old(refs)[e := 2] && inCache == old(inCache) + {e} && usage == old(usage) + e.charge
    {
      refs, inCache, usage := refs[e := 2], inCache + {e}, usage + e.charge;
      AppendInUse(e);
    }

    method PutInTable(e: Handle)
      requires RingsOk(links, lru, inUse) && table.Valid() && e !in table.contents && inCache == table.contents + {e}
      requires var replaced := FoundIn(table.contents, e.key, e.hash);
               replaced.Some? ==>
                 && (replaced.value in lru || replaced.value in inUse)
                 && replaced.value in refs && refs[replaced.value] > 0
      modifies this, table
      ensures RingsOk(links, lru, inUse) && table.Valid() && table.contents == inCache
      ensures var replaced := FoundIn(old(table.contents), e.key, e.hash);
              View() == if replaced.Some? then LruCache.FinishErase(old(View()), replaced.value) else old(View())
    {
      hide RingsOk, Drop;
      ghost var s, before := View(), table.contents;
      var replaced := table.Insert(e);
      if replaced.Some? {
        ReplaceInSet(before, replaced.value, e);
        FinishErase(replaced.value);
        assert inCache == s.cached - {replaced.value};
      }
    }

    /** The first part of Insert: the new entry, in place of one with its key. */
    method Add(key: Key, hash: uint32, charge: nat) returns (e: Handle)
      requires Valid()
      modifies this, table
      ensures Valid() && e == NewHandle(old(View()), key, hash, charge)
              && View() == Inserted(old(View()), key, hash, charge)
    {
      InsertedInSteps(View(), key, hash, charge);
      e := Allocate(key, hash, charge);
      if capacity > 0 {
        PutInTable(e);
      }
    }

    method Insert(key: Key, hash: uint32, charge: nat) returns (e: Handle)
      requires Valid()
      modifies this, table
      ensures Valid() && View() == Evicted(Inserted(old(View()), key, hash, charge), false)
      ensures usage <= capacity || lru == []
    {
      ghost var s := View();
      e := Add(key, hash, charge);
      ghost var evicted := Evicted(View(), false);
      while usage > capacity && links.next[LRU] != LRU
        invariant Valid() && Evicted(View(), false) == evicted
        decreases |lru|
      {
        EvictOldest();
      }
    }
  }
}
