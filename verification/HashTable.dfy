/**
 The hash table of the cache (util/cache.cc, class HandleTable): an array of chains whose
 length is a power of two, so that the mask the code applies to a hash takes its remainder.
 A chain is a sequence; handles are told apart by the address they were allocated at.
 */
module HashTable {
  import opened Words
  import opened Options

  type Key = string

  /** The part of a cache entry that never changes. */
  datatype Handle = Handle(address: nat, key: Key, hash: uint32, charge: nat) {
    predicate Matches(k: Key, h: uint32) {
      hash == h && key == k
    }
  }

  /** Where `key` stands in a chain, or the end of the chain. */
  function Find(chain: seq<Handle>, key: Key, hash: uint32): (i: nat)
    ensures i <= |chain| && (i < |chain| ==> chain[i].Matches(key, hash))
    ensures forall j :: 0 <= j < i ==> !chain[j].Matches(key, hash)
  {
    if chain == [] || chain[0].Matches(key, hash) then 0 else Find(chain[1..], key, hash) + 1
  }

  ghost predicate Distinct(chain: seq<Handle>) {
    forall i, j :: 0 <= i < j < |chain| ==> !chain[i].Matches(chain[j].key, chain[j].hash)
  }

  function Bucket(h: uint32, length: nat): (b: nat)
    requires length > 0
    ensures b < length
  {
    h % length
  }

  /** Every chain holds just the handles of `contents` that hash to it, no key twice. */
  ghost predicate Spread(list: seq<seq<Handle>>, contents: set<Handle>) {
    && 0 < |list|
    && (forall b {:trigger list[b]} :: 0 <= b < |list| ==> Distinct(list[b]))
    && (forall b, h {:trigger h in list[b]} :: 0 <= b < |list| && h in list[b] ==>
       h in contents && Bucket(h.hash, |list|) == b)
    && (forall h {:trigger h in contents} :: h in contents ==> h in list[Bucket(h.hash, |list|)])
  }

  lemma OnlyOne(list: seq<seq<Handle>>, contents: set<Handle>, g: Handle, h: Handle)
    requires Spread(list, contents) && g in contents && h in contents && g.Matches(h.key, h.hash)
    ensures g == h
  {
    var chain := list[Bucket(h.hash, |list|)];
    var i, j :| 0 <= i < |chain| && 0 <= j < |chain| && chain[i] == g && chain[j] == h;
    assert Distinct(chain);
  }

  lemma ChainHolds(list: seq<seq<Handle>>, contents: set<Handle>, b: nat)
    requires Spread(list, contents) && b < |list|
    ensures forall h :: h in list[b] <==> h in contents && Bucket(h.hash, |list|) == b
  {
  }

  lemma NewToChain(list: seq<seq<Handle>>, contents: set<Handle>, h: Handle)
    requires Spread(list, contents) && forall g :: g in contents ==> !g.Matches(h.key, h.hash)
    ensures forall g :: g in list[Bucket(h.hash, |list|)] ==> !g.Matches(h.key, h.hash)
  {
  }

  /** At most one handle has a given key and hash, and its chain is where to look for it. */
  lemma TableFinds(list: seq<seq<Handle>>, contents: set<Handle>, key: Key, hash: uint32)
    requires Spread(list, contents)
    ensures var chain := list[Bucket(hash, |list|)];
            var i := Find(chain, key, hash);
            FoundIn(contents, key, hash) == if i < |chain| then Some(chain[i]) else None
  {
    var chain := list[Bucket(hash, |list|)];
    var i := Find(chain, key, hash);
    if i < |chain| {
      assert chain[i] in chain;
      OnlyOne(list, contents, FoundIn(contents, key, hash).value, chain[i]);
    }
  }

  lemma Replaced(list: seq<seq<Handle>>, contents: set<Handle>, i: nat, h: Handle)
    requires Spread(list, contents) && h !in contents
    requires var chain := list[Bucket(h.hash, |list|)]; i < |chain| && chain[i].Matches(h.key, h.hash)
    ensures var b := Bucket(h.hash, |list|);
            Spread(list[b := list[b][i := h]], contents - {list[b][i]} + {h})
  {
    var b := Bucket(h.hash, |list|);
    var chain, t := list[b], list[b][i := h];
    assert Distinct(chain);
    forall g | g in t ensures g in contents - {chain[i]} + {h} && Bucket(g.hash, |list|) == b {
      var j :| 0 <= j < |t| && t[j] == g;
      if j != i {
        assert chain[j] in chain;
      }
    }
    forall g | g in contents && g != chain[i] && Bucket(g.hash, |list|) == b ensures g in t {
      assert g in chain;
      var j :| 0 <= j < |chain| && chain[j] == g;
      assert t[j] == g;
    }
    assert t[i] == h;
  }

  lemma Appended(list: seq<seq<Handle>>, contents: set<Handle>, h: Handle)
    requires Spread(list, contents) && forall g :: g in list[Bucket(h.hash, |list|)] ==> !g.Matches(h.key, h.hash)
    ensures var b := Bucket(h.hash, |list|);
            Spread(list[b := list[b] + [h]], contents + {h}) && Spread(list[b := [h] + list[b]], contents + {h})
  {
    var b := Bucket(h.hash, |list|);
    var chain := list[b];
    assert Distinct(chain) && forall i :: 0 <= i < |chain| ==> chain[i] in chain;
    assert Distinct(chain + [h]) && Distinct([h] + chain);
  }

  lemma Removed(list: seq<seq<Handle>>, contents: set<Handle>, b: nat, i: nat)
    requires Spread(list, contents) && b < |list| && i < |list[b]|
    ensures Spread(list[b := list[b][..i] + list[b][i + 1..]], contents - {list[b][i]})
  {
    var chain := list[b];
    var h, t := chain[i], chain[..i] + chain[i + 1..];
    assert Distinct(chain) && h in chain;
    forall g | g in t ensures g in chain && g != h {
      var j :| 0 <= j < |t| && t[j] == g;
      assert chain[if j < i then j else j + 1] == g;
    }
    forall g | g in chain && g != h ensures g in t {
      var j :| 0 <= j < |chain| && chain[j] == g;
      assert t[if j < i then j else j - 1] == g;
    }
  }

  class HandleTable {
    var list: seq<seq<Handle>>
    var length: nat
    var elems: nat
    ghost var contents: set<Handle>

    ghost predicate Chains()
      reads this
    {
      |list| == length && Spread(list, contents) && elems == |contents|
    }

    ghost predicate Valid()
      reads this
    {
      Chains() && IsPowerOfTwo(length) && elems <= length
    }

    constructor ()
      ensures Valid() && contents == {}
    {
      list, length, elems, contents := [[], [], [], []], 4, 0, {};
      new;
      assert IsPowerOfTwo(2) && IsPowerOfTwo(4);
    }

    method Lookup(key: Key, hash: uint32) returns (h: Option<Handle>)
      requires Valid()
      ensures h == FoundIn(contents, key, hash)
    {
      hide BitAnd, IsPowerOfTwo;
      MaskIsRemainder(hash, length);
      var chain := list[BitAnd(hash, length - 1)];
      var i := Find(chain, key, hash);
      h := if i < |chain| then Some(chain[i]) else None;
      TableFinds(list, contents, key, hash);
    }

    /** Puts `h` in the place of the handle with its key, if there is one, which is returned. */
    method Insert(h: Handle) returns (replaced: Option<Handle>)
      requires Valid() && h !in contents
      modifies this
      ensures Valid() && replaced == FoundIn(old(contents), h.key, h.hash)
      ensures contents == old(contents) - (if replaced.Some? then {replaced.value} else {}) + {h}
    {
      hide BitAnd, IsPowerOfTwo;
      MaskIsRemainder(h.hash, length);
      var b := BitAnd(h.hash, length - 1);
      var chain := list[b];
      var i := Find(chain, h.key, h.hash);
      TableFinds(list, contents, h.key, h.hash);
      if i < |chain| {
        replaced := Some(chain[i]);
        Replace(h, i);
      } else {
        replaced := None;
        Append(h);
      }
    }

    method Replace(h: Handle, i: nat)
      requires Valid() && h !in contents
      requires var chain := list[Bucket(h.hash, length)]; i < |chain| && chain[i].Matches(h.key, h.hash)
      modifies this
      ensures Valid() && contents == old(contents) - {old(list[Bucket(h.hash, length)][i])} + {h}
    {
      hide BitAnd, IsPowerOfTwo;
      MaskIsRemainder(h.hash, length);
      var b := BitAnd(h.hash, length - 1);
      ghost var g := list[b][i];
      assert g in list[b];
      Replaced(list, contents, i, h);
      list := list[b := list[b][i := h]];
      contents := contents - {g} + {h};
    }

    /** Puts a handle with a new key at the end of its chain, and grows the array when it is full. */
    method Append(h: Handle)
      requires Valid() && h !in contents && FoundIn(contents, h.key, h.hash) == None
      modifies this
      ensures Valid() && contents == old(contents) + {h}
    {
      hide BitAnd, IsPowerOfTwo;
      MaskIsRemainder(h.hash, length);
      var b := BitAnd(h.hash, length - 1);
      Appended(list, contents, h);
      list := list[b := list[b] + [h]];
      elems := elems + 1;
      contents := contents + {h};
      if elems > length {
        Resize();
      }
    }

    method Remove(key: Key, hash: uint32) returns (result: Option<Handle>)
      requires Valid()
      modifies this
      ensures Valid() && result == FoundIn(old(contents), key, hash)
      ensures contents == old(contents) - (if result.Some? then {result.value} else {})
    {
      hide BitAnd, IsPowerOfTwo;
      MaskIsRemainder(hash, length);
      var b := BitAnd(hash, length - 1);
      var chain := list[b];
      var i := Find(chain, key, hash);
      TableFinds(list, contents, key, hash);
      result := None;
      if i < |chain| {
        result := Some(chain[i]);
        Removed(list, contents, b, i);
        list := list[b := chain[..i] + chain[i + 1..]];
        elems := elems - 1;
        contents := contents - {chain[i]};
      }
    }

    /** Moves every handle to the chain of its hash in an array that is long enough. */
    method Resize()
      requires Chains()
      modifies this
      ensures Valid() && contents == old(contents)
    {
      var newLength := 4;
      assert IsPowerOfTwo(2) && IsPowerOfTwo(4);
      while newLength < elems
        invariant newLength >= 4 && IsPowerOfTwo(newLength)
      {
        newLength := newLength * 2;
      }
      var newList: seq<seq<Handle>> := seq(newLength, i => []);
      ghost var moved: set<Handle> := {};
      var count := 0;
      for i := 0 to length
        invariant unchanged(this)
        invariant |newList| == newLength && Spread(newList, moved) && count == |moved|
        invariant forall h :: h in moved <==> h in contents && Bucket(h.hash, length) < i
      {
        newList, count, moved := MoveChain(i, newList, count, moved);
      }
      assert moved == contents && count == elems;
      list, length := newList, newLength;
    }

    /** Moves the handles of chain `i`, one by one, to the front of their new chains. */
    method MoveChain(i: nat, newList: seq<seq<Handle>>, count: nat, ghost moved: set<Handle>)
      returns (newList': seq<seq<Handle>>, count': nat, ghost moved': set<Handle>)
      requires Chains() && i < length && Spread(newList, moved) && count == |moved| && IsPowerOfTwo(|newList|)
      requires forall h :: h in moved <==> h in contents && Bucket(h.hash, length) < i
      ensures |newList'| == |newList| && Spread(newList', moved') && count' == |moved'|
      ensures forall h :: h in moved' <==> h in contents && Bucket(h.hash, length) < i + 1
    {
      hide BitAnd, IsPowerOfTwo, Spread;
      var chain := list[i];
      newList', count', moved' := newList, count, moved;
      ChainHolds(list, contents, i);
      for j := 0 to |chain|
        invariant |newList'| == |newList| && Spread(newList', moved') && count' == |moved'|
        invariant forall h :: h in moved' <==> h in moved || h in chain[..j]
      {
        var h := chain[j];
        NotYetMoved(chain, j, moved, moved');
        NewToChain(newList', moved', h);
        Appended(newList', moved', h);
        MaskIsRemainder(h.hash, |newList'|);
        var b := BitAnd(h.hash, |newList'| - 1);
        newList' := newList'[b := [h] + newList'[b]];
        moved', count' := moved' + {h}, count' + 1;
      }
      assert chain[..|chain|] == chain;
    }

    lemma NotYetMoved(chain: seq<Handle>, j: nat, before: set<Handle>, moved: set<Handle>)
      requires Chains() && j < |chain| && chain in list
      requires forall h :: h in before ==> h in contents && h !in chain
      requires forall h :: h in moved <==> h in before || h in chain[..j]
      ensures forall g :: g in moved ==> !g.Matches(chain[j].key, chain[j].hash)
    {
      var b :| 0 <= b < |list| && list[b] == chain;
      var h, earlier := chain[j], chain[..j];
      assert h in list[b] && Distinct(chain);
      forall g | g in moved ensures !g.Matches(h.key, h.hash) {
        if g in earlier {
          var k :| 0 <= k < j && earlier[k] == g;
        } else if g.Matches(h.key, h.hash) {
          OnlyOne(list, contents, g, h);
        }
      }
    }
  }

  /** The handle of a set with the given key, if there is one. */
  ghost function FoundIn(handles: set<Handle>, key: Key, hash: uint32): (h: Option<Handle>)
    ensures h.Some? ==> h.value in handles && h.value.Matches(key, hash)
    ensures h.None? ==> forall g :: g in handles ==> !g.Matches(key, hash)
  {
    if g :| g in handles && g.Matches(key, hash) then Some(g) else None
  }
}
