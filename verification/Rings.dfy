/**
 Circular doubly linked lists with a dummy head (util/cache.cc, LRU_Remove and LRU_Append):
 several rings share one pair of pointers per handle.
 */
module Rings {
  import opened HashTable

  datatype Links = Links(next: map<Handle, Handle>, prev: map<Handle, Handle>) {
    /** Makes `e` the newest of the ring by inserting it just before the head. */
    function Append(head: Handle, e: Handle): Links
      requires head in prev
    {
      var last := prev[head];
      Links(next[e := head][last := e], prev[e := last][head := e])
    }

    /** The pointers of `e` itself are left as they are. */
    function Remove(e: Handle): Links
      requires e in next && e in prev
    {
      Links(next[prev[e] := next[e]], prev[next[e] := prev[e]])
    }
  }

  /** What stands at and before place `i` of a ring. */
  function At(head: Handle, s: seq<Handle>, i: nat): Handle {
    if i < |s| then s[i] else head
  }

  function Before(head: Handle, s: seq<Handle>, i: nat): Handle
    requires i <= |s|
  {
    if i == 0 then head else s[i - 1]
  }

  ghost predicate NoRepeats(s: seq<Handle>) {
    forall i, j :: 0 <= i < j < |s| ==> s[i] != s[j]
  }

  /** The pointers at place `i` of a ring. */
  ghost predicate PlaceOk(l: Links, head: Handle, s: seq<Handle>, i: nat)
    requires i < |s|
  {
    s[i] in l.next && s[i] in l.prev && l.next[s[i]] == At(head, s, i + 1) && l.prev[s[i]] == Before(head, s, i)
  }

  /** Following `next` from the head gives `s` and the head again, and `prev` goes back. */
  ghost predicate Ring(l: Links, head: Handle, s: seq<Handle>) {
    && NoRepeats(s) && head !in s
    && head in l.next && head in l.prev && l.next[head] == At(head, s, 0) && l.prev[head] == Before(head, s, |s|)
    && forall i {:trigger PlaceOk(l, head, s, i)} :: 0 <= i < |s| ==> PlaceOk(l, head, s, i)
  }

  lemma AppendToRing(l: Links, head: Handle, s: seq<Handle>, e: Handle)
    requires Ring(l, head, s) && e !in s && e != head
    ensures Ring(l.Append(head, e), head, s + [e])
  {
    var m, t := l.Append(head, e), s + [e];
    forall i | 0 <= i < |t| ensures PlaceOk(m, head, t, i) {
      if i < |s| {
        assert PlaceOk(l, head, s, i) && t[i] == s[i] && s[i] in s;
        assert i + 1 < |s| ==> s[i] != Before(head, s, |s|);
      }
    }
  }

  function Without(s: seq<Handle>, i: nat): seq<Handle>
    requires i < |s|
  {
    s[..i] + s[i + 1..]
  }

  lemma WithoutHas(s: seq<Handle>, i: nat)
    requires i < |s| && NoRepeats(s)
    ensures NoRepeats(Without(s, i)) && forall h :: h in Without(s, i) <==> h in s && h != s[i]
  {
    var t := Without(s, i);
    forall h | h in s && h != s[i] ensures h in t {
      var j :| 0 <= j < |s| && s[j] == h;
      assert t[if j < i then j else j - 1] == h;
    }
  }

  /** Only the neighbours of the removed handle get new pointers. */
  lemma PointersAfterRemove(l: Links, head: Handle, s: seq<Handle>, i: nat, k: nat)
    requires Ring(l, head, s) && i < |s| && PlaceOk(l, head, s, i) && k < |s| && k != i
    ensures var m := l.Remove(s[i]);
            && s[k] in m.next && m.next[s[k]] == At(head, s, if k + 1 == i then i + 1 else k + 1)
            && s[k] in m.prev && m.prev[s[k]] == Before(head, s, if k == i + 1 then i else k)
  {
    assert s[k] in s && s[i] in s && PlaceOk(l, head, s, k);
    assert k + 1 < i || k > i ==> i == 0 || s[i - 1] != s[k];
    assert k < i || k > i + 1 ==> i + 1 == |s| || s[i + 1] != s[k];
  }

  lemma HeadAfterRemove(l: Links, head: Handle, s: seq<Handle>, i: nat)
    requires Ring(l, head, s) && i < |s| && PlaceOk(l, head, s, i)
    ensures var m := l.Remove(s[i]);
            && head in m.next && m.next[head] == At(head, s, if i == 0 then 1 else 0)
            && head in m.prev && m.prev[head] == Before(head, s, if i + 1 == |s| then i else |s|)
  {
    assert i > 0 ==> s[i - 1] in s;
    assert i + 1 < |s| ==> s[i + 1] in s;
    assert s[i] in s;
  }

  lemma PlacesWithout(head: Handle, s: seq<Handle>, i: nat, j: nat)
    requires i < |s| && j < |s|
    ensures At(head, Without(s, i), j) == At(head, s, if j < i then j else j + 1)
    ensures Before(head, Without(s, i), j) == Before(head, s, if j <= i then j else j + 1)
  {
  }

  lemma PlaceAfterRemove(l: Links, head: Handle, s: seq<Handle>, i: nat, j: nat)
    requires Ring(l, head, s) && i < |s| && PlaceOk(l, head, s, i) && j < |s| - 1
    ensures PlaceOk(l.Remove(s[i]), head, Without(s, i), j)
  {
    PlacesWithout(head, s, i, j);
    PlacesWithout(head, s, i, j + 1);
    PointersAfterRemove(l, head, s, i, if j < i then j else j + 1);
  }

  lemma RemoveFromRing(l: Links, head: Handle, s: seq<Handle>, i: nat)
    requires Ring(l, head, s) && i < |s| && PlaceOk(l, head, s, i)
    ensures Ring(l.Remove(s[i]), head, Without(s, i))
  {
    WithoutHas(s, i);
    HeadAfterRemove(l, head, s, i);
    PlacesWithout(head, s, i, 0);
    PlacesWithout(head, s, i, |s| - 1);
    forall j | 0 <= j < |s| - 1 ensures PlaceOk(l.Remove(s[i]), head, Without(s, i), j) {
      PlaceAfterRemove(l, head, s, i, j);
    }
  }

  ghost predicate Apart(head: Handle, s: seq<Handle>, head': Handle, s': seq<Handle>) {
    && head != head' && head !in s' && head' !in s
    && forall h :: h in s ==> h !in s'
  }

  /** Changing one ring leaves another alone. */
  lemma AppendElsewhere(l: Links, head: Handle, s: seq<Handle>, e: Handle, head': Handle, s': seq<Handle>)
    requires Ring(l, head, s) && Ring(l, head', s') && Apart(head, s, head', s') && e !in s' && e != head'
    ensures Ring(l.Append(head, e), head', s')
  {
    forall i | 0 <= i < |s'| ensures PlaceOk(l.Append(head, e), head', s', i) {
      assert PlaceOk(l, head', s', i) && s'[i] in s';
      assert Before(head, s, |s|) == head || Before(head, s, |s|) in s;
    }
  }

  lemma RemoveElsewhere(l: Links, head: Handle, s: seq<Handle>, i: nat, head': Handle, s': seq<Handle>)
    requires Ring(l, head, s) && Ring(l, head', s') && Apart(head, s, head', s') && i < |s| && PlaceOk(l, head, s, i)
    ensures Ring(l.Remove(s[i]), head', s')
  {
    assert PlaceOk(l, head, s, i);
    forall j | 0 <= j < |s'| ensures PlaceOk(l.Remove(s[i]), head', s', j) {
      assert PlaceOk(l, head', s', j) && s'[j] in s';
      assert At(head, s, i + 1) == head || At(head, s, i + 1) in s;
      assert Before(head, s, i) == head || Before(head, s, i) in s;
    }
    assert s[i] in s;
  }
}
