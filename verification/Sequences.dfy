/** Parts one after another. */
module Sequences {
  function Concat<T>(parts: seq<seq<T>>): seq<T> {
    if parts == [] then [] else Concat(parts[..|parts| - 1]) + parts[|parts| - 1]
  }

  /** Each part is a slice of the whole. */
  lemma {:induction false} ConcatSlice<T>(parts: seq<seq<T>>, i: nat)
    requires i < |parts|
    ensures |Concat(parts[..i])| + |parts[i]| == |Concat(parts[..i + 1])| <= |Concat(parts)|
    ensures Concat(parts)[|Concat(parts[..i])|..|Concat(parts[..i + 1])|] == parts[i]
    decreases |parts|
  {
    var last := |parts| - 1;
    assert parts[..i + 1][..i] == parts[..i];
    if i < last {
      assert parts[..last][..i] == parts[..i] && parts[..last][..i + 1] == parts[..i + 1];
      ConcatSlice(parts[..last], i);
    } else {
      assert parts[..i + 1] == parts;
    }
  }
}
