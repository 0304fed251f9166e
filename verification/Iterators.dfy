/**
 The internal iterator interface (include/leveldb/iterator.h) over one sorted source: a
 position in the sequence of entries, or nowhere. Memtable, block and two-level
 iterators behave like this one.
 */
module Iterators {
  import opened DbFormat

  class Cursor {
    const entries: seq<Entry>
    var pos: nat   // |entries| when not valid

    constructor (entries: seq<Entry>)
      ensures this.entries == entries && pos == |entries|
    {
      this.entries, pos := entries, |entries|;
    }

    ghost predicate Ok()
      reads this
    {
      Sorted(entries) && pos <= |entries|
    }

    predicate Valid()
      reads this
    {
      pos < |entries|
    }

    function Entry(): (e: Entry)
      requires Valid()
      reads this
      ensures e == entries[pos]
    {
      entries[pos]
    }

    method SeekToFirst()
      modifies this
      ensures pos == 0
    {
      pos := 0;
    }

    method SeekToLast()
      modifies this
      ensures pos == if |entries| == 0 then 0 else |entries| - 1
    {
      pos := if |entries| == 0 then 0 else |entries| - 1;
    }

    /** The first entry at or after `target`. */
    method Seek(target: IKey)
      requires Sorted(entries)
      modifies this
      ensures pos <= |entries|
      ensures forall i :: 0 <= i < pos ==> Before(entries[i].key, target)
      ensures forall i :: pos <= i < |entries| ==> !Before(entries[i].key, target)
    {
      pos := 0;
      while pos < |entries| && Before(entries[pos].key, target)
        invariant pos <= |entries|
        invariant forall i :: 0 <= i < pos ==> Before(entries[i].key, target)
      {
        pos := pos + 1;
      }
      forall i | pos <= i < |entries| ensures !Before(entries[i].key, target) {
        if i > pos {
          assert Before(entries[pos].key, entries[i].key);
        }
      }
    }

    method Next()
      requires Valid()
      modifies this
      ensures pos == old(pos) + 1
    {
      pos := pos + 1;
    }

    method Prev()
      requires Valid()
      modifies this
      ensures pos == if old(pos) == 0 then |entries| else old(pos) - 1
    {
      pos := if pos == 0 then |entries| else pos - 1;
    }
  }
}
