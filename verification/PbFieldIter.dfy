/** The walk over the fields of a message type (pb_common.c), which wraps around at the end. */
module PbFieldIter {
  import opened PbTypes

  /** The fields passed on a walk from `start` to `pos`, all of them if it has come around. */
  predicate Passed(start: nat, pos: nat, i: nat) {
    if start < pos then start <= i < pos else start <= i || i < pos
  }

  class FieldIter {
    const fields: seq<Field>
    var pos: nat
    var requiredIndex: nat  // how many required fields come before

    ghost predicate Valid()
      reads this
    {
      && (pos < |fields| || (fields == [] && pos == 0))
      && requiredIndex == RequiredBefore(fields, pos)
    }

    /** pb_field_iter_begin. */
    constructor (fields: seq<Field>)
      ensures Valid() && this.fields == fields && pos == 0
    {
      this.fields, pos, requiredIndex := fields, 0, 0;
    }

    /** pb_field_iter_next: false when it has wrapped around to the first field. */
    method Next() returns (more: bool)
      requires Valid()
      modifies this
      ensures Valid() && more == (old(pos) + 1 < |fields|)
      ensures pos == if more then old(pos) + 1 else 0
    {
      if fields == [] {
        return false;
      }
      if pos + 1 == |fields| {
        pos, requiredIndex := 0, 0;
        return false;
      }
      if fields[pos].rule.Required? {
        requiredIndex := requiredIndex + 1;
      }
      pos := pos + 1;
      return true;
    }

    /** The tag at the current position; behind the last field, and in an empty message, that is 0. */
    function Tag(): nat
      reads this
    {
      if pos < |fields| then fields[pos].tag else 0
    }

    /**
     pb_field_iter_find: walks on from where it is, at most once around. Without any
     field it stays before the terminator, whose tag is 0.
     */
    method Find(tag: nat) returns (found: bool)
      requires Valid()
      modifies this
      ensures Valid()
      ensures fields == [] ==> found == (tag == 0)
      ensures fields != [] ==> found == (exists i :: 0 <= i < |fields| && fields[i].tag == tag)
      ensures found && fields != [] ==> fields[pos].tag == tag
      ensures !found ==> pos == old(pos)
    {
      var start := pos;
      if Tag() == tag {
        return true;
      }
      var more := Next();
      while pos != start
        invariant Valid() && (fields == [] ==> pos == start)
        invariant fields != [] ==> start < |fields|
        invariant forall i {:trigger fields[i]} :: 0 <= i < |fields| && Passed(start, pos, i) ==> fields[i].tag != tag
        decreases if start < pos then |fields| - pos + start else start - pos
      {
        if Tag() == tag {
          return true;
        }
        more := Next();
      }
      return false;
    }
  }
}
