/** Appending records to a log file (db/log_writer.cc). */
module LogWriter {
  import opened Words
  import opened LogFormat

  /** Writing the first fragment of what is left leaves the rest to write. */
  lemma OneFragment(done: seq<byte>, off: nat, data: seq<byte>, begin: bool)
    requires off <= BLOCK
    ensures var n, next := Chunk(off, data), done + Fragment(off, data, begin);
            done + Fragments(off, data, begin) == if n == |data| then next
              else next + Fragments(BLOCK, data[n..], false)
  {
    var n := Chunk(off, data);
    if n < |data| {
      Append3(done, Fragment(off, data, begin), Fragments(BLOCK, data[n..], false));
    }
  }

  class Writer {
    var dest: seq<byte>     // the file
    var blockOffset: nat
    ghost var block: nat    // number of the block being written

    /** The next byte goes to offset `blockOffset` of a block; a full block may be left unfinished. */
    ghost predicate Valid()
      reads this
    {
      blockOffset <= BLOCK && |dest| == 32768 * block + blockOffset
    }

    constructor ()
      ensures Valid() && dest == []
    {
      dest, blockOffset, block := [], 0, 0;
    }

    /** Goes on writing a file that already has contents. */
    constructor Reopen(dest: seq<byte>)
      ensures Valid() && this.dest == dest
    {
      this.dest, blockOffset, block := dest, |dest| % 32768, |dest| / 32768;
    }

    /** Appends one fragment; the caller has made sure it fits in the block. */
    method EmitPhysicalRecord(kind: byte, chunk: seq<byte>)
      requires Valid() && blockOffset + HEADER + |chunk| <= BLOCK
      modifies this
      ensures Valid() && dest == old(dest) + Header(kind, chunk) + chunk
      ensures blockOffset == old(blockOffset) + HEADER + |chunk|
    {
      dest := dest + Header(kind, chunk);
      dest := dest + chunk;
      blockOffset := blockOffset + HEADER + |chunk|;
    }

    /** Moves to a new block if no header fits in this one. */
    method SwitchBlock()
      requires Valid()
      modifies this
      ensures Valid() && blockOffset == HeaderOffset(old(blockOffset))
      ensures dest == old(dest) + ZeroBytes(Padding(old(blockOffset)))
    {
      var leftover := BLOCK - blockOffset;
      if leftover < HEADER {
        if leftover > 0 {
          dest := dest + ZeroBytes(leftover);
        }
        blockOffset, block := 0, block + 1;
      }
    }

    /** One turn of the loop of AddRecord: as much of `record` from `ptr` on as fits in a block. */
    method AddFragment(record: Record, ptr: nat, begin: bool) returns (length: nat)
      requires Valid() && ptr <= |record|
      modifies this
      ensures Valid() && length == Chunk(old(blockOffset), record[ptr..])
      ensures dest == old(dest) + Fragment(old(blockOffset), record[ptr..], begin)
      ensures blockOffset == HeaderOffset(old(blockOffset)) + HEADER + length
    {
      SwitchBlock();
      var left, avail := |record| - ptr, BLOCK - blockOffset - HEADER;
      length := if left < avail then left else avail;
      var end := left == length;
      assert record[ptr..ptr + length] == record[ptr..][..length];
      ghost var header := Header(KindOf(begin, end), record[ptr..][..length]);
      EmitPhysicalRecord(KindOf(begin, end), record[ptr..ptr + length]);
      Append3(old(dest), ZeroBytes(Padding(old(blockOffset))), header);
      Append3(old(dest), ZeroBytes(Padding(old(blockOffset))) + header, record[ptr..][..length]);
    }

    /** The same turn seen from the end: the fragment brings the file closer to the whole record. */
    method AddNextFragment(record: Record, ptr: nat, begin: bool) returns (ptr': nat)
      requires Valid() && ptr <= |record|
      modifies this
      ensures Valid() && ptr <= ptr' <= |record|
      ensures ptr' == ptr < |record| ==> HeaderOffset(old(blockOffset)) > 0
      ensures ptr' < |record| ==> blockOffset == BLOCK
      ensures old(dest) + Fragments(old(blockOffset), record[ptr..], begin) ==
              if ptr' == |record| then dest else dest + Fragments(blockOffset, record[ptr'..], false)
    {
      OneFragment(dest, blockOffset, record[ptr..], begin);
      var length := AddFragment(record, ptr, begin);
      ptr' := ptr + length;
      assert record[ptr..][length..] == record[ptr'..];
    }

    /** Appends a record as fragments, at least one even if it is empty. */
    method AddRecord(record: Record)
      requires Valid()
      modifies this
      ensures Valid() && dest == old(dest) + Fragments(old(blockOffset), record, true)
    {
      ghost var whole := dest + Fragments(blockOffset, record, true);
      var ptr, begin, more := 0, true, true;
      assert record[0..] == record;
      while more
        invariant Valid() && ptr <= |record|
        invariant whole == if more then dest + Fragments(blockOffset, record[ptr..], begin) else dest
        decreases more, |record| - ptr, HeaderOffset(blockOffset)
      {
        ptr := AddNextFragment(record, ptr, begin);
        begin, more := false, ptr < |record|;
      }
    }
  }

  /** A block that is just full is the start of the next one. */
  lemma SameOffset(length: nat, block: int, off: nat, data: seq<byte>)
    requires off <= BLOCK && length == 32768 * block + off
    ensures Fragments(off, data, true) == Fragments(length % 32768, data, true)
  {
    if off == BLOCK {
      assert length % 32768 == 0;
      assert ZeroBytes(0) == [];
    } else {
      assert length % 32768 == off;
    }
  }

  /** Appending one more record to a log. */
  method AppendToLog(writer: Writer, record: Record, ghost before: seq<Record>)
    requires writer.Valid() && writer.dest == Image(before)
    modifies writer
    ensures writer.Valid() && writer.dest == Image(before + [record])
  {
    SameOffset(|writer.dest|, writer.block, writer.blockOffset, record);
    ImageOneMore(before + [record], |before|);
    assert (before + [record])[..|before|] == before && (before + [record])[..|before| + 1] == before + [record];
    writer.AddRecord(record);
  }

  /** A log written by one writer and continued by another is the log of all the records. */
  method WriteLog(records: seq<Record>, reopenAt: nat) returns (log: seq<byte>)
    requires reopenAt <= |records|
    ensures log == Image(records)
  {
    var writer := new Writer();
    for i := 0 to |records|
      invariant fresh(writer) && writer.Valid() && writer.dest == Image(records[..i])
    {
      if i == reopenAt {
        writer := new Writer.Reopen(writer.dest);
      }
      AppendToLog(writer, records[i], records[..i]);
      assert records[..i + 1] == records[..i] + [records[i]];
    }
    assert records[..|records|] == records;
    log := writer.dest;
  }
}
