/**
 Records of the manifest (db/version_edit.cc): a change to the set of files, encoded as
 tagged fields and decoded again. Keys are byte strings here.
 */
module VersionEdit {
  import opened Config
  import opened Options
  import opened Words
  import opened Coding

  // Tags of fields, which are written to disk.
  const COMPARATOR: nat := 1
  const LOG_NUMBER: nat := 2
  const NEXT_FILE_NUMBER: nat := 3
  const LAST_SEQUENCE: nat := 4
  const COMPACT_POINTER: nat := 5
  const DELETED_FILE: nat := 6
  const NEW_FILE: nat := 7
  const PREV_LOG_NUMBER: nat := 9

  type Level = l: int | 0 <= l < NUM_LEVELS witness 0
  type Key = seq<byte>

  datatype FileMeta = FileMeta(number: uint64, size: uint64, smallest: Key, largest: Key)
  datatype CompactPointer = CompactPointer(level: Level, key: Key)
  datatype DeletedFile = DeletedFile(level: Level, number: uint64)
  datatype NewFile = NewFile(level: Level, file: FileMeta)

  /** Deleted files are a std::set: no duplicates, by level and then by number. */
  datatype Edit = Edit(comparator: Option<seq<byte>>, logNumber: Option<uint64>, prevLogNumber: Option<uint64>,
                       nextFileNumber: Option<uint64>, lastSequence: Option<uint64>,
                       compactPointers: seq<CompactPointer>, deletedFiles: seq<DeletedFile>, newFiles: seq<NewFile>)

  function EmptyEdit(): Edit {
    Edit(None, None, None, None, None, [], [], [])
  }

  predicate Less(a: DeletedFile, b: DeletedFile) {
    a.level < b.level || (a.level == b.level && a.number < b.number)
  }

  ghost predicate Ascending(ds: seq<DeletedFile>) {
    forall i, j :: 0 <= i < j < |ds| ==> Less(ds[i], ds[j])
  }

  function SetInsert(ds: seq<DeletedFile>, d: DeletedFile): (r: seq<DeletedFile>)
    ensures forall x :: x in r <==> x in ds || x == d
  {
    if ds == [] then [d]
    else if d == ds[0] then ds
    else if Less(d, ds[0]) then [d] + ds
    else [ds[0]] + SetInsert(ds[1..], d)
  }

  /** What EncodeTo relies on: lengths fit in 32 bits, and the set is kept in order. */
  ghost predicate Encodable(e: Edit) {
    && (e.comparator.Some? ==> |e.comparator.value| < 0x1_0000_0000)
    && (forall p :: p in e.compactPointers ==> |p.key| < 0x1_0000_0000)
    && (forall n :: n in e.newFiles ==> |n.file.smallest| < 0x1_0000_0000 && |n.file.largest| < 0x1_0000_0000)
    && Ascending(e.deletedFiles)
  }

  // ---- Encoding

  function EncodeNumber(tag: nat, v: Option<uint64>): seq<byte> {
    if v.Some? then EncodeVarint(tag) + EncodeVarint(v.value) else []
  }

  function EncodePointers(ps: seq<CompactPointer>): seq<byte> {
    if ps == [] then [] else
      EncodeVarint(COMPACT_POINTER) + EncodeVarint(ps[0].level) + EncodeString(ps[0].key) + EncodePointers(ps[1..])
  }

  function EncodeDeleted(ds: seq<DeletedFile>): seq<byte> {
    if ds == [] then [] else
      EncodeVarint(DELETED_FILE) + EncodeVarint(ds[0].level) + EncodeVarint(ds[0].number) + EncodeDeleted(ds[1..])
  }

  function EncodeFile(f: FileMeta): seq<byte> {
    EncodeVarint(f.number) + EncodeVarint(f.size) + EncodeString(f.smallest) + EncodeString(f.largest)
  }

  function EncodeNew(ns: seq<NewFile>): seq<byte> {
    if ns == [] then [] else
      EncodeVarint(NEW_FILE) + EncodeVarint(ns[0].level) + EncodeFile(ns[0].file) + EncodeNew(ns[1..])
  }

  function Encode(e: Edit): seq<byte> {
    (if e.comparator.Some? then EncodeVarint(COMPARATOR) + EncodeString(e.comparator.value) else [])
    + EncodeNumber(LOG_NUMBER, e.logNumber)
    + EncodeNumber(PREV_LOG_NUMBER, e.prevLogNumber)
    + EncodeNumber(NEXT_FILE_NUMBER, e.nextFileNumber)
    + EncodeNumber(LAST_SEQUENCE, e.lastSequence)
    + EncodePointers(e.compactPointers) + EncodeDeleted(e.deletedFiles) + EncodeNew(e.newFiles)
  }

  // ---- Decoding

  datatype Result = Ok(edit: Edit) | Corruption(msg: string)

  function ParseLevel(s: seq<byte>): Option<Parsed<Level>> {
    var v := ParseVarint32(s);
    if v.Some? && v.value.value < NUM_LEVELS then
      var level: Level := v.value.value;
      Some(Parsed(level, v.value.rest))
    else None
  }

  function ParsePointer(s: seq<byte>): Option<Parsed<CompactPointer>> {
    var level := ParseLevel(s);
    if level.None? then None else
      var key := ParseString(level.value.rest);
      if key.None? then None else Some(Parsed(CompactPointer(level.value.value, key.value.value), key.value.rest))
  }

  function ParseDeleted(s: seq<byte>): Option<Parsed<DeletedFile>> {
    var level := ParseLevel(s);
    if level.None? then None else
      var number := ParseVarint64(level.value.rest);
      if number.None? then None else Some(Parsed(DeletedFile(level.value.value, number.value.value), number.value.rest))
  }

  function ParseFile(s: seq<byte>): Option<Parsed<FileMeta>> {
    var number := ParseVarint64(s);
    if number.None? then None else
      var size := ParseVarint64(number.value.rest);
      if size.None? then None else
        var smallest := ParseString(size.value.rest);
        if smallest.None? then None else
          var largest := ParseString(smallest.value.rest);
          if largest.None? then None else
            Some(Parsed(FileMeta(number.value.value, size.value.value, smallest.value.value, largest.value.value),
              largest.value.rest))
  }

  function ParseNew(s: seq<byte>): Option<Parsed<NewFile>> {
    var level := ParseLevel(s);
    if level.None? then None else
      var file := ParseFile(level.value.rest);
      if file.None? then None else Some(Parsed(NewFile(level.value.value, file.value.value), file.value.rest))
  }

  datatype Field =
    | ComparatorField(name: seq<byte>)
    | NumberField(tag: nat, number: uint64)
    | PointerField(pointer: CompactPointer)
    | DeletedField(deleted: DeletedFile)
    | NewField(new_: NewFile)

  predicate IsNumberTag(tag: nat) {
    tag == LOG_NUMBER || tag == PREV_LOG_NUMBER || tag == NEXT_FILE_NUMBER || tag == LAST_SEQUENCE
  }

  function NumberMessage(tag: nat): string {
    if tag == LOG_NUMBER then "log number"
    else if tag == PREV_LOG_NUMBER then "previous log number"
    else if tag == NEXT_FILE_NUMBER then "next file number"
    else "last sequence number"
  }

  datatype FieldResult = Got(field: Field, rest: seq<byte>) | Bad(msg: string)

  /** The field behind a tag. */
  function ParseField(tag: nat, s: seq<byte>): FieldResult {
    if tag == COMPARATOR then
      var r := ParseString(s);
      if r.Some? then Got(ComparatorField(r.value.value), r.value.rest) else Bad("comparator name")
    else if IsNumberTag(tag) then
      var r := ParseVarint64(s);
      if r.Some? then Got(NumberField(tag, r.value.value), r.value.rest) else Bad(NumberMessage(tag))
    else if tag == COMPACT_POINTER then
      var r := ParsePointer(s);
      if r.Some? then Got(PointerField(r.value.value), r.value.rest) else Bad("compaction pointer")
    else if tag == DELETED_FILE then
      var r := ParseDeleted(s);
      if r.Some? then Got(DeletedField(r.value.value), r.value.rest) else Bad("deleted file")
    else if tag == NEW_FILE then
      var r := ParseNew(s);
      if r.Some? then Got(NewField(r.value.value), r.value.rest) else Bad("new-file entry")
    else
      Bad("unknown tag")
  }

  /** A field is stored in the edit that is being read. */
  function With(e: Edit, f: Field): Edit {
    match f
    case ComparatorField(name) => e.(comparator := Some(name))
    case NumberField(tag, number) =>
      if tag == LOG_NUMBER then e.(logNumber := Some(number))
      else if tag == PREV_LOG_NUMBER then e.(prevLogNumber := Some(number))
      else if tag == NEXT_FILE_NUMBER then e.(nextFileNumber := Some(number))
      else e.(lastSequence := Some(number))
    case PointerField(p) => e.(compactPointers := e.compactPointers + [p])
    case DeletedField(d) => e.(deletedFiles := SetInsert(e.deletedFiles, d))
    case NewField(n) => e.(newFiles := e.newFiles + [n])
  }

  lemma PointerConsumes(s: seq<byte>)
    requires ParsePointer(s).Some?
    ensures |ParsePointer(s).value.rest| < |s|
  {
    ParsersConsume(s);
    ParsersConsume(ParseLevel(s).value.rest);
  }

  lemma DeletedConsumes(s: seq<byte>)
    requires ParseDeleted(s).Some?
    ensures |ParseDeleted(s).value.rest| < |s|
  {
    ParsersConsume(s);
    ParsersConsume(ParseLevel(s).value.rest);
  }

  lemma FileConsumes(s: seq<byte>)
    requires ParseFile(s).Some?
    ensures |ParseFile(s).value.rest| < |s|
  {
    var t := ParseVarint64(s).value.rest;
    var u := ParseVarint64(t).value.rest;
    ParsersConsume(s);
    ParsersConsume(t);
    ParsersConsume(u);
    ParsersConsume(ParseString(u).value.rest);
  }

  lemma NewConsumes(s: seq<byte>)
    requires ParseNew(s).Some?
    ensures |ParseNew(s).value.rest| < |s|
  {
    ParsersConsume(s);
    FileConsumes(ParseLevel(s).value.rest);
  }

  lemma FieldsConsume(tag: nat, s: seq<byte>)
    ensures ParseField(tag, s).Got? ==> |ParseField(tag, s).rest| < |s|
  {
    ParsersConsume(s);
    if ParsePointer(s).Some? {
      PointerConsumes(s);
    }
    if ParseDeleted(s).Some? {
      DeletedConsumes(s);
    }
    if ParseNew(s).Some? {
      NewConsumes(s);
    }
  }

  /** The loop of DecodeFrom: fields up to the end of the record, added to `e`. */
  function DecodeInto(e: Edit, s: seq<byte>): Result
    decreases |s|
  {
    var tag := ParseVarint32(s);
    ParsersConsume(s);
    if tag.None? then
      if s == [] then Ok(e) else Corruption("invalid tag")
    else
      var f := ParseField(tag.value.value, tag.value.rest);
      FieldsConsume(tag.value.value, tag.value.rest);
      if f.Bad? then Corruption(f.msg) else DecodeInto(With(e, f.field), f.rest)
  }

  function Decode(s: seq<byte>): Result {
    DecodeInto(EmptyEdit(), s)
  }

  /** DecodeFrom on an edit that may have been used before: all is cleared but the compaction pointers. */
  method DecodeFrom(old_: Edit, src: seq<byte>) returns (r: Result)
    ensures r == DecodeInto(EmptyEdit().(compactPointers := old_.compactPointers), src)
    ensures old_ == EmptyEdit() ==> r == Decode(src)
  {
    var e := EmptyEdit().(compactPointers := old_.compactPointers);
    var input := src;
    var tag := ParseVarint32(input);
    while tag.Some?
      invariant tag == ParseVarint32(input)
      invariant DecodeInto(e, input) == DecodeInto(EmptyEdit().(compactPointers := old_.compactPointers), src)
      decreases |input|
    {
      ParsersConsume(input);
      FieldsConsume(tag.value.value, tag.value.rest);
      var f := ParseField(tag.value.value, tag.value.rest);
      if f.Bad? {
        return Corruption(f.msg);
      }
      e, input := With(e, f.field), f.rest;
      tag := ParseVarint32(input);
    }
    r := if input == [] then Ok(e) else Corruption("invalid tag");
  }

  // ---- Records that are not edits

  /** A tag that no field has makes a record corrupt, wherever it comes up. */
  lemma UnknownTagIsCorrupt(e: Edit, tag: uint32, rest: seq<byte>)
    requires tag == 0 || tag == 8 || tag > 9
    ensures DecodeInto(e, EncodeVarint(tag) + rest) == Corruption("unknown tag")
  {
    hide EncodeVarint, ParseVarint32;
    Varint32RoundTrip(tag, rest);
  }

  /** So does a level that is not there. */
  lemma BadLevelIsCorrupt(e: Edit, level: uint32, rest: seq<byte>)
    requires level >= 7
    ensures DecodeInto(e, EncodeVarint(5) + (EncodeVarint(level) + rest)) == Corruption("compaction pointer")
    ensures DecodeInto(e, EncodeVarint(6) + (EncodeVarint(level) + rest)) == Corruption("deleted file")
    ensures DecodeInto(e, EncodeVarint(7) + (EncodeVarint(level) + rest)) == Corruption("new-file entry")
  {
    hide EncodeVarint, ParseVarint32;
    Varint32RoundTrip(level, rest);
    Varint32RoundTrip(5, EncodeVarint(level) + rest);
    Varint32RoundTrip(6, EncodeVarint(level) + rest);
    Varint32RoundTrip(7, EncodeVarint(level) + rest);
  }

  // ---- Decoding what was encoded

  /** Regroups five strings from the left to the right, with Append3. */
  lemma Append5(a: seq<byte>, b: seq<byte>, c: seq<byte>, d: seq<byte>, e: seq<byte>)
    ensures a + b + c + d + e == a + (b + (c + (d + e)))
  {
    Append3(a + b + c, d, e);
    Append3(a + b, c, d + e);
    Append3(a, b, c + (d + e));
  }

  lemma LevelRoundTrip(level: Level, rest: seq<byte>)
    ensures ParseLevel(EncodeVarint(level) + rest) == Some(Parsed(level, rest))
  {
    Varint32RoundTrip(level, rest);
  }

  lemma PointerRoundTrip(p: CompactPointer, rest: seq<byte>)
    requires |p.key| < 0x1_0000_0000
    ensures ParsePointer(EncodeVarint(p.level) + (EncodeString(p.key) + rest)) == Some(Parsed(p, rest))
  {
    LevelRoundTrip(p.level, EncodeString(p.key) + rest);
    StringRoundTrip(p.key, rest);
  }

  lemma DeletedRoundTrip(d: DeletedFile, rest: seq<byte>)
    ensures ParseDeleted(EncodeVarint(d.level) + (EncodeVarint(d.number) + rest)) == Some(Parsed(d, rest))
  {
    LevelRoundTrip(d.level, EncodeVarint(d.number) + rest);
    Varint64RoundTrip(d.number, rest);
  }

  lemma FileRoundTrip(f: FileMeta, rest: seq<byte>)
    requires |f.smallest| < 0x1_0000_0000 && |f.largest| < 0x1_0000_0000
    ensures ParseFile(EncodeFile(f) + rest) == Some(Parsed(f, rest))
  {
    var a, b, c, d := EncodeVarint(f.number), EncodeVarint(f.size), EncodeString(f.smallest), EncodeString(f.largest);
    Append3(c, d, rest);
    Append3(b, c, d);
    Append3(b, c + d, rest);
    Append3(a, b, c + d);
    Append3(a + b, c, d);
    Append3(a, b + (c + d), rest);
    Varint64RoundTrip(f.number, b + (c + (d + rest)));
    Varint64RoundTrip(f.size, c + (d + rest));
    StringRoundTrip(f.smallest, d + rest);
    StringRoundTrip(f.largest, rest);
  }

  lemma NewRoundTrip(n: NewFile, rest: seq<byte>)
    requires |n.file.smallest| < 0x1_0000_0000 && |n.file.largest| < 0x1_0000_0000
    ensures ParseNew(EncodeVarint(n.level) + (EncodeFile(n.file) + rest)) == Some(Parsed(n, rest))
  {
    LevelRoundTrip(n.level, EncodeFile(n.file) + rest);
    FileRoundTrip(n.file, rest);
  }

  lemma NewFieldRoundTrip(n: NewFile, rest: seq<byte>)
    requires |n.file.smallest| < 0x1_0000_0000 && |n.file.largest| < 0x1_0000_0000
    ensures ParseField(NEW_FILE, EncodeVarint(n.level) + (EncodeFile(n.file) + rest)) == Got(NewField(n), rest)
  {
    NewRoundTrip(n, rest);
  }

  /** Reading one field, given what is behind its tag. */
  lemma ReadsField(e: Edit, tag: nat, body: seq<byte>)
    requires tag < 16 && ParseField(tag, body).Got?
    ensures DecodeInto(e, EncodeVarint(tag) + body) == DecodeInto(With(e, ParseField(tag, body).field),
            ParseField(tag, body).rest)
  {
    Varint32RoundTrip(tag, body);
  }

  lemma ReadsNumber(e: Edit, tag: nat, v: Option<uint64>, rest: seq<byte>)
    requires IsNumberTag(tag)
    ensures DecodeInto(e, EncodeNumber(tag, v) + rest) == DecodeInto(if v.Some? then With(e, NumberField(tag, v.value))
            else e, rest)
  {
    if v.Some? {
      Varint64RoundTrip(v.value, rest);
      Append3(EncodeVarint(tag), EncodeVarint(v.value), rest);
      ReadsField(e, tag, EncodeVarint(v.value) + rest);
    } else {
      assert EncodeNumber(tag, v) + rest == rest;
    }
  }

  lemma ReadsComparator(e: Edit, name: seq<byte>, rest: seq<byte>)
    requires |name| < 0x1_0000_0000
    ensures DecodeInto(e, EncodeVarint(COMPARATOR) + EncodeString(name) + rest) ==
            DecodeInto(e.(comparator := Some(name)), rest)
  {
    StringRoundTrip(name, rest);
    Append3(EncodeVarint(COMPARATOR), EncodeString(name), rest);
    ReadsField(e, COMPARATOR, EncodeString(name) + rest);
  }

  lemma ReadsPointer(e: Edit, p: CompactPointer, tail: seq<byte>, rest: seq<byte>)
    requires |p.key| < 0x1_0000_0000
    ensures DecodeInto(e, EncodeVarint(COMPACT_POINTER) + EncodeVarint(p.level) + EncodeString(p.key) + tail + rest)
            == DecodeInto(e.(compactPointers := e.compactPointers + [p]), tail + rest)
  {
    var a, b, c := EncodeVarint(COMPACT_POINTER), EncodeVarint(p.level), EncodeString(p.key);
    Append5(a, b, c, tail, rest);
    PointerRoundTrip(p, tail + rest);
    ReadsField(e, COMPACT_POINTER, b + (c + (tail + rest)));
  }

  lemma ReadsOneDeleted(e: Edit, d: DeletedFile, tail: seq<byte>, rest: seq<byte>)
    ensures DecodeInto(e, EncodeVarint(DELETED_FILE) + EncodeVarint(d.level) + EncodeVarint(d.number) + tail + rest)
            == DecodeInto(e.(deletedFiles := SetInsert(e.deletedFiles, d)), tail + rest)
  {
    var a, b, c := EncodeVarint(DELETED_FILE), EncodeVarint(d.level), EncodeVarint(d.number);
    Append5(a, b, c, tail, rest);
    DeletedRoundTrip(d, tail + rest);
    ReadsField(e, DELETED_FILE, b + (c + (tail + rest)));
  }

  lemma ReadsOneNew(e: Edit, n: NewFile, tail: seq<byte>, rest: seq<byte>)
    requires |n.file.smallest| < 0x1_0000_0000 && |n.file.largest| < 0x1_0000_0000
    ensures DecodeInto(e, EncodeVarint(NEW_FILE) + EncodeVarint(n.level) + EncodeFile(n.file) + tail + rest)
            == DecodeInto(e.(newFiles := e.newFiles + [n]), tail + rest)
  {
    var a, b, c := EncodeVarint(NEW_FILE), EncodeVarint(n.level), EncodeFile(n.file);
    Append5(a, b, c, tail, rest);
    NewFieldRoundTrip(n, tail + rest);
    ReadsField(e, NEW_FILE, b + (c + (tail + rest)));
  }

  lemma AppendNext<T>(done: seq<T>, xs: seq<T>)
    requires xs != []
    ensures done + [xs[0]] + xs[1..] == done + xs && forall x :: x in xs[1..] ==> x in xs
  {
  }

  lemma {:induction false} ReadsPointers(e: Edit, ps: seq<CompactPointer>, rest: seq<byte>)
    requires forall p :: p in ps ==> |p.key| < 0x1_0000_0000
    ensures DecodeInto(e, EncodePointers(ps) + rest) == DecodeInto(e.(compactPointers := e.compactPointers + ps), rest)
    decreases |ps|
  {
    if ps == [] {
      assert EncodePointers(ps) + rest == rest && e.compactPointers + ps == e.compactPointers;
    } else {
      AppendNext(e.compactPointers, ps);
      ReadsPointer(e, ps[0], EncodePointers(ps[1..]), rest);
      ReadsPointers(e.(compactPointers := e.compactPointers + [ps[0]]), ps[1..], rest);
    }
  }

  lemma {:induction false} InsertAtEnd(ds: seq<DeletedFile>, d: DeletedFile)
    requires forall x :: x in ds ==> Less(x, d)
    ensures SetInsert(ds, d) == ds + [d]
  {
    if ds != [] {
      assert ds[0] in ds;
      InsertAtEnd(ds[1..], d);
      assert [ds[0]] + (ds[1..] + [d]) == ds + [d];
    }
  }

  lemma InsertNext(done: seq<DeletedFile>, ds: seq<DeletedFile>)
    requires Ascending(done + ds) && ds != []
    ensures SetInsert(done, ds[0]) == done + [ds[0]] && done + [ds[0]] + ds[1..] == done + ds
  {
    forall x | x in done ensures Less(x, ds[0]) {
      var i :| 0 <= i < |done| && done[i] == x;
      assert (done + ds)[i] == x && (done + ds)[|done|] == ds[0];
    }
    InsertAtEnd(done, ds[0]);
  }

  lemma {:induction false} ReadsDeleted(e: Edit, ds: seq<DeletedFile>, rest: seq<byte>)
    requires Ascending(e.deletedFiles + ds)
    ensures DecodeInto(e, EncodeDeleted(ds) + rest) == DecodeInto(e.(deletedFiles := e.deletedFiles + ds), rest)
    decreases |ds|
  {
    if ds == [] {
      assert EncodeDeleted(ds) + rest == rest && e.deletedFiles + ds == e.deletedFiles;
    } else {
      ReadsOneDeleted(e, ds[0], EncodeDeleted(ds[1..]), rest);
      InsertNext(e.deletedFiles, ds);
      ReadsDeleted(e.(deletedFiles := e.deletedFiles + [ds[0]]), ds[1..], rest);
    }
  }

  lemma {:induction false} ReadsNew(e: Edit, ns: seq<NewFile>, rest: seq<byte>)
    requires forall n :: n in ns ==> |n.file.smallest| < 0x1_0000_0000 && |n.file.largest| < 0x1_0000_0000
    ensures DecodeInto(e, EncodeNew(ns) + rest) == DecodeInto(e.(newFiles := e.newFiles + ns), rest)
    decreases |ns|
  {
    if ns == [] {
      assert EncodeNew(ns) + rest == rest && e.newFiles + ns == e.newFiles;
    } else {
      AppendNext(e.newFiles, ns);
      ReadsOneNew(e, ns[0], EncodeNew(ns[1..]), rest);
      ReadsNew(e.(newFiles := e.newFiles + [ns[0]]), ns[1..], rest);
    }
  }

  /** An encoded edit is decoded again, field by field. */
  lemma EditRoundTrip(e: Edit)
    requires Encodable(e)
    ensures Decode(Encode(e)) == Ok(e)
  {
    hide EncodePointers, EncodeDeleted, EncodeNew, DecodeInto;
    var x := EmptyEdit();
    var h := EncodeNew(e.newFiles);
    var g := EncodeDeleted(e.deletedFiles) + h;
    var f := EncodePointers(e.compactPointers) + g;
    var d := EncodeNumber(LAST_SEQUENCE, e.lastSequence) + f;
    var c := EncodeNumber(NEXT_FILE_NUMBER, e.nextFileNumber) + d;
    var b := EncodeNumber(PREV_LOG_NUMBER, e.prevLogNumber) + c;
    var a := EncodeNumber(LOG_NUMBER, e.logNumber) + b;
    EncodedInOrder(e);
    var e1 := x.(comparator := e.comparator);
    if e.comparator.Some? {
      ReadsComparator(x, e.comparator.value, a);
    } else {
      assert [] + a == a;
    }
    assert Decode(Encode(e)) == DecodeInto(e1, a);
    ReadsNumber(e1, LOG_NUMBER, e.logNumber, b);
    var e2 := e1.(logNumber := e.logNumber);
    ReadsNumber(e2, PREV_LOG_NUMBER, e.prevLogNumber, c);
    var e3 := e2.(prevLogNumber := e.prevLogNumber);
    ReadsNumber(e3, NEXT_FILE_NUMBER, e.nextFileNumber, d);
    var e4 := e3.(nextFileNumber := e.nextFileNumber);
    ReadsNumber(e4, LAST_SEQUENCE, e.lastSequence, f);
    var e5 := e4.(lastSequence := e.lastSequence);
    ReadsLists(e5, e);
  }

  lemma EncodedInOrder(e: Edit)
    ensures var first := if e.comparator.Some? then EncodeVarint(COMPARATOR) + EncodeString(e.comparator.value) else [];
            Encode(e) == first + (EncodeNumber(LOG_NUMBER, e.logNumber) +
              (EncodeNumber(PREV_LOG_NUMBER, e.prevLogNumber)
                         + (EncodeNumber(NEXT_FILE_NUMBER, e.nextFileNumber) +
                           (EncodeNumber(LAST_SEQUENCE, e.lastSequence)
                         + (EncodePointers(e.compactPointers) +
                           (EncodeDeleted(e.deletedFiles) + EncodeNew(e.newFiles)))))))
  {
    var a := if e.comparator.Some? then EncodeVarint(COMPARATOR) + EncodeString(e.comparator.value) else [];
    var b, c := EncodeNumber(LOG_NUMBER, e.logNumber), EncodeNumber(PREV_LOG_NUMBER, e.prevLogNumber);
    var d, f := EncodeNumber(NEXT_FILE_NUMBER, e.nextFileNumber), EncodeNumber(LAST_SEQUENCE, e.lastSequence);
    var g, h, i := EncodePointers(e.compactPointers), EncodeDeleted(e.deletedFiles), EncodeNew(e.newFiles);
    Append5(a + b + c + d, f, g, h, i);
    Append5(a, b, c, d, f + (g + (h + i)));
  }

  lemma ReadsLists(x: Edit, e: Edit)
    requires Encodable(e) && x == e.(compactPointers := [], deletedFiles := [], newFiles := [])
    ensures DecodeInto(x, EncodePointers(e.compactPointers) +
            (EncodeDeleted(e.deletedFiles) + EncodeNew(e.newFiles))) == Ok(e)
  {
    var y := x.(compactPointers := e.compactPointers);
    var z := y.(deletedFiles := e.deletedFiles);
    assert [] + e.compactPointers == e.compactPointers && [] + e.deletedFiles == e.deletedFiles
        && [] + e.newFiles == e.newFiles;
    ReadsPointers(x, e.compactPointers, EncodeDeleted(e.deletedFiles) + EncodeNew(e.newFiles));
    ReadsDeleted(y, e.deletedFiles, EncodeNew(e.newFiles));
    assert EncodeNew(e.newFiles) == EncodeNew(e.newFiles) + [];
    ReadsNew(z, e.newFiles, []);
  }
}
