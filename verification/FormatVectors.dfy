/**
 Bytes on disk, given outright: integers (util/coding.cc), logs (db/log_writer.cc), manifests
 (db/version_edit.cc), batches and the memtable (db/write_batch.cc, db/memtable.cc) and tables
 (table/format.cc). A round trip holds for many formats, and files are read by other programs.
 */
module FormatVectors {
  import opened Options
  import opened Words
  import opened Coding
  import Comparator
  import Crc32c
  import CrcVectors
  import LogFormat
  import VersionEdit
  import WriteBatch
  import MemTable
  import BlockFormat
  import TableFormat
  import FilterBlock

  // ---- Integers

  lemma FixedBytes()
    ensures EncodeFixed32(0x0403_0201) == [1, 2, 3, 4]
    ensures EncodeFixed64(0x0807_0605_0403_0201) == [1, 2, 3, 4, 5, 6, 7, 8]
  {
  }

  lemma VarintBytes(v: nat)
    ensures v < 0x80 ==> EncodeVarint(v) == [v]
    ensures 0x80 <= v < 0x4000 ==> EncodeVarint(v) == [0x80 + v % 0x80, v / 0x80]
    ensures 0x4000 <= v < 0x20_0000 ==> EncodeVarint(v) == [0x80 + v % 0x80, 0x80 + v / 0x80 % 0x80, v / 0x4000]
  {
    if 0x4000 <= v < 0x20_0000 {
      assert EncodeVarint(v / 0x80) == [0x80 + v / 0x80 % 0x80] + EncodeVarint(v / 0x80 / 0x80);
      assert v / 0x80 / 0x80 == v / 0x4000;
    }
  }

  // ---- Logs

  /** A header: the stored checksum of the type and the data, the length, the type. */
  lemma LogHeader(digits: seq<byte>)
    requires digits == [0x32, 0x33, 0x34, 0x35, 0x36, 0x37, 0x38, 0x39]
    ensures LogFormat.Header(0x31, digits) == [0xe5, 0xb0, 0x8a, 0xc7, 8, 0, 0x31]
  {
    hide Crc32c.Value;
    CrcVectors.ValueOfDigits([0x31] + digits);
  }

  lemma LengthInHeader(kind: byte, data: seq<byte>)
    requires |data| == 0x0201
    ensures LogFormat.Header(kind, data)[4..] == [1, 2, kind]
  {
  }

  lemma FragmentTypes()
    ensures LogFormat.KindOf(true, true) == 1 && LogFormat.KindOf(true, false) == 2
    ensures LogFormat.KindOf(false, false) == 3 && LogFormat.KindOf(false, true) == 4
  {
  }

  // ---- Manifests

  lemma EditBytes()
    ensures VersionEdit.Encode(VersionEdit.Edit(Some([0x63]), Some(10), Some(20), Some(30), Some(40),
              [VersionEdit.CompactPointer(2, [0x70])], [VersionEdit.DeletedFile(3, 50)],
              [VersionEdit.NewFile(4, VersionEdit.FileMeta(60, 70, [0x73], [0x74]))]))
            == [1, 1, 0x63] + [2, 10] + [9, 20] + [3, 30] + [4, 40] + [5, 2, 1, 0x70] + [6, 3, 50]
               + [7, 4, 60, 70, 1, 0x73, 1, 0x74]
  {
    var p, d, n := VersionEdit.CompactPointer(2, [0x70]), VersionEdit.DeletedFile(3, 50),
        VersionEdit.NewFile(4, VersionEdit.FileMeta(60, 70, [0x73], [0x74]));
    assert VersionEdit.EncodePointers([p]) == [5, 2, 1, 0x70];
    assert VersionEdit.EncodeDeleted([d]) == [6, 3, 50];
    assert VersionEdit.EncodeFile(n.file) == [60, 70, 1, 0x73, 1, 0x74];
    assert VersionEdit.EncodeNew([n]) == [7, 4, 60, 70, 1, 0x73, 1, 0x74];
  }

  // ---- Batches and the memtable

  lemma BatchBytes()
    ensures WriteBatch.Records([WriteBatch.Put([0x6b], [0x76, 0x77]), WriteBatch.Delete([0x64])])
            == [1, 1, 0x6b, 2, 0x76, 0x77, 0, 1, 0x64]
  {
    assert WriteBatch.Record(WriteBatch.Put([0x6b], [0x76, 0x77])) == [1, 1, 0x6b, 2, 0x76, 0x77];
    assert WriteBatch.Record(WriteBatch.Delete([0x64])) == [0, 1, 0x64];
    assert WriteBatch.Records([WriteBatch.Delete([0x64])]) == [0, 1, 0x64] + [];
  }

  lemma TagBytes()
    ensures EncodeFixed64(0x0301) == [1, 3, 0, 0, 0, 0, 0, 0] && EncodeFixed64(0x0300) == [0, 3, 0, 0, 0, 0, 0, 0]
  {
  }

  /** Sequence number 3 and the type, in eight bytes behind the user key. */
  lemma PutBytes()
    ensures MemTable.EncodeEntry(MemTable.Entry(3, WriteBatch.Put([0x6b], [0x76])))
            == [9, 0x6b, 1, 3, 0, 0, 0, 0, 0, 0, 1, 0x76]
  {
    hide EncodeFixed64;
    TagBytes();
    var key := MemTable.EncodeKey([0x6b], 0x0301);
    assert key == [9] + ([0x6b] + [1, 3, 0, 0, 0, 0, 0, 0]);
    assert EncodeString([0x76]) == [1, 0x76];
  }

  lemma DeleteBytes()
    ensures MemTable.EncodeEntry(MemTable.Entry(3, WriteBatch.Delete([0x6b])))
            == [9, 0x6b, 0, 3, 0, 0, 0, 0, 0, 0, 0]
  {
    hide EncodeFixed64;
    TagBytes();
    var key := MemTable.EncodeKey([0x6b], 0x0300);
    assert key == [9] + ([0x6b] + [0, 3, 0, 0, 0, 0, 0, 0]);
    assert EncodeString([]) == [0];
  }

  // ---- Tables

  lemma EntryBytes()
    ensures BlockFormat.EncodeEntry(1, BlockFormat.KV([0x61, 0x62, 0x63], [0x76])) == [1, 2, 1, 0x62, 0x63, 0x76]
  {
  }

  lemma HandleBytes()
    ensures TableFormat.EncodeHandle(TableFormat.BlockHandle(300, 5)) == [0xac, 2, 5]
  {
    VarintBytes(300);
  }

  lemma StoredZero()
    ensures EncodeFixed32(Crc32c.Mask(0x527d_5351)) == [0xd2, 0x8f, 0x25, 0x49]
  {
    hide EncodeFixed32;
    assert Crc32c.Mask(0x527d_5351) == 0x4925_8fd2;
    EightHexDigits();
  }

  lemma EightHexDigits()
    ensures EncodeFixed32(0x4925_8fd2) == [0xd2, 0x8f, 0x25, 0x49]
  {
  }

  /** The trailer of an empty block: the type, and the stored checksum of the type. */
  lemma TrailerBytes()
    ensures TableFormat.Trailer([]) == [0, 0xd2, 0x8f, 0x25, 0x49]
  {
    hide Crc32c.Value, Crc32c.Mask;
    CrcVectors.ValueOfZero();
    StoredZero();
    assert [] + [TableFormat.NO_COMPRESSION] == [0];
  }

  /** A footer ends with the magic number, low byte first. */
  lemma FooterBytes(f: TableFormat.Footer)
    ensures |TableFormat.EncodeFooter(f)| == 48
    ensures TableFormat.EncodeFooter(f)[40..] == [0x57, 0xfb, 0x80, 0x8b, 0x24, 0x75, 0x47, 0xdb]
    ensures TableFormat.EncodeHandle(f.metaindex) + TableFormat.EncodeHandle(f.index) <= TableFormat.EncodeFooter(f)
  {
    TableFormat.HandleLength(f.metaindex);
    TableFormat.HandleLength(f.index);
  }

  /** A filter block without filters: where the offsets begin, and two kilobytes a slot. */
  lemma EmptyFilterBlock(p: FilterBlock.Policy)
    ensures FilterBlock.FilterImage(p, []) == [0, 0, 0, 0, 11]
  {
  }

  lemma OneFilterBlock(p: FilterBlock.Policy, key: seq<byte>)
    requires p.create([key]) == [0x66, 0x67]
    ensures FilterBlock.FilterImage(p, [[key]]) == [0x66, 0x67, 0, 0, 0, 0, 2, 0, 0, 0, 11]
  {
  }
}
