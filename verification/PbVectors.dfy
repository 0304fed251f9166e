/** Fields as protocol buffers encode them, with the bytes given outright. */
module PbVectors {
  import opened Words
  import opened Coding
  import opened PbTypes
  import opened PbEncoding
  import FormatVectors

  lemma NumberBytes()
    ensures FieldBytes(Field(1, Optional, UVarint(4)), [Number(150)]) == [0x08, 0x96, 0x01]
    ensures FieldBytes(Field(1, Optional, Varint(4)), [Number(150)]) == [0x08, 0x96, 0x01]
    ensures FieldBytes(Field(1, Optional, SVarint(4)), [Number(-75)]) == [0x08, 0x95, 0x01]
  {
  }

  lemma SevenBits(v: nat)
    requires v >= 128
    ensures EncodeVarint(v) == [v % 128 + 128] + EncodeVarint(v / 128)
  {
  }

  /** A negative number takes ten bytes. */
  lemma MinusTwoBytes()
    ensures ItemBytes(Varint(4), Number(-2)) == [0xfe, 0xff, 0xff, 0xff, 0xff, 0xff, 0xff, 0xff, 0xff, 0x01]
  {
    hide EncodeVarint;
    SevenBits(0xffff_ffff_ffff_fffe);
    SevenBits(0x1ff_ffff_ffff_ffff);
    SevenBits(0x3_ffff_ffff_ffff);
    SevenBits(0x7ff_ffff_ffff);
    SevenBits(0xf_ffff_ffff);
    SevenBits(0x1fff_ffff);
    SevenBits(0x3f_ffff);
    SevenBits(0x7fff);
    FormatVectors.VarintBytes(0xff);
  }

  lemma Fixed32Bytes()
    ensures FieldBytes(Field(1, Optional, Fixed32), [Number(0x0403_0201)]) == [0x0d, 1, 2, 3, 4]
  {
    hide EncodeFixed32;
    FormatVectors.FixedBytes();
    assert TagBytes(1, WT_32BIT) == [0x0d];
  }

  lemma Fixed64Bytes()
    ensures FieldBytes(Field(1, Optional, Fixed64), [Number(0x0807_0605_0403_0201)]) == [0x09, 1, 2, 3, 4, 5, 6, 7, 8]
  {
    hide EncodeFixed64;
    FormatVectors.FixedBytes();
    assert TagBytes(1, WT_64BIT) == [0x09];
  }

  lemma TextBytes()
    ensures FieldBytes(Field(2, Optional, Text(4)), [Data([0x74, 0x65, 0x73])]) == [0x12, 3, 0x74, 0x65, 0x73]
    ensures FieldBytes(Field(2, Optional, Bytes(4)), [Data([0x74, 0])]) == [0x12, 2, 0x74, 0]
    ensures FieldBytes(Field(2, Optional, FixedBytes(1)), [Data([7])]) == [0x12, 1, 7]
  {
  }

  /** A message in a message. */
  lemma MessageBytesOf150()
    ensures var d := Descriptor([Field(1, Optional, UVarint(4))]);
            Good(d) && Typed(d, [[Number(150)]])
            && FieldBytes(Field(3, Optional, Submessage(d)), [Message([[Number(150)]])]) == [0x1a, 3, 0x08, 0x96, 0x01]
  {
    var d := Descriptor([Field(1, Optional, UVarint(4))]);
    assert RequiredBefore(d.fields, 1) == 0;
    NumberBytes();
    assert GoodField(d.fields[0]) && FieldTyped(d.fields[0], [Number(150)]);
    assert MessageBytes(d, [[Number(150)]], 0) == [0x08, 0x96, 0x01] + MessageBytes(d, [[Number(150)]], 1);
  }

  /** Fields are written in the order of their descriptors, and absent ones not at all. */
  lemma FieldsInOrder()
    ensures var k := UVarint(4);
            var f, g, h := Field(1, Optional, k), Field(2, Optional, k), Field(3, Optional, k);
            var d, m := Descriptor([f, g, h]), [[Number(5)], [], [Number(6)]];
            Good(d) && Typed(d, m) && MessageBytes(d, m, 0) == [0x08, 5, 0x18, 6]
  {
    hide EncodeVarint;
    FormatVectors.VarintBytes(0x08);
    FormatVectors.VarintBytes(5);
    FormatVectors.VarintBytes(0x18);
    FormatVectors.VarintBytes(6);
    var f, g, h := Field(1, Optional, UVarint(4)), Field(2, Optional, UVarint(4)), Field(3, Optional, UVarint(4));
    var d, m := Descriptor([f, g, h]), [[Number(5)], [], [Number(6)]];
    assert RequiredBefore(d.fields, 1) == 0 && RequiredBefore(d.fields, 2) == 0 && RequiredBefore(d.fields, 3) == 0;
    assert GoodField(f) && GoodField(g) && GoodField(h);
    assert FieldTyped(f, m[0]) && FieldTyped(g, m[1]) && FieldTyped(h, m[2]);
    assert FieldBytes(f, m[0]) == [0x08, 5] && FieldBytes(g, m[1]) == [] && FieldBytes(h, m[2]) == [0x18, 6];
    assert MessageBytes(d, m, 2) == [0x18, 6] + MessageBytes(d, m, 3);
    assert MessageBytes(d, m, 1) == [] + MessageBytes(d, m, 2);
  }

  /** Numbers in an array are packed. */
  lemma PackedBytes()
    ensures FieldBytes(Field(4, Repeated(3), UVarint(4)), [Number(3), Number(270), Number(86942)])
            == [0x22, 6, 0x03, 0x8e, 0x02, 0x9e, 0xa7, 0x05]
  {
    hide EncodeVarint;
    var k := UVarint(4);
    FormatVectors.VarintBytes(3);
    FormatVectors.VarintBytes(270);
    FormatVectors.VarintBytes(86942);
    FormatVectors.VarintBytes(6);
    FormatVectors.VarintBytes(4 * 8 + WT_STRING);
    assert ItemsBytes(k, [Number(86942)]) == [0x9e, 0xa7, 0x05];
    assert ItemsBytes(k, [Number(270), Number(86942)]) == [0x8e, 0x02] + [0x9e, 0xa7, 0x05];
    assert ItemsBytes(k, [Number(3), Number(270), Number(86942)]) == [3] + ([0x8e, 0x02] + [0x9e, 0xa7, 0x05]);
  }

  /** Strings are not. */
  lemma TextsBytes()
    ensures FieldBytes(Field(4, Repeated(3), Text(4)), [Data([0x61]), Data([0x62])]) == [0x22, 1, 0x61, 0x22, 1, 0x62]
  {
    var k := Text(4);
    assert TaggedBytes(4, k, [Data([0x62])]) == [0x22] + ([1, 0x62] + []);
  }
}
