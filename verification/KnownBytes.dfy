/**
 Bytes on the wire and what they say: one example for each form of each operation, chunk and index field, with
 the numbers of the format specification. Decoders and encoders are proved against each other elsewhere; these
 tie them to the format.
 */
module KnownBytes {
  import opened Bytes
  import opened Format
  import opened Varint
  import opened Stream
  import opened Index
  import opened IndexCodec
  import opened Encoding

  /** Section 2.1: literal runs and repeats. */
  lemma Lengths()
    ensures ParseOp([0x00], 0) == Parsed(Literals(1), 1)
    ensures ParseOp([0xe0], 0) == Parsed(Literals(29), 1)
    ensures ParseOp([0xe8, 0x05], 0) == Parsed(Literals(35), 2)
    ensures ParseOp([0xf0, 0x01, 0x02], 0) == Parsed(Literals(543), 3)
    ensures ParseOp([0xf8, 0x01, 0x02, 0x03], 0) == Parsed(Literals(197151), 4)
  {
  }

  lemma Repeats()
    ensures ParseOp([0x24], 0) == Parsed(Repeat(5), 1)
    ensures ParseOp([0xec, 0x05], 0) == Parsed(Repeat(35), 2)
    ensures ParseOp([0xf4, 0x01, 0x02], 0) == Parsed(Repeat(543), 3)
    ensures ParseOp([0xfc, 0x01, 0x02, 0x03], 0) == Parsed(Repeat(197151), 4)
  {
  }

  /** Section 2.3: copies with ten bits of offset. */
  lemma Copies1()
    ensures ParseOp([0x01, 0x00], 0) == Parsed(Copy(0, 1, 4), 2)
    ensures ParseOp([0x45, 0x02], 0) == Parsed(Copy(0, 10, 5), 2)
    ensures ParseOp([0xf9, 0xff], 0) == Parsed(Copy(0, 1024, 18), 2)
    ensures ParseOp([0x3d, 0x00, 0x07], 0) == Parsed(Copy(0, 1, 25), 3)
  {
  }

  /** Section 2.4: copies with sixteen bits of offset. */
  lemma Copies2()
    ensures ParseOp([0x02, 0x00, 0x00], 0) == Parsed(Copy(0, 64, 4), 3)
    ensures ParseOp([0xf2, 0x34, 0x12], 0) == Parsed(Copy(0, 4724, 64), 3)
  {
  }

  lemma MediumCopies2()
    ensures ParseOp([0xf6, 0x34, 0x12, 0x09], 0) == Parsed(Copy(0, 4724, 73), 4)
  {
  }

  lemma LongCopies2()
    ensures ParseOp([0xfa, 0xff, 0xff, 0x01, 0x02], 0) == Parsed(Copy(0, 65599, 577), 5)
    ensures ParseOp([0xfe, 0xff, 0xff, 0x01, 0x02, 0x03], 0) == Parsed(Copy(0, 65599, 197185), 6)
  {
  }

  /** Section 2.5: fused literals, and copies with 21 bits of offset. */
  lemma Fused()
    ensures ParseOp([0x03, 0x01, 0x00], 0) == Parsed(Copy(1, 65, 4), 3)
  {
  }

  lemma LongFused()
    ensures ParseOp([0xfb, 0x34, 0x12], 0) == Parsed(Copy(4, 4724, 11), 3)
  {
  }

  lemma FarCopies3()
    ensures ParseOp([0x07, 0x00, 0x00, 0x00], 0) == Parsed(Copy(0, 65536, 4), 4)
    ensures ParseOp([0xb7, 0x18, 0x00, 0x00], 0) == Parsed(Copy(2, 65539, 9), 4)
  {
  }

  lemma LongCopies3()
    ensures ParseOp([0xbf, 0xff, 0xff, 0xff, 0x09], 0) == Parsed(Copy(3, 2162687, 73), 5)
  {
  }

  /** A whole body: `ab`, a copy from two back, and a repeat of it. */
  lemma Body()
    ensures DecodeBody([0x08, 0x61, 0x62, 0x41, 0x00, 0x0c], 8) ==
              Some([0x61, 0x62, 0x61, 0x62, 0x61, 0x62, 0x61, 0x62])
  {
    hide *;
    var b, ab := [0x08, 0x61, 0x62, 0x41, 0x00, 0x0c], [0x61, 0x62];
    FirstStep();
    SecondStep();
    LastStep();
    assert ab + ab + ab + ab == [0x61, 0x62, 0x61, 0x62, 0x61, 0x62, 0x61, 0x62];
    ThreeSteps(b, 3, 5, Format.State(ab, 1), Format.State(ab + ab + ab, 2), Format.State(ab + ab + ab + ab, 2));
  }

  lemma ThreeSteps(b: seq<Byte>, i: nat, j: nat, x: Format.State, y: Format.State, z: Format.State)
    requires 0 < i < j < |b| && Step(b, 0, INITIAL, 8) == Next(i, x)
    requires Step(b, i, x, 8) == Next(j, y) && Step(b, j, y, 8) == Next(|b|, z) && |z.out| == 8
    ensures DecodeBody(b, 8) == Some(z.out)
  {
    hide Step;
    assert Format.Run(b, |b|, z, 8) == Some(z);
    assert Format.Run(b, j, y, 8) == Some(z);
    assert Format.Run(b, i, x, 8) == Some(z);
  }

  lemma FirstStep()
    ensures var b := [0x08, 0x61, 0x62, 0x41, 0x00, 0x0c];
            Step(b, 0, INITIAL, 8) == Next(3, Format.State([0x61, 0x62], 1))
  {
    var b := [0x08, 0x61, 0x62, 0x41, 0x00, 0x0c];
    assert ParseOp(b, 0) == Parsed(Literals(2), 1) && b[1..3] == [0x61, 0x62];
    assert [] + b[1..3] == [0x61, 0x62];
    hide ParseOp;
  }

  lemma SecondStep()
    ensures var b, ab := [0x08, 0x61, 0x62, 0x41, 0x00, 0x0c], [0x61, 0x62];
            Step(b, 3, Format.State(ab, 1), 8) == Next(5, Format.State(ab + ab + ab, 2))
  {
    var b, ab := [0x08, 0x61, 0x62, 0x41, 0x00, 0x0c], [0x61, 0x62];
    assert ParseOp(b, 3) == Parsed(Copy(0, 2, 4), 2);
    hide ParseOp; hide CopyBack;
    CopyBackUnique(ab, 2, 4, ab + ab + ab);
    assert ab + b[5..5] == ab;
  }

  lemma LastStep()
    ensures var b, ab := [0x08, 0x61, 0x62, 0x41, 0x00, 0x0c], [0x61, 0x62];
            Step(b, 5, Format.State(ab + ab + ab, 2), 8) == Next(6, Format.State(ab + ab + ab + ab, 2))
  {
    var b, ab := [0x08, 0x61, 0x62, 0x41, 0x00, 0x0c], [0x61, 0x62];
    assert ParseOp(b, 5) == Parsed(Repeat(2), 1);
    hide ParseOp; hide CopyBack;
    var out := ab + ab + ab;
    assert (out + ab)[..6] == out;
    CopyBackUnique(out, 2, 2, out + ab);
  }

  /** Section 4: the header of a stream with blocks of 1 MiB, ends of streams, and a chunk of a user. */
  lemma Frames()
    ensures MakeHeader(0x10_0000) == [0xff, 0x06, 0x00, 0x00, 0x4d, 0x69, 0x6e, 0x4c, 0x7a, 0x0a]
    ensures EofChunk(0) == [0x20, 0x01, 0x00, 0x00, 0x00]
    ensures EofChunk(300) == [0x20, 0x02, 0x00, 0x00, 0xac, 0x02]
    ensures Chunk(0x80, [1, 2, 3]) == [0x80, 0x03, 0x00, 0x00, 1, 2, 3]
  {
    Megabyte();
    assert PutUvarint(300) == [0xac] + PutUvarint(2);
    hide BitLen; hide PutUvarint;
    assert PutUvarint(0) == [0] by { SmallUvarint(0); }
    SmallUvarint(2);
  }

  lemma SmallUvarint(x: nat)
    requires x < 128
    ensures PutUvarint(x) == [x]
  {
  }

  lemma Megabyte()
    ensures BitLen(0xf_ffff) == 20
  {
    FiveBits(0xf_ffff, 0x7fff);
    FiveBits(0x7fff, 0x3ff);
    FiveBits(0x3ff, 0x1f);
    hide BitLen;
    assert BitLen(0x1f) == 5 by { SmallBits(); }
  }

  lemma FiveBits(x: nat, y: nat)
    requires y == x / 32 && y > 0
    ensures BitLen(x) == 5 + BitLen(y)
  {
    assert x / 2 / 2 / 2 / 2 / 2 == y;
    assert BitLen(x / 2) == 4 + BitLen(y) by {
      assert BitLen(x / 2 / 2) == 3 + BitLen(y) by { assert BitLen(x / 2 / 2 / 2) == 2 + BitLen(y); }
    }
  }

  lemma SmallBits()
    ensures BitLen(0x1f) == 5
  {
    assert BitLen(3) == 2 && BitLen(7) == 3;
  }

  /** Section 4.12: offsets that are one estimate off, and compressed offsets with what was predicted. */
  lemma UncompressedExample()
    ensures UncompressedBytes([OffsetPair(10, 0), OffsetPair(1010, 0x20_0000)], 0x10_0000, 0) ==
              [0x00, 0x80, 0x80, 0x80, 0x01]
  {
    KnownVarints();
    hide PutVarint;
    var offs := [OffsetPair(10, 0), OffsetPair(1010, 0x20_0000)];
    assert UncompressedBytes(offs, 0x10_0000, 1) == PutVarint(0x10_0000) + [];
  }

  lemma CompressedExample()
    ensures CompressedBytes([OffsetPair(10, 0), OffsetPair(1010, 1), OffsetPair(1710, 2)], 0, 900) ==
              [0x14, 0xc8, 0x01, 0xf3, 0x03]
  {
    KnownVarints();
    var offs := [OffsetPair(10, 0), OffsetPair(1010, 1), OffsetPair(1710, 2)];
    assert CompressedDelta(offs, 0, 900) == 10 && CompressedDelta(offs, 1, 900) == 100;
    assert CompressedDelta(offs, 2, 950) == -250 && NextPredict(1, 900, 100) == 950 && NextPredict(0, 900, 10) == 900;
    hide PutVarint; hide CompressedDelta; hide NextPredict;
    assert CompressedBytes(offs, 3, NextPredict(2, 950, -250)) == [];
    assert CompressedBytes(offs, 2, 950) == PutVarint(-250) + [];
    assert CompressedBytes(offs, 1, 900) == PutVarint(100) + PutVarint(-250);
  }

  lemma KnownVarints()
    ensures PutVarint(0) == [0x00] && PutVarint(10) == [0x14] && PutVarint(100) == [0xc8, 0x01]
    ensures PutVarint(-250) == [0xf3, 0x03] && PutVarint(0x10_0000) == [0x80, 0x80, 0x80, 0x01]
  {
    assert PutUvarint(200) == [0xc8] + PutUvarint(1) && PutUvarint(499) == [0xf3] + PutUvarint(3);
    assert PutUvarint(0x80) == [0x80] + PutUvarint(1) && PutUvarint(0x4000) == [0x80] + PutUvarint(0x80);
    assert PutUvarint(0x20_0000) == [0x80] + PutUvarint(0x4000);
  }
}
