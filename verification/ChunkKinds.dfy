/**
 What a reader makes of each kind of chunk, in numbers: section 4 of the format specification, with the
 errors of `Read` (reader.go). A chunk is given by its type and its data, and anything may follow it.
 */
module ChunkKinds {
  import opened Bytes
  import opened Encoding
  import opened Varint
  import opened Stream
  import opened ChunkReader
  import Format

  lemma StepOf(c: Settings, st: State, kind: Byte, data: seq<Byte>, t: seq<Byte>)
    requires |data| < 0x100_0000
    ensures Step(c, st, Chunk(kind, data) + t) ==
              match Early(st, kind, |data|, |data| + |t|)
              case Some(e) => Failed(e)
              case None =>
                match Handled(c, st, kind, data)
                case Bad(e) => Failed(e)
                case Good(st', out) => More(st', out, t)
  {
    hide Load24; hide Handled;
    var b := Chunk(kind, data) + t;
    assert b == [kind] + LE24(|data|) + (data + t);
    LoadLE24([kind], |data|, data + t);
    assert b[4..4 + |data|] == data && b[4 + |data|..] == t;
  }

  /** Types that are reserved and may not be skipped; without Snappy and S2 the type 0 of their data is one. */
  lemma Reserved(c: Settings, st: State, kind: Byte, input: seq<Byte>)
    requires |input| >= 4 && input[0] == kind
    requires kind == 0 || 0x04 <= kind <= 0x1f || 0x21 <= kind <= 0x3f
    ensures Step(c, st, input) == Failed(if st.readHeader then Unsupported else Corrupt)
  {
    hide Load24;
  }

  /** Types that are skipped, whatever is in them: reserved ones, and those that users may define so. */
  lemma Skippable(c: Settings, st: State, kind: Byte, data: seq<Byte>, t: seq<Byte>)
    requires 0x40 <= kind <= 0xbf || kind == 0xfe
    requires |data| < 0x100_0000
    ensures Step(c, st, Chunk(kind, data) + t) == More(st, [], t)
  {
    hide Chunk;
    StepOf(c, st, kind, data, t);
  }

  /** Types of users that may not be skipped. */
  lemma UserOnly(c: Settings, st: State, kind: Byte, input: seq<Byte>)
    requires |input| >= 4 && input[0] == kind && 0xc0 <= kind <= 0xfd
    ensures Step(c, st, input) == Failed(ChunkReader.UserChunk)
  {
    hide Load24;
  }

  /** What a block with a checksum does: it is data, unless the checksum is compared and wrong. */
  function Checked(c: Settings, st: State, sum: nat, summed: seq<Byte>, out: seq<Byte>, t: seq<Byte>): (r: Next) {
    if !c.ignoreCRC && c.crc(summed) != sum then Failed(BadCrc) else More(st.(pos := st.pos + |out|), out, t)
  }

  /** Stored data. */
  lemma StoredData(c: Settings, st: State, sum: nat, u: seq<Byte>, t: seq<Byte>)
    requires st.readHeader && sum < 0x1_0000_0000 && |u| <= MAX_BLOCK_SIZE && st.maxBlock <= MAX_BLOCK_SIZE
    ensures Step(c, st, Chunk(CHUNK_UNCOMPRESSED, LE32(sum) + u) + t) ==
              if |u| <= st.maxBlock then Checked(c, st, sum, u, u, t)
              else if |u| <= st.maxBlock + 2 then Failed(TooLarge)
              else Failed(Corrupt)
  {
    hide Chunk; hide LE32; hide Load32;
    var data := LE32(sum) + u;
    LoadLE32(sum, u);
    assert data[4..] == u;
    StepOf(c, st, CHUNK_UNCOMPRESSED, data, t);
  }

  /**
   A compressed block of type 0x02, whose checksum is that of the data, or 0x03, whose checksum is that of the
   body: refused if it is too large, if its body is longer than its data or does not decode, and then if its
   checksum is wrong.
   */
  lemma CompressedData(c: Settings, st: State, kind: Byte, sum: nat, n: nat, body: seq<Byte>, t: seq<Byte>)
    requires st.readHeader && (kind == 0x02 || kind == 0x03) && sum < 0x1_0000_0000 && n <= 0xffff_ffff
    requires st.maxBlock <= MAX_BLOCK_SIZE && |PutUvarint(n)| + |body| <= st.maxBlock + 2
    ensures Step(c, st, Chunk(kind, LE32(sum) + (PutUvarint(n) + body)) + t) ==
              if n > st.maxBlock then Failed(TooLarge)
              else if n == 0 || n < |body| then Failed(Corrupt)
              else
                match Format.DecodeBody(body, n)
                case None => Failed(Corrupt)
                case Some(out) => Checked(c, st, sum, if kind == 0x03 then body else out, out, t)
  {
    hide Chunk; hide LE32; hide Load32; hide PutUvarint; hide GetUvarint; hide Format.DecodeBody;
    var data := LE32(sum) + (PutUvarint(n) + body);
    LoadLE32(sum, PutUvarint(n) + body);
    UvarintReads(LE32(sum), n, body);
    assert data == LE32(sum) + PutUvarint(n) + body;
    assert data[4 + |PutUvarint(n)|..] == body;
    StepOf(c, st, kind, data, t);
  }

  /** Data in front of a stream identifier. */
  lemma DataTooEarly(c: Settings, st: State, kind: Byte, input: seq<Byte>)
    requires !st.readHeader && |input| >= 4 && input[0] == kind && 0x01 <= kind <= 0x03
    ensures Step(c, st, input) == Failed(Corrupt)
  {
    hide Load24;
  }

  /** An EOF chunk, with or without the size of the data. */
  lemma EndOfData(c: Settings, st: State, total: nat, t: seq<Byte>)
    requires total < 0x1_0000_0000_0000_0000
    ensures var done := More(st.(wantEOF := false, readHeader := false), [], t);
            && Step(c, st, Chunk(CHUNK_EOF, []) + t) == done
            && Step(c, st, EofChunk(total) + t) ==
                 if c.ignoreStreamID || total == st.pos then done else Failed(Corrupt)
  {
    hide Chunk; hide PutUvarint; hide GetUvarint;
    StepOf(c, st, CHUNK_EOF, [], t);
    CapIs64Bits();
    PutUvarintAtMost(total, 0);
    UvarintReads([], total, []);
    assert [] + PutUvarint(total) + [] == PutUvarint(total);
    StepOf(c, st, CHUNK_EOF, PutUvarint(total), t);
  }

  /** A stream identifier: the letters, then the logarithm of the block size less 10; two bits must be 0. */
  lemma Identifier(c: Settings, st: State, data: seq<Byte>, t: seq<Byte>)
    requires |data| < 0x100_0000
    ensures Step(c, st, Chunk(CHUNK_STREAM_ID, data) + t) ==
              if |data| != 6 then Failed(Corrupt)
              else if data[..5] != MAGIC_BODY then Failed(Unsupported)
              else if data[5] >= 64 || data[5] % 16 > 13 then Failed(Corrupt)
              else if Pow2(10 + data[5] % 16) > c.maxBlockOrg then Failed(TooLarge)
              else More(State(0, Pow2(10 + data[5] % 16), true, true), [], t)
  {
    hide Chunk; hide Pow2;
    StepOf(c, st, CHUNK_STREAM_ID, data, t);
  }
}
