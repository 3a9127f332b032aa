/** The framing of a stream: its chunks as the writer makes them (writer.go, minlz.go). */
module Stream {
  import opened Bytes
  import opened Format
  import opened Encoding
  import opened Varint

  const CHUNK_UNCOMPRESSED: Byte := 0x01
  const CHUNK_COMPRESSED: Byte := 0x02
  const CHUNK_COMPRESSED_COMP_CRC: Byte := 0x03
  const CHUNK_EOF: Byte := 0x20
  const MAX_NON_SKIPPABLE: Byte := 0x3f
  const CHUNK_STREAM_ID: Byte := 0xff
  const MAGIC_BODY: seq<Byte> := [0x4d, 0x69, 0x6e, 0x4c, 0x7a]

  /**
   What the writer is given: the checksum, and a block encoder. The encoder returns the body of a
   block, or nothing for an incompressible one.
   */
  datatype Codec = Codec(crc: seq<Byte> -> nat, encode: seq<Byte> -> seq<Byte>)

  /** What a block encoder may return for `u`: nothing, or a body that decodes to it and fits an output buffer. */
  ghost predicate GoodBlock(blockSize: nat, u: seq<Byte>, body: seq<Byte>) {
    body != [] ==>
      |body| <= |u| && |PutUvarint(|u|)| + |body| <= blockSize + 2 && DecodeBody(body, |u|) == Some(u)
  }

  /** What streams need of a block encoder; `WriterEncoder` says which of the levels keep it. */
  ghost predicate GoodCodec(k: Codec, blockSize: nat) {
    && (forall u: seq<Byte> :: k.crc(u) < 0x1_0000_0000)
    && (forall u: seq<Byte> {:trigger k.encode(u)} :: 0 < |u| <= blockSize ==> GoodBlock(blockSize, u, k.encode(u)))
  }

  function Chunk(kind: Byte, data: seq<Byte>): (r: seq<Byte>) {
    [kind] + LE24(|data|) + data
  }

  /** The chunk for one block: compressed if the encoder succeeds, stored otherwise. */
  function DataChunk(k: Codec, u: seq<Byte>): (r: seq<Byte>) {
    var body := k.encode(u);
    if body != [] then Chunk(CHUNK_COMPRESSED, LE32(k.crc(u)) + (PutUvarint(|u|) + body))
    else Chunk(CHUNK_UNCOMPRESSED, LE32(k.crc(u)) + u)
  }

  /** `bits.Len(x)`. */
  function BitLen(x: nat): (r: nat) {
    if x == 0 then 0 else 1 + BitLen(x / 2)
  }

  /** `makeHeader`. */
  function MakeHeader(blockSize: nat): (r: seq<Byte>)
    requires 0x1000 <= blockSize <= MAX_BLOCK_SIZE
  {
    Chunk(CHUNK_STREAM_ID, MAGIC_BODY + [Low(BitLen(blockSize - 1) - 10)])
  }

  function EofChunk(total: nat): (r: seq<Byte>) {
    Chunk(CHUNK_EOF, PutUvarint(total))
  }

  /** The size indicator of a header is the smallest power of two that holds a block. */
  lemma {:induction false} BitLenBounds(x: nat, n: nat, m: nat)
    requires m == Pow2(n)
    ensures x < m ==> BitLen(x) <= n
    decreases n
  {
    if x < m && n > 0 && x > 0 {
      BitLenBounds(x / 2, n - 1, Pow2(n - 1));
    }
  }

  function Pow2(n: nat): (r: nat)
    ensures r >= 1
  {
    if n == 0 then 1 else 2 * Pow2(n - 1)
  }

  lemma {:induction false} BitLenCovers(x: nat)
    ensures x < Pow2(BitLen(x))
    decreases x
  {
    if x > 0 { BitLenCovers(x / 2); }
  }
}
