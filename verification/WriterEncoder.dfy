/** writer.go: `encodeBlock`, the block encoder of a writer without a custom one. */
module WriterEncoder {
  import opened Bytes
  import opened Encoding
  import opened FarMatch
  import opened FarInput
  import opened Matching
  import opened OutputBound
  import opened Stream
  import opened Varint
  import Block
  import EncodeL1
  import EncodeL2
  import EncodeL3

  /** Sizes of the size header. */
  lemma HeaderLength(n: nat)
    requires n <= MAX_BLOCK_SIZE
    ensures |PutUvarint(n)| == UvarintLen(n)
  {
    PutUvarintLength(n);
  }

  /** `None` is level 3 running out of space. */
  datatype Result = Result(body: Option<seq<Byte>>)

  /**
   The smallest buffer that the writer passes ends where a stored block would. Level 2 keeps the promise that
   streams need for every block, level 1 for all that are short enough for its offsets, and level 3 whenever
   it returns, as it does for short ones.
   */
  method EncodeBlock(u: seq<Byte>, blockSize: nat, level: nat, h: Block.Hashes) returns (r: Result)
    requires 0 < |u| <= blockSize <= MAX_BLOCK_SIZE && Block.GoodHashes(h, |u|)
    ensures level != 3 || |u| <= 1033 ==> r.body.Some?
    ensures r.body.Some? && (level == 1 ==> |u| <= MAX_COPY3_OFFSET + 10) ==> GoodBlock(blockSize, u, r.body.value)
    ensures u == FarExample() && level == 1 && Apart(h.l1) ==> r.body.Some? && !GoodBlock(blockSize, u, r.body.value)
    ensures Uniform(u) && |u| >= 16 && 1 <= level <= 3 ==> r.body.Some? && 0 < |r.body.value| <= 14
  {
    hide Uniform;
    HeaderLength(|u|);
    hide FarExample; hide Apart; hide PutUvarint;
    var dst := new Byte[|u| - |PutUvarint(|u|)|](_ => 0);
    var n: nat := 0;
    if level == 1 {
      if |u| >= 16 {
        ghost var far;
        n, far := EncodeL1.EncodeBlock(dst, u, h.l1);
      }
    } else if level == 2 {
      n := EncodeL2.EncodeBlockBetter(dst, u, h.l2Long, h.l2Short);
    } else if level == 3 {
      var best := EncodeL3.EncodeBlockBest(dst, u, h.l3Long, h.l3Short);
      if best.OutOfSpace? { return Result(None); }
      n := best.d;
    }
    return Result(Some(dst[..n]));
  }
}
