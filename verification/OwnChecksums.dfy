/**
 Streams of chunks with checksums of their compressed data (type 0x03, as the LZ4 converter writes them) in
 the hands of `DecodeConcurrent`: when it does what `Read` does, and when it need not.
 */
module OwnChecksums {
  import opened Bytes
  import opened Encoding
  import opened Varint
  import opened Stream
  import opened ChunkReader
  import opened D = ConcurrentDecode
  import C = ConcurrentReader
  import R = ConcurrentRuns
  import Format

  /** Two blocks of one size, in equally long encodings that the checksum tells apart. */
  ghost predicate ToldApart(c: Settings, size: nat, x: seq<Byte>, y: seq<Byte>) {
    && 0 < size <= 0x1000 && |x| == |y| <= size && c.crc(x) != c.crc(y)
    && Format.DecodeBody(x, size).Some? && Format.DecodeBody(y, size).Some?
  }

  function OwnData(c: Settings, size: nat, x: seq<Byte>): (r: seq<Byte>) { LE32(c.crc(x)) + (PutUvarint(size) + x) }

  function OwnChunk(c: Settings, size: nat, x: seq<Byte>): (r: seq<Byte>) {
    Chunk(CHUNK_COMPRESSED_COMP_CRC, OwnData(c, size, x))
  }

  function OwnJob(c: Settings, size: nat, x: seq<Byte>): (r: C.Job) {
    C.Packed(OwnData(c, size, x), 4 + |PutUvarint(size)|, size, c.crc(x), true, MaxBufSize(0x1000))
  }

  function Times(b: seq<Byte>, k: nat): (r: seq<Byte>) { if k == 0 then [] else b + Times(b, k - 1) }

  /** A header for blocks of 4 KiB, the block `x` again and again, the block `y`, and an EOF chunk. */
  function TwoBlockStream(c: Settings, size: nat, x: seq<Byte>, y: seq<Byte>, k: nat): (r: seq<Byte>) {
    Chunk(CHUNK_STREAM_ID, MAGIC_BODY + [2])
    + (Times(OwnChunk(c, size, x), k) + (OwnChunk(c, size, y) + Chunk(CHUNK_EOF, [])))
  }

  /** A whole chunk in front of anything. */
  lemma RoundOf(c: Settings, st: State, kind: Byte, data: seq<Byte>, t: seq<Byte>)
    requires |data| < 0x100_0000 && Early(st, kind, |data|, |data|).None? && Early(st, kind, |data|, |data + t|).None?
    ensures ReadRound(c, st, Chunk(kind, data) + t) ==
            match FoundIn(c, st, kind, data)
            case Broken(e) => Over(e)
            case Fine(st', job) => Going(st', job, t)
  {
    hide Early; hide FoundIn; hide LE24;
    var b := Chunk(kind, data) + t;
    LoadLE24([kind], |data|, data + t);
    assert |LE24(|data|)| == 3;
    assert b == [kind] + LE24(|data|) + (data + t);
    assert b[4..4 + |data|] == data;
    assert b[4 + |data|..] == t;
  }

  lemma HeaderRound(c: Settings, st: State, t: seq<Byte>)
    requires GoodSettings(c)
    ensures ReadRound(c, st, Chunk(CHUNK_STREAM_ID, MAGIC_BODY + [2]) + t) ==
              Going(State(0, 0x1000, true, true), None, t)
  {
    hide ReadRound; hide Pow2;
    assert Pow2(12) == 0x1000 by { SmallPow(); }
    var data := MAGIC_BODY + [2];
    assert data[..5] == MAGIC_BODY && data[5] == 2;
    RoundOf(c, st, CHUNK_STREAM_ID, data, t);
  }

  lemma SmallPow()
    ensures Pow2(12) == 0x1000
  {
    assert Pow2(6) == 64;
  }

  lemma EofRound(c: Settings, st: State)
    ensures ReadRound(c, st, Chunk(CHUNK_EOF, [])) == Going(st.(wantEOF := false, readHeader := false), None, [])
  {
    hide ReadRound;
    RoundOf(c, st, CHUNK_EOF, [], []);
    assert Chunk(CHUNK_EOF, []) + [] == Chunk(CHUNK_EOF, []);
  }

  /** In a stream with blocks of 4 KiB. */
  predicate Inside(st: State) { st.readHeader && st.maxBlock == 0x1000 }

  lemma DataOf(c: Settings, size: nat, x: seq<Byte>)
    requires GoodSettings(c) && size < 0x1000_0000
    ensures var data := OwnData(c, size, x);
            && |data| == 4 + |PutUvarint(size)| + |x| && |PutUvarint(size)| <= 4 && Load32(data, 0) == c.crc(x)
            && GetUvarint(data, 4, 0) == Some((size, 4 + |PutUvarint(size)|)) && data[4 + |PutUvarint(size)|..] == x
  {
    hide PutUvarint; hide LE32; hide GetUvarint; hide Load32;
    assert |LE32(c.crc(x))| == 4;
    PutUvarintLength(size);
    LoadLE32(c.crc(x), PutUvarint(size) + x);
    UvarintReads(LE32(c.crc(x)), size, x);
    assert OwnData(c, size, x) == LE32(c.crc(x)) + PutUvarint(size) + x;
  }

  lemma OwnRound(c: Settings, st: State, size: nat, x: seq<Byte>, t: seq<Byte>)
    requires GoodSettings(c) && Inside(st) && 0 < size <= 0x1000 && |x| <= size
    ensures ReadRound(c, st, OwnChunk(c, size, x) + t) == Going(st.(pos := st.pos + size), Some(OwnJob(c, size, x)), t)
  {
    DataOf(c, size, x);
    PutUvarintLength(size);
    hide ReadRound; hide OwnData; hide GetUvarint; hide PutUvarint; hide Load32;
    RoundOf(c, st, CHUNK_COMPRESSED_COMP_CRC, OwnData(c, size, x), t);
  }

  /** The job is good, and its data is where it says. */
  lemma OwnHonest(c: Settings, size: nat, x: seq<Byte>)
    requires GoodSettings(c) && 0 < size <= 0x1000 && Format.DecodeBody(x, size).Some?
    ensures C.Body(OwnJob(c, size, x), OwnData(c, size, x)) == x
    ensures C.Raw(OwnJob(c, size, x)) == C.Honest(c, OwnJob(c, size, x)) == Format.DecodeBody(x, size)
  {
    DataOf(c, size, x);
    hide PutUvarint; hide OwnData; hide Format.DecodeBody;
    var data := OwnData(c, size, x);
    assert data[4 + |PutUvarint(size)|..|data|] == x;
  }

  /** The blocks of the stream, from anywhere inside. */
  lemma {:induction false} TwoBlockJobs(c: Settings, st: State, size: nat, x: seq<Byte>, y: seq<Byte>, k: nat)
    requires GoodSettings(c) && Inside(st) && ToldApart(c, size, x, y)
    ensures var p := Jobs(c, st, Times(OwnChunk(c, size, x), k) + (OwnChunk(c, size, y) + Chunk(CHUNK_EOF, [])));
            && p.end == Eof && |p.jobs| == k + 1 && p.jobs[k] == OwnJob(c, size, y)
            && forall i :: 0 <= i < k ==> p.jobs[i] == OwnJob(c, size, x)
    decreases k
  {
    hide ReadRound; hide OwnChunk; hide OwnJob; hide Format.DecodeBody;
    var t := OwnChunk(c, size, y) + Chunk(CHUNK_EOF, []);
    var st' := st.(pos := st.pos + size);
    if k == 0 {
      assert Times(OwnChunk(c, size, x), 0) + t == t;
      OwnRound(c, st, size, y, Chunk(CHUNK_EOF, []));
      EofRound(c, st');
      EndOfJobs(c, st'.(wantEOF := false, readHeader := false));
    } else {
      var rest := Times(OwnChunk(c, size, x), k - 1) + t;
      assert Times(OwnChunk(c, size, x), k) + t == OwnChunk(c, size, x) + rest;
      OwnRound(c, st, size, x, rest);
      TwoBlockJobs(c, st', size, x, y, k - 1);
      var more := Jobs(c, st', rest).jobs;
      assert ([OwnJob(c, size, x)] + more)[k] == more[k - 1];
      forall i | 0 < i < k
        ensures ([OwnJob(c, size, x)] + more)[i] == OwnJob(c, size, x)
      {
        assert ([OwnJob(c, size, x)] + more)[i] == more[i - 1];
      }
    }
  }

  lemma EndOfJobs(c: Settings, st: State)
    requires !st.wantEOF
    ensures Jobs(c, st, []) == Plan([], Eof)
  {
  }

  lemma StreamJobs(c: Settings, size: nat, x: seq<Byte>, y: seq<Byte>, k: nat)
    requires GoodSettings(c) && ToldApart(c, size, x, y)
    ensures var p := Jobs(c, Initial(c), TwoBlockStream(c, size, x, y, k));
            && p.end == Eof && |p.jobs| == k + 1 && p.jobs[k] == OwnJob(c, size, y)
            && forall i :: 0 <= i < k ==> p.jobs[i] == OwnJob(c, size, x)
  {
    hide ReadRound; hide OwnChunk; hide OwnJob; hide ToldApart; hide Times; hide Chunk;
    HeaderRound(c, Initial(c), Times(OwnChunk(c, size, x), k) + (OwnChunk(c, size, y) + Chunk(CHUNK_EOF, [])));
    TwoBlockJobs(c, State(0, 0x1000, true, true), size, x, y, k);
  }

  lemma BothHonest(c: Settings, size: nat, x: seq<Byte>, y: seq<Byte>)
    requires GoodSettings(c) && ToldApart(c, size, x, y)
    ensures C.Honest(c, OwnJob(c, size, x)).Some? && C.Honest(c, OwnJob(c, size, y)).Some?
  {
    hide OwnJob; hide C.Honest;
    OwnHonest(c, size, x);
    OwnHonest(c, size, y);
  }

  /** `Read` has nothing against the stream. */
  lemma StreamReads(c: Settings, size: nat, x: seq<Byte>, y: seq<Byte>, k: nat)
    requires GoodSettings(c) && ToldApart(c, size, x, y)
    ensures All(c, Initial(c), TwoBlockStream(c, size, x, y, k)).end == Eof
  {
    hide *;
    StreamJobs(c, size, x, y, k);
    BothHonest(c, size, x, y);
    var input := TwoBlockStream(c, size, x, y, k);
    var jobs := Jobs(c, Initial(c), input).jobs;
    ReadsJobs(c, Initial(c), input);
    var i := Sound(Right(c, jobs));
    if i < |jobs| {
      RightAt(c, jobs, i);
      assert false;
    }
  }

  lemma OverX(c: Settings, size: nat, x: seq<Byte>, y: seq<Byte>, prog: C.Task, n: nat)
    requires GoodSettings(c) && ToldApart(c, size, x, y) && n >= 2 && |prog.jobs| == n + 2
    requires prog.jobs[1] == OwnJob(c, size, x) && prog.jobs[n + 1] == OwnJob(c, size, y)
    ensures |prog.jobs[n + 1].chunk| <= |prog.jobs[1].chunk| && R.Overwritten(prog, n + 1) == y
  {
    DataOf(c, size, x);
    DataOf(c, size, y);
    OwnHonest(c, size, y);
    hide OwnData; hide PutUvarint; hide C.Raw; hide C.Honest; hide Format.DecodeBody;
    var dx, dy := OwnData(c, size, x), OwnData(c, size, y);
    assert dy + dx[|dy|..] == dy;
    assert C.Body(prog.jobs[1], dy) == C.Body(prog.jobs[n + 1], dy);
  }

  lemma JobsFail(c: Settings, size: nat, x: seq<Byte>, y: seq<Byte>, prog: C.Task, n: nat) returns (run: seq<C.Action>)
    requires GoodSettings(c) && ToldApart(c, size, x, y) && n >= 2 && !c.ignoreCRC && prog.c == c &&
             |prog.jobs| == n + 2
    requires prog.jobs[n + 1] == OwnJob(c, size, y) && forall i :: 0 <= i < n + 1 ==> prog.jobs[i] == OwnJob(c, size, x)
    ensures C.Exec(prog, n, C.Start(n), run).Some?
    ensures var s := C.Exec(prog, n, C.Start(n), run).value; C.Finished(s) && s.err
  {
    OwnHonest(c, size, x);
    hide OwnData; hide PutUvarint; hide C.Raw; hide C.Honest; hide C.Exec; hide C.Finished; hide R.Overwritten;
    hide Format.DecodeBody;
    OverX(c, size, x, y, prog, n);
    run := R.Clobbered(prog, n);
  }

  /** Unless checksums are ignored, there is a run that fails all the same. */
  lemma StreamFails(c: Settings, size: nat, x: seq<Byte>, y: seq<Byte>, n: nat) returns (run: seq<C.Action>)
    requires GoodSettings(c) && ToldApart(c, size, x, y) && n >= 2 && !c.ignoreCRC
    ensures var input := TwoBlockStream(c, size, x, y, n + 1); Complete(c, input, n, run) && !Agrees(c, input, n, run)
  {
    hide All; hide Jobs; hide TwoBlockStream; hide C.Exec; hide C.Finished; hide ToldApart; hide OwnJob; hide C.Start;
    var input := TwoBlockStream(c, size, x, y, n + 1);
    StreamJobs(c, size, x, y, n + 1);
    StreamReads(c, size, x, y, n + 1);
    run := JobsFail(c, size, x, y, Blocks(c, input), n);
  }

  /**
   With a checksum that tells two blocks apart, `DecodeConcurrent` does what `Read` does on all streams,
   whatever the interleaving, if and only if checksums are ignored.
   */
  lemma AgreesAlways(c: Settings, n: nat, size: nat, x: seq<Byte>, y: seq<Byte>)
    requires GoodSettings(c) && ToldApart(c, size, x, y) && n >= 2
    ensures (forall input, run | Complete(c, input, n, run) :: Agrees(c, input, n, run)) <==> c.ignoreCRC
  {
    hide Complete; hide Agrees; hide Blocks; hide TwoBlockStream; hide ToldApart;
    if c.ignoreCRC {
      forall input, run | Complete(c, input, n, run)
        ensures Agrees(c, input, n, run)
      {
        DecodesLikeRead(c, input, n, run);
      }
    } else {
      var run := StreamFails(c, size, x, y, n);
      assert Complete(c, TwoBlockStream(c, size, x, y, n + 1), n, run);
    }
  }
}
