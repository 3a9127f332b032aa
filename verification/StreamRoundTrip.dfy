/**
 Streams that the writer makes, in the hands of the reader: what is read back, which truncations are
 noticed, what happens to concatenated streams, and reading from an index entry on.
 */
module StreamRoundTrip {
  import opened Bytes
  import opened Encoding
  import opened Varint
  import opened Stream
  import opened ChunkReader
  import Format
  import C = ConcurrentWriter
  import P = WritePlan
  import W = Writer

  /**
   A writer with a good block encoder, and a reader with the same checksum and a limit that admits the
   writer's block size.
   */
  ghost predicate Compatible(g: P.Config, c: Settings) {
    && P.GoodConfig(g) && GoodCodec(g.k, g.blockSize) && GoodSettings(c) && c.crc == g.k.crc
    && Pow2(BitLen(g.blockSize - 1)) <= c.maxBlockOrg
  }

  // ---------- one chunk ----------

  /** A chunk followed by nothing is read as its type and data say. */
  lemma ChunkStep(c: Settings, st: State, kind: Byte, data: seq<Byte>)
    requires |data| < 0x100_0000
    ensures Step(c, st, Chunk(kind, data)) ==
            match Early(st, kind, |data|, |data|)
            case Some(e) => Failed(e)
            case None =>
              match Handled(c, st, kind, data)
              case Bad(e) => Failed(e)
              case Good(st', out) => More(st', out, [])
  {
    hide Early; hide Handled;
    var b := Chunk(kind, data);
    LoadLE24([kind], |data|, data);
    assert b[4..4 + |data|] == data;
    assert b[4 + |data|..] == [];
  }

  lemma Sum32(x: nat, q: seq<Byte>)
    requires x < 0x1_0000_0000
    ensures Load32(LE32(x) + q, 0) == x && (LE32(x) + q)[4..] == q
  {
    LoadLE32(x, q);
  }

  lemma DataChunkReads(g: P.Config, c: Settings, st: State, u: seq<Byte>)
    requires Compatible(g, c) && st.readHeader && 0 < |u| <= g.blockSize <= st.maxBlock <= MAX_BLOCK_SIZE
    ensures Step(c, st, DataChunk(g.k, u)) == More(st.(pos := st.pos + |u|), u, [])
  {
    var sum, body := g.k.crc(u), g.k.encode(u);
    assert GoodBlock(g.blockSize, u, body);
    hide Step; hide Format.DecodeBody; hide Chunk; hide LE32; hide GetUvarint; hide Load32;
    if body != [] {
      hide PutUvarint;
      var size := PutUvarint(|u|);
      var data := LE32(sum) + (size + body);
      Sum32(sum, size + body);
      assert data == LE32(sum) + size + body;
      UvarintReads(LE32(sum), |u|, body);
      assert data[4 + |size|..] == body;
      assert |LE32(sum)| == 4;
      ChunkStep(c, st, CHUNK_COMPRESSED, data);
    } else {
      Sum32(sum, u);
      assert |LE32(sum)| == 4;
      ChunkStep(c, st, CHUNK_UNCOMPRESSED, LE32(sum) + u);
    }
  }

  lemma {:induction false} Pow2Grows(m: nat, n: nat)
    requires m <= n
    ensures Pow2(m) <= Pow2(n)
  {
    if m < n { Pow2Grows(m, n - 1); }
  }

  /** The block size indicator of a header is from 2 to 13, and stands for no less than the block size. */
  lemma Indicator(blockSize: nat)
    requires 0x1000 <= blockSize <= MAX_BLOCK_SIZE
    ensures 12 <= BitLen(blockSize - 1) <= 23 && blockSize <= Pow2(BitLen(blockSize - 1)) <= MAX_BLOCK_SIZE
  {
    hide BitLen;
    assert Pow2(6) == 64 && Pow2(12) == 4096 && Pow2(18) == 262144 && Pow2(23) == MAX_BLOCK_SIZE;
    BitLenBounds(blockSize - 1, 23, MAX_BLOCK_SIZE);
    BitLenCovers(blockSize - 1);
    if BitLen(blockSize - 1) < 12 { Pow2Grows(BitLen(blockSize - 1), 11); }
    Pow2Grows(BitLen(blockSize - 1), 23);
  }

  lemma HeaderReads(g: P.Config, c: Settings, st: State)
    requires Compatible(g, c)
    ensures Step(c, st, P.HeaderOf(g)) == More(State(0, Pow2(BitLen(g.blockSize - 1)), true, true), [], [])
  {
    hide Step; hide Pow2; hide BitLen; hide Chunk;
    Indicator(g.blockSize);
    var n := BitLen(g.blockSize - 1);
    var data := MAGIC_BODY + [Low(n - 10)];
    assert data[..5] == MAGIC_BODY && data[5] == n - 10;
    ChunkStep(c, st, CHUNK_STREAM_ID, data);
  }

  /** An EOF chunk closes a stream if it gives the right size, or nobody looks at it. */
  lemma EofReads(c: Settings, st: State, total: nat)
    requires total < 0x1_0000_0000_0000_0000
    ensures Step(c, st, EofChunk(total)) ==
            if c.ignoreStreamID || total == st.pos then More(st.(wantEOF := false, readHeader := false), [], [])
            else Failed(Corrupt)
  {
    hide Step; hide PutUvarint; hide GetUvarint; hide Chunk;
    var size := PutUvarint(total);
    CapIs64Bits();
    PutUvarintAtMost(total, 0);
    UvarintReads([], total, []);
    assert [] + size + [] == size;
    ChunkStep(c, st, CHUNK_EOF, size);
  }

  lemma EofFails(c: Settings, st: State, total: nat, t: seq<Byte>)
    requires total < 0x1_0000_0000_0000_0000 && !c.ignoreStreamID && total != st.pos
    ensures Step(c, st, EofChunk(total) + t) == Failed(Corrupt)
  {
    hide PutUvarint; hide GetUvarint;
    var size := PutUvarint(total);
    CapIs64Bits();
    PutUvarintAtMost(total, 0);
    UvarintReads([], total, []);
    assert [] + size + [] == size;
    var b := EofChunk(total) + t;
    LoadLE24([CHUNK_EOF], |size|, size + t);
    assert b == [CHUNK_EOF] + LE24(|size|) + (size + t);
    assert b[4..4 + |size|] == size;
  }

  predicate SkippableId(id: Byte) { id < 0xc0 || id == 0xfe }

  lemma UserReads(c: Settings, st: State, id: Byte, p: seq<Byte>)
    requires P.AllowedUserChunk(id, p)
    ensures SkippableId(id) ==> Step(c, st, Chunk(id, p)) == More(st, [], [])
  {
    hide Step; hide Chunk;
    ChunkStep(c, st, id, p);
  }

  lemma UserFails(c: Settings, st: State, b: seq<Byte>, t: seq<Byte>)
    requires |b| >= 4 && 0xc0 <= b[0] <= 0xfd
    ensures Step(c, st, b + t) == Failed(UserChunk)
  {
  }

  // ---------- the operations of a writer ----------

  /** No user chunk that stops readers. */
  predicate Unstoppable(ops: seq<C.Op>) {
    forall i :: 0 <= i < |ops| && ops[i].User? && |ops[i].b| > 0 ==> SkippableId(ops[i].b[0])
  }

  /** Where the reader is after the output of `op`. */
  function AfterOp(g: P.Config, st: State, op: C.Op): (r: State)
    requires P.GoodConfig(g)
  {
    var started := State(0, Pow2(BitLen(g.blockSize - 1)), true, true);
    match op
    case Header(_) => started
    case Direct(_, u) => started.(pos := |u|)
    case CopyBlock(u) => st.(pos := st.pos + |u|)
    case Block(u) => st.(pos := st.pos + |u|)
    case _ => st
  }

  function AfterOps(g: P.Config, st: State, ops: seq<C.Op>): (r: State)
    requires P.GoodConfig(g)
    decreases |ops|
  {
    if ops == [] then st else AfterOps(g, AfterOp(g, st, ops[0]), ops[1..])
  }

  /** A reader in the middle of a stream takes blocks of this writer. */
  ghost predicate Ready(g: P.Config, st: State, wrote: bool) {
    wrote ==> st.readHeader && g.blockSize <= st.maxBlock <= MAX_BLOCK_SIZE
  }

  lemma DirectReads(g: P.Config, c: Settings, st: State, u: seq<Byte>)
    requires Compatible(g, c) && 0 < |u| <= g.blockSize
    ensures var b := P.HeaderOf(g) + DataChunk(g.k, u);
            var st1 := State(0, Pow2(BitLen(g.blockSize - 1)), true, true);
            Step(c, st, b) == More(st1, [], DataChunk(g.k, u)) &&
            Step(c, st1, DataChunk(g.k, u)) == More(st1.(pos := |u|), u, [])
  {
    hide Step; hide DataChunk; hide P.HeaderOf; hide BitLen; hide Pow2; hide GoodCodec; hide GoodSettings;
    HeaderReads(g, c, st);
    Indicator(g.blockSize);
    var st1 := State(0, Pow2(BitLen(g.blockSize - 1)), true, true);
    DataChunkReads(g, c, st1, u);
    StepAppend(c, st, P.HeaderOf(g), DataChunk(g.k, u));
    assert [] + DataChunk(g.k, u) == DataChunk(g.k, u);
  }

  /** Reading what one operation wrote, and whatever follows. */
  ghost predicate Reads(g: P.Config, c: Settings, st: State, op: C.Op, t: seq<Byte>)
    requires P.GoodConfig(g)
  {
    var st' := AfterOp(g, st, op);
    All(c, st, C.OpBytes(g.k, op) + t) == Run(C.OpInput(op) + All(c, st', t).data, All(c, st', t).end)
  }

  lemma HeaderOpReads(g: P.Config, c: Settings, st: State, op: C.Op, t: seq<Byte>)
    requires Compatible(g, c) && op.Header? && P.Fits(g, op, false)
    ensures P.GoodConfig(g) && Reads(g, c, st, op, t)
  {
    hide Step; hide All; hide P.HeaderOf; hide BitLen; hide Pow2; hide GoodCodec; hide GoodSettings;
    HeaderReads(g, c, st);
    AllStep(c, st, op.b, AfterOp(g, st, op), [], t);
  }

  lemma DirectOpReads(g: P.Config, c: Settings, st: State, op: C.Op, t: seq<Byte>)
    requires Compatible(g, c) && op.Direct? && P.Fits(g, op, false)
    ensures P.GoodConfig(g) && Reads(g, c, st, op, t)
  {
    hide Step; hide All; hide DataChunk; hide P.HeaderOf; hide BitLen; hide Pow2; hide GoodCodec; hide GoodSettings;
    var u, st1 := op.u, State(0, Pow2(BitLen(g.blockSize - 1)), true, true);
    DirectReads(g, c, st, u);
    HeaderReads(g, c, st);
    AllStep(c, st, op.b, st1, [], DataChunk(g.k, u) + t);
    AllStep(c, st1, DataChunk(g.k, u), AfterOp(g, st, op), u, t);
    Assoc(op.b, DataChunk(g.k, u), t);
    Assoc([], u, All(c, AfterOp(g, st, op), t).data);
    assert [] + u == u;
  }

  lemma BlockOpReads(g: P.Config, c: Settings, st: State, op: C.Op, t: seq<Byte>)
    requires Compatible(g, c) && (op.CopyBlock? || op.Block?) && P.Fits(g, op, true) && Ready(g, st, true)
    ensures P.GoodConfig(g) && Reads(g, c, st, op, t)
  {
    hide Step; hide All; hide DataChunk; hide GoodCodec; hide GoodSettings;
    DataChunkReads(g, c, st, op.u);
    AllStep(c, st, DataChunk(g.k, op.u), AfterOp(g, st, op), op.u, t);
  }

  lemma OtherOpReads(g: P.Config, c: Settings, st: State, op: C.Op, t: seq<Byte>)
    requires P.GoodConfig(g) && (op.User? || op.FlushOp?) && P.Fits(g, op, true) && (op.User? ==> SkippableId(op.b[0]))
    ensures Reads(g, c, st, op, t)
  {
    hide Step; hide All; hide Chunk;
    assert [] + All(c, st, t).data == All(c, st, t).data;
    if op.User? {
      UserReads(c, st, op.b[0], op.b[4..]);
      AllStep(c, st, op.b, st, [], t);
    } else {
      assert [] + t == t;
    }
  }

  lemma FitsWhen(g: P.Config, op: C.Op, wrote: bool)
    requires P.GoodConfig(g) && P.Fits(g, op, wrote)
    ensures op.Header? || op.Direct? ==> !wrote
    ensures op.User? || op.CopyBlock? || op.Block? ==> wrote
    ensures op.FlushOp? ==> P.Fits(g, op, true)
  {
  }

  lemma StaysReady(g: P.Config, st: State, op: C.Op, wrote: bool)
    requires P.GoodConfig(g) && P.Fits(g, op, wrote) && Ready(g, st, wrote)
    ensures Ready(g, AfterOp(g, st, op), wrote || !op.FlushOp?)
  {
    hide Pow2; hide BitLen; hide P.HeaderOf; hide Chunk;
    IndicatorOf(g);
  }

  lemma OpReads(g: P.Config, c: Settings, st: State, op: C.Op, wrote: bool, t: seq<Byte>)
    requires P.GoodConfig(g) && Compatible(g, c) && P.Fits(g, op, wrote) && Ready(g, st, wrote)
    requires op.User? ==> SkippableId(op.b[0])
    ensures Reads(g, c, st, op, t) && Ready(g, AfterOp(g, st, op), wrote || !op.FlushOp?)
  {
    hide *;
    FitsWhen(g, op, wrote);
    StaysReady(g, st, op, wrote);
    match op {
      case Header(_) => HeaderOpReads(g, c, st, op, t);
      case Direct(_, _) => DirectOpReads(g, c, st, op, t);
      case CopyBlock(_) => BlockOpReads(g, c, st, op, t);
      case Block(_) => BlockOpReads(g, c, st, op, t);
      case User(_) => OtherOpReads(g, c, st, op, t);
      case FlushOp => OtherOpReads(g, c, st, op, t);
    }
  }

  lemma IndicatorOf(g: P.Config)
    requires P.GoodConfig(g)
    ensures g.blockSize <= Pow2(BitLen(g.blockSize - 1)) <= MAX_BLOCK_SIZE
  {
    Indicator(g.blockSize);
  }

  lemma {:induction false} OpsRead(g: P.Config, c: Settings, st: State, ops: seq<C.Op>, wrote: bool, wrote': bool,
                                   t: seq<Byte>)
    requires Compatible(g, c) && P.WellFormed(g, ops, wrote, wrote') && Ready(g, st, wrote) && Unstoppable(ops)
    ensures var st' := AfterOps(g, st, ops);
            All(c, st, P.OpsBytes(g.k, ops) + t) == Run(P.OpsInput(ops) + All(c, st', t).data, All(c, st', t).end)
    decreases |ops|
  {
    hide AfterOp; hide All; hide Ready; hide C.OpBytes; hide C.OpInput;
    if ops == [] {
      assert [] + t == t;
      assert [] + All(c, st, t).data == All(c, st, t).data;
    } else {
      var st1, more := AfterOp(g, st, ops[0]), P.OpsBytes(g.k, ops[1..]) + t;
      UserHasBytes(g, ops[0], wrote);
      hide P.Fits; hide Compatible;
      Assoc(C.OpBytes(g.k, ops[0]), P.OpsBytes(g.k, ops[1..]), t);
      OpReads(g, c, st, ops[0], wrote, more);
      OpsRead(g, c, st1, ops[1..], wrote || !ops[0].FlushOp?, wrote', t);
      Assoc(C.OpInput(ops[0]), P.OpsInput(ops[1..]), All(c, AfterOps(g, st1, ops[1..]), t).data);
    }
  }

  lemma UserHasBytes(g: P.Config, op: C.Op, wrote: bool)
    requires P.GoodConfig(g) && P.Fits(g, op, wrote)
    ensures op.User? ==> |op.b| > 0
  {
  }

  /** A user chunk that must not be skipped ends the reading, after some of the data. */
  lemma {:induction false} OpsStop(g: P.Config, c: Settings, st: State, ops: seq<C.Op>, wrote: bool, wrote': bool,
                                   t: seq<Byte>)
    requires Compatible(g, c) && P.WellFormed(g, ops, wrote, wrote') && Ready(g, st, wrote) && !Unstoppable(ops)
    ensures All(c, st, P.OpsBytes(g.k, ops) + t).end == UserChunk
    ensures All(c, st, P.OpsBytes(g.k, ops) + t).data <= P.OpsInput(ops)
    decreases |ops|
  {
    hide AfterOp; hide All; hide Ready; hide C.OpBytes; hide C.OpInput;
    var st1, more := AfterOp(g, st, ops[0]), P.OpsBytes(g.k, ops[1..]) + t;
    assert P.Fits(g, ops[0], wrote);
    Assoc(C.OpBytes(g.k, ops[0]), P.OpsBytes(g.k, ops[1..]), t);
    if ops[0].User? && !SkippableId(ops[0].b[0]) {
      StopsHere(g, c, st, ops[0], more);
    } else {
      hide P.Fits; hide Compatible;
      assert !Unstoppable(ops[1..]);
      OpReads(g, c, st, ops[0], wrote, more);
      OpsStop(g, c, st1, ops[1..], wrote || !ops[0].FlushOp?, wrote', t);
    }
  }

  lemma StopsHere(g: P.Config, c: Settings, st: State, op: C.Op, t: seq<Byte>)
    requires P.GoodConfig(g) && P.Fits(g, op, true) && op.User? && !SkippableId(op.b[0])
    ensures All(c, st, C.OpBytes(g.k, op) + t) == Run([], UserChunk)
  {
    UserFails(c, st, op.b, t);
    hide Step;
  }

  /** The position after operations is the size of what they carry, counted from their header. */
  lemma {:induction false} Positions(g: P.Config, st: State, ops: seq<C.Op>, wrote: bool, wrote': bool)
    requires P.GoodConfig(g) && P.WellFormed(g, ops, wrote, wrote')
    ensures AfterOps(g, st, ops) ==
            if wrote' && !wrote then State(|P.OpsInput(ops)|, Pow2(BitLen(g.blockSize - 1)), true, true)
            else st.(pos := st.pos + |P.OpsInput(ops)|)
    ensures (wrote ==> wrote') && (!wrote' ==> P.OpsInput(ops) == [] && P.OpsBytes(g.k, ops) == [])
    decreases |ops|
  {
    hide P.HeaderOf; hide Pow2; hide BitLen; hide P.AllowedUserChunk; hide Chunk;
    if ops != [] {
      Positions(g, AfterOp(g, st, ops[0]), ops[1..], wrote || !ops[0].FlushOp?, wrote');
    }
  }

  // ---------- whole streams ----------

  /** The calls write a header. */
  predicate WritesHeader(g: P.Config, calls: seq<P.Call>)
    requires P.GoodConfig(g)
  {
    P.Plan(g, P.NEW_FRONT, calls + [P.Call.Flush]).front.wroteHeader
  }

  /** No user chunk among the calls that stops readers. */
  predicate Readable(calls: seq<P.Call>) {
    forall i :: 0 <= i < |calls| && calls[i].AddUserChunk? && P.AllowedUserChunk(calls[i].id, calls[i].p) ==>
      SkippableId(calls[i].id)
  }

  /** The state behind a stream that starts at `st`. */
  function Behind(g: P.Config, calls: seq<P.Call>, st: State): (r: State)
    requires P.GoodConfig(g)
  {
    var total := |P.CallsInput(calls)|;
    if WritesHeader(g, calls) then State(total, Pow2(BitLen(g.blockSize - 1)), false, false)
    else st.(readHeader := false, wantEOF := false)
  }

  /** The state in front of the EOF chunk. */
  function AtEof(g: P.Config, calls: seq<P.Call>, st: State): (r: State)
    requires P.GoodConfig(g)
  {
    if WritesHeader(g, calls) then State(|P.CallsInput(calls)|, Pow2(BitLen(g.blockSize - 1)), true, true) else st
  }

  lemma ClosedWellFormed(g: P.Config, calls: seq<P.Call>)
    requires P.GoodConfig(g)
    ensures P.WellFormed(g, W.ClosedOps(g, calls), false, WritesHeader(g, calls))
  {
    hide P.Plan; hide P.WellFormed;
    P.PlanWellFormed(g, P.NEW_FRONT, calls + [P.Call.Flush]);
  }

  lemma HeaderBeforeData(g: P.Config, calls: seq<P.Call>)
    requires P.GoodConfig(g)
    ensures !WritesHeader(g, calls) ==> P.CallsInput(calls) == []
  {
    hide P.WellFormed; hide WritesHeader; hide W.ClosedOps; hide P.OpsInput; hide P.CallsInput;
    ClosedWellFormed(g, calls);
    W.ClosedInput(g, calls);
    Positions(g, State(0, 0, false, false), W.ClosedOps(g, calls), false, WritesHeader(g, calls));
  }

  lemma AfterAllOps(g: P.Config, calls: seq<P.Call>, st: State)
    requires P.GoodConfig(g)
    ensures AfterOps(g, st, W.ClosedOps(g, calls)) == AtEof(g, calls, st)
    ensures !WritesHeader(g, calls) ==> P.OpsBytes(g.k, W.ClosedOps(g, calls)) == []
  {
    hide P.WellFormed; hide WritesHeader; hide W.ClosedOps; hide P.OpsInput; hide P.CallsInput; hide AfterOps;
    hide Pow2; hide BitLen;
    hide P.OpsBytes;
    ClosedWellFormed(g, calls);
    W.ClosedInput(g, calls);
    Positions(g, st, W.ClosedOps(g, calls), false, WritesHeader(g, calls));
  }

  /** A stream up to its EOF chunk, in front of anything. */
  lemma UpToEof(g: P.Config, c: Settings, st: State, calls: seq<P.Call>, t: seq<Byte>)
    requires Compatible(g, c) && Unstoppable(W.ClosedOps(g, calls))
    ensures var st1 := AtEof(g, calls, st);
            All(c, st, P.OpsBytes(g.k, W.ClosedOps(g, calls)) + t) ==
                Run(P.CallsInput(calls) + All(c, st1, t).data, All(c, st1, t).end)
  {
    assert P.GoodConfig(g) && Ready(g, st, false);
    hide All; hide Unstoppable; hide Pow2; hide BitLen; hide Compatible; hide P.OpsBytes; hide P.OpsInput;
    hide P.CallsInput;
    hide W.ClosedOps; hide WritesHeader; hide P.WellFormed; hide AfterOps; hide Ready;
    var ops, wrote := W.ClosedOps(g, calls), WritesHeader(g, calls);
    ClosedWellFormed(g, calls);
    W.ClosedInput(g, calls);
    OpsRead(g, c, st, ops, false, wrote, t);
    AfterAllOps(g, calls, st);
  }

  /**
   A stream in front of anything: its data comes out, unless the writer never wrote a header and the
   position is not 0. Then its EOF chunk, which says 0, is an error.
   */
  lemma StreamReads(g: P.Config, c: Settings, st: State, calls: seq<P.Call>, t: seq<Byte>)
    requires Compatible(g, c) && Unstoppable(W.ClosedOps(g, calls)) && |P.CallsInput(calls)| < 0x8000_0000_0000_0000
    ensures var st' := Behind(g, calls, st);
            All(c, st, W.StreamOf(g, calls) + t) ==
            if WritesHeader(g, calls) || st.pos == 0 || c.ignoreStreamID
            then Run(P.CallsInput(calls) + All(c, st', t).data, All(c, st', t).end)
            else Run([], Corrupt)
  {
    assert P.GoodConfig(g);
    hide All; hide Step; hide Unstoppable; hide Pow2; hide BitLen; hide Compatible; hide P.OpsBytes; hide W.ClosedOps;
    hide EofChunk;
    hide WritesHeader; hide P.CallsInput;
    var total, st1 := |P.CallsInput(calls)|, AtEof(g, calls, st);
    Assoc(P.OpsBytes(g.k, W.ClosedOps(g, calls)), EofChunk(total), t);
    UpToEof(g, c, st, calls, EofChunk(total) + t);
    HeaderBeforeData(g, calls);
    if c.ignoreStreamID || total == st1.pos {
      EofReads(c, st1, total);
      AllStep(c, st1, EofChunk(total), st1.(wantEOF := false, readHeader := false), [], t);
      assert [] + All(c, Behind(g, calls, st), t).data == All(c, Behind(g, calls, st), t).data;
    } else {
      EofFails(c, st1, total, t);
      AllOnce(c, st1, EofChunk(total) + t);
      assert P.CallsInput(calls) + [] == P.CallsInput(calls);
    }
  }

  // ---------- user chunks ----------

  ghost predicate NoUsers(ops: seq<C.Op>) { forall i :: 0 <= i < |ops| ==> !ops[i].User? }

  lemma UnstoppableConcat(a: seq<C.Op>, b: seq<C.Op>)
    ensures Unstoppable(a + b) <==> Unstoppable(a) && Unstoppable(b)
  {
    if Unstoppable(a + b) {
      forall i | 0 <= i < |b| && b[i].User? && |b[i].b| > 0
        ensures SkippableId(b[i].b[0])
      {
        assert (a + b)[|a| + i] == b[i];
      }
      forall i | 0 <= i < |a| && a[i].User? && |a[i].b| > 0
        ensures SkippableId(a[i].b[0])
      {
        assert (a + b)[i] == a[i];
      }
    }
  }

  lemma {:induction false} BlocksNoUsers(ps: seq<seq<Byte>>)
    ensures NoUsers(P.Copies(ps)) && NoUsers(P.Blocks(ps))
    decreases |ps|
  {
    if ps != [] { BlocksNoUsers(ps[1..]); }
  }

  lemma {:induction false} WriteNoUsers(g: P.Config, f: P.Front, p: seq<Byte>)
    requires P.GoodConfig(g) && |f.ibuf| <= g.blockSize
    ensures NoUsers(P.PlanWrite(g, f, p).ops)
    decreases |p|, |f.ibuf|
  {
    hide P.Cut; hide P.HeaderOf;
    var room := g.blockSize - |f.ibuf|;
    if |p| > room {
      var first := if f.ibuf == [] then p else f.ibuf + p[..room];
      BlocksNoUsers(P.Cut(first, g.blockSize));
      if f.ibuf != [] { WriteNoUsers(g, P.Front([], true), p[room..]); }
    }
  }

  lemma AsyncFlushNoUsers(g: P.Config, f: P.Front)
    requires P.GoodConfig(g) && |f.ibuf| <= g.blockSize
    ensures NoUsers(P.PlanAsyncFlush(g, f).ops)
  {
    hide P.Cut; hide P.HeaderOf;
    BlocksNoUsers(P.Cut(f.ibuf, g.blockSize));
  }

  lemma CallReadable(g: P.Config, f: P.Front, call: P.Call)
    requires P.GoodConfig(g) && |f.ibuf| <= g.blockSize
    ensures Unstoppable(P.PlanCall(g, f, call).ops) <==> Readable([call])
  {
    hide P.PlanAsyncFlush; hide P.PlanWrite; hide P.Cut; hide P.HeaderOf; hide P.AllowedUserChunk;
    AsyncFlushNoUsers(g, f);
    match call {
      case Write(p) => WriteNoUsers(g, f, p);
      case EncodeBuffer(p) => BlocksNoUsers(P.Cut(p, g.blockSize));
      case AddUserChunk(id, p) =>
        var head := P.HeaderOps(g, f.wroteHeader);
        var user := C.User(Chunk(id, p));
        assert user.b[0] == id;
        UnstoppableConcat(head, [user]);
        assert [call][0] == call && [user][0] == user;
      case _ =>
    }
  }

  lemma {:induction false} PlanReadable(g: P.Config, f: P.Front, calls: seq<P.Call>)
    requires P.GoodConfig(g) && |f.ibuf| <= g.blockSize
    ensures Unstoppable(P.Plan(g, f, calls).ops) <==> Readable(calls)
    decreases |calls|
  {
    hide P.PlanCall; hide Unstoppable;
    if calls == [] {
      NothingUnstoppable();
    } else {
      var a := P.PlanCall(g, f, calls[0]);
      CallReadable(g, f, calls[0]);
      PlanReadable(g, a.front, calls[1..]);
      UnstoppableConcat(a.ops, P.Plan(g, a.front, calls[1..]).ops);
      FirstReadable(calls);
    }
  }

  lemma NothingUnstoppable()
    ensures Unstoppable([])
  {
  }

  lemma FirstReadable(calls: seq<P.Call>)
    requires calls != []
    ensures Readable(calls) <==> Readable([calls[0]]) && Readable(calls[1..])
  {
    hide P.AllowedUserChunk; hide SkippableId;
    assert calls[..1] == [calls[0]];
    if Readable([calls[0]]) && Readable(calls[1..]) {
      assert forall i :: 0 < i < |calls| ==> calls[i] == calls[1..][i - 1];
      assert calls[0] == [calls[0]][0];
    }
    if Readable(calls) {
      assert forall i :: 0 <= i < |calls| - 1 ==> calls[1..][i] == calls[i + 1];
    }
  }

  lemma ClosedReadable(g: P.Config, calls: seq<P.Call>)
    requires P.GoodConfig(g)
    ensures Unstoppable(W.ClosedOps(g, calls)) <==> Readable(calls)
  {
    hide P.Plan; hide Unstoppable;
    var all := calls + [P.Call.Flush];
    PlanReadable(g, P.NEW_FRONT, all);
    assert forall i :: 0 <= i < |calls| ==> all[i] == calls[i];
    assert all[|calls|] == P.Call.Flush;
  }

  // ---------- main results ----------

  /**
   What a writer wrote, a reader reads back, with a clean end; unless there is a user chunk among it that
   readers must not skip.
   */
  lemma RoundTrip(g: P.Config, c: Settings, calls: seq<P.Call>)
    requires Compatible(g, c) && |P.CallsInput(calls)| < 0x8000_0000_0000_0000
    ensures Readable(calls) ==> All(c, Initial(c), W.StreamOf(g, calls)) == Run(P.CallsInput(calls), Eof)
    ensures !Readable(calls) ==>
              && All(c, Initial(c), W.StreamOf(g, calls)).end == UserChunk
              && All(c, Initial(c), W.StreamOf(g, calls)).data <= P.CallsInput(calls)
  {
    assert P.GoodConfig(g);
    hide All; hide Unstoppable; hide Compatible; hide P.OpsBytes; hide W.ClosedOps; hide EofChunk; hide Readable;
    hide P.CallsInput;
    hide P.WellFormed;
    ClosedReadable(g, calls);
    if Readable(calls) {
      StreamReads(g, c, Initial(c), calls, []);
      assert W.StreamOf(g, calls) + [] == W.StreamOf(g, calls);
      NothingLeft(c, Behind(g, calls, Initial(c)));
      assert P.CallsInput(calls) + [] == P.CallsInput(calls);
    } else {
      ClosedWellFormed(g, calls);
      W.ClosedInput(g, calls);
      OpsStop(g, c, Initial(c), W.ClosedOps(g, calls), false, WritesHeader(g, calls), EofChunk(|P.CallsInput(calls)|));
    }
  }

  lemma NothingLeft(c: Settings, st: State)
    ensures All(c, st, []) == Run([], if st.wantEOF then Corrupt else Eof)
  {
  }

  /**
   Two streams, one after the other, read as the data of both; unless the second one was closed without
   ever writing a header and the first has data. The second EOF chunk is then an error.
   */
  lemma Concatenated(g: P.Config, g': P.Config, c: Settings, calls: seq<P.Call>, calls': seq<P.Call>)
    requires Compatible(g, c) && Compatible(g', c) && Readable(calls) && Readable(calls')
    requires |P.CallsInput(calls)| < 0x8000_0000_0000_0000 && |P.CallsInput(calls')| < 0x8000_0000_0000_0000
    ensures var r := All(c, Initial(c), W.StreamOf(g, calls) + W.StreamOf(g', calls'));
            if WritesHeader(g', calls') || P.CallsInput(calls) == [] || c.ignoreStreamID
            then r == Run(P.CallsInput(calls) + P.CallsInput(calls'), Eof)
            else r == Run(P.CallsInput(calls), Corrupt)
  {
    assert P.GoodConfig(g) && P.GoodConfig(g');
    hide All; hide Unstoppable; hide Compatible; hide W.StreamOf; hide Readable; hide P.CallsInput; hide W.ClosedOps;
    hide WritesHeader; hide Pow2; hide BitLen;
    ClosedReadable(g, calls);
    ClosedReadable(g', calls');
    var st := Behind(g, calls, Initial(c));
    StreamReads(g, c, Initial(c), calls, W.StreamOf(g', calls'));
    StreamReads(g', c, st, calls', []);
    assert W.StreamOf(g', calls') + [] == W.StreamOf(g', calls');
    NothingLeft(c, Behind(g', calls', st));
    assert P.CallsInput(calls') + [] == P.CallsInput(calls');
    assert P.CallsInput(calls) + [] == P.CallsInput(calls);
    HeaderBeforeData(g, calls);
  }

  /**
   A stream that lost its EOF chunk is not noticed when another one follows: the reader takes a second
   identifier without the EOF chunk that the first one calls for.
   */
  lemma LostEofChunk(g: P.Config, c: Settings, calls: seq<P.Call>, calls': seq<P.Call>)
    requires Compatible(g, c) && Readable(calls) && Readable(calls') && WritesHeader(g, calls')
    requires |P.CallsInput(calls')| < 0x8000_0000_0000_0000
    ensures All(c, Initial(c), P.OpsBytes(g.k, W.ClosedOps(g, calls)) + W.StreamOf(g, calls')) ==
            Run(P.CallsInput(calls) + P.CallsInput(calls'), Eof)
  {
    assert P.GoodConfig(g);
    hide All; hide Unstoppable; hide Compatible; hide W.StreamOf; hide Readable; hide P.CallsInput; hide W.ClosedOps;
    hide WritesHeader; hide Pow2; hide BitLen; hide P.OpsBytes;
    ClosedReadable(g, calls);
    ClosedReadable(g, calls');
    var st := AtEof(g, calls, Initial(c));
    UpToEof(g, c, Initial(c), calls, W.StreamOf(g, calls'));
    StreamReads(g, c, st, calls', []);
    assert W.StreamOf(g, calls') + [] == W.StreamOf(g, calls');
    NothingLeft(c, Behind(g, calls', st));
    assert P.CallsInput(calls') + [] == P.CallsInput(calls');
  }

  // ---------- truncation ----------

  lemma ClosedAtStep(c: Settings, st: State, b: seq<Byte>, st': State, out: seq<Byte>, t: seq<Byte>, n: nat)
    requires Step(c, st, b) == More(st', out, [])
    ensures ClosedAt(c, st, b + t, n) == if n == 0 then !st.wantEOF else n >= |b| && ClosedAt(c, st', t, n - |b|)
  {
    hide Step;
    StepAppend(c, st, b, t);
    assert [] + t == t;
  }

  /** Truncated after `n` bytes, the input still has all of what `op` wrote. */
  ghost predicate Reaches(g: P.Config, c: Settings, st: State, op: C.Op, t: seq<Byte>, n: nat)
    requires P.GoodConfig(g)
  {
    && n >= |C.OpBytes(g.k, op)| && ClosedAt(c, AfterOp(g, st, op), t, n - |C.OpBytes(g.k, op)|)
    && (AfterOp(g, st, op).wantEOF || (op.FlushOp? && AfterOp(g, st, op) == st))
  }

  lemma FirstChunkClosed(g: P.Config, c: Settings, st: State, t: seq<Byte>, n: nat)
    requires Compatible(g, c) && (st.wantEOF || n > 0) && ClosedAt(c, st, P.HeaderOf(g) + t, n)
    ensures n >= |P.HeaderOf(g)| && ClosedAt(c, State(0, Pow2(BitLen(g.blockSize - 1)), true, true), t,
                                             n - |P.HeaderOf(g)|)
  {
    hide Step; hide ClosedAt;
    HeaderReads(g, c, st);
    ClosedAtStep(c, st, P.HeaderOf(g), State(0, Pow2(BitLen(g.blockSize - 1)), true, true), [], t, n);
  }

  lemma HeaderClosed(g: P.Config, c: Settings, st: State, op: C.Op, wrote: bool, t: seq<Byte>, n: nat)
    requires Compatible(g, c) && P.Fits(g, op, wrote) && Ready(g, st, wrote)
    requires (wrote ==> st.wantEOF) && (st.wantEOF || n > 0) && ClosedAt(c, st, C.OpBytes(g.k, op) + t, n)
    requires op.Header?
    ensures Reaches(g, c, st, op, t, n)
  {
    hide Compatible; hide ClosedAt; hide P.HeaderOf; hide BitLen; hide Pow2; hide Ready;
    FirstChunkClosed(g, c, st, t, n);
  }

  lemma TwoChunksClosed(g: P.Config, c: Settings, st: State, u: seq<Byte>, t: seq<Byte>, n: nat)
    requires Compatible(g, c) && 0 < |u| <= g.blockSize && (st.wantEOF || n > 0)
    requires ClosedAt(c, st, (P.HeaderOf(g) + DataChunk(g.k, u)) + t, n)
    ensures var b := P.HeaderOf(g) + DataChunk(g.k, u);
            n >= |b| && ClosedAt(c, State(|u|, Pow2(BitLen(g.blockSize - 1)), true, true), t, n - |b|)
  {
    assert P.GoodConfig(g);
    hide Compatible; hide Step; hide ClosedAt; hide DataChunk; hide P.HeaderOf; hide BitLen; hide Pow2;
    DirectReads(g, c, st, u);
    HeaderReads(g, c, st);
    var b, d, st1 := P.HeaderOf(g), DataChunk(g.k, u), State(0, Pow2(BitLen(g.blockSize - 1)), true, true);
    Assoc(b, d, t);
    ClosedAtStep(c, st, b, st1, [], d + t, n);
    ClosedAtStep(c, st1, d, st1.(pos := |u|), u, t, n - |b|);
  }

  lemma DirectClosed(g: P.Config, c: Settings, st: State, op: C.Op, wrote: bool, t: seq<Byte>, n: nat)
    requires Compatible(g, c) && P.Fits(g, op, wrote) && Ready(g, st, wrote)
    requires (wrote ==> st.wantEOF) && (st.wantEOF || n > 0) && ClosedAt(c, st, C.OpBytes(g.k, op) + t, n)
    requires op.Direct?
    ensures Reaches(g, c, st, op, t, n)
  {
    hide Compatible; hide ClosedAt; hide DataChunk; hide P.HeaderOf; hide BitLen; hide Pow2; hide Ready;
    TwoChunksClosed(g, c, st, op.u, t, n);
  }

  lemma BlockClosed(g: P.Config, c: Settings, st: State, op: C.Op, wrote: bool, t: seq<Byte>, n: nat)
    requires Compatible(g, c) && P.Fits(g, op, wrote) && Ready(g, st, wrote)
    requires (wrote ==> st.wantEOF) && (st.wantEOF || n > 0) && ClosedAt(c, st, C.OpBytes(g.k, op) + t, n)
    requires op.Block? || op.CopyBlock?
    ensures Reaches(g, c, st, op, t, n)
  {
    hide Step; hide ClosedAt; hide DataChunk; hide GoodCodec; hide GoodSettings;
    DataChunkReads(g, c, st, op.u);
    ClosedAtStep(c, st, DataChunk(g.k, op.u), AfterOp(g, st, op), op.u, t, n);
  }

  lemma UserClosed(g: P.Config, c: Settings, st: State, op: C.Op, wrote: bool, t: seq<Byte>, n: nat)
    requires Compatible(g, c) && P.Fits(g, op, wrote) && Ready(g, st, wrote)
    requires (wrote ==> st.wantEOF) && (st.wantEOF || n > 0) && ClosedAt(c, st, C.OpBytes(g.k, op) + t, n)
    requires op.User? && SkippableId(op.b[0])
    ensures Reaches(g, c, st, op, t, n)
  {
    hide Step; hide ClosedAt; hide Chunk;
    UserReads(c, st, op.b[0], op.b[4..]);
    ClosedAtStep(c, st, op.b, st, [], t, n);
  }

  lemma OpClosed(g: P.Config, c: Settings, st: State, op: C.Op, wrote: bool, t: seq<Byte>, n: nat)
    requires Compatible(g, c) && P.Fits(g, op, wrote) && Ready(g, st, wrote)
    requires op.User? ==> SkippableId(op.b[0])
    requires (wrote ==> st.wantEOF) && (st.wantEOF || n > 0) && ClosedAt(c, st, C.OpBytes(g.k, op) + t, n)
    ensures Reaches(g, c, st, op, t, n)
  {
    if op.FlushOp? {
      hide ClosedAt;
      assert [] + t == t;
    } else {
      hide Compatible; hide ClosedAt; hide C.OpBytes; hide AfterOp; hide P.Fits; hide Ready; hide Reaches;
      match op {
        case Header(_) => HeaderClosed(g, c, st, op, wrote, t, n);
        case Direct(_, _) => DirectClosed(g, c, st, op, wrote, t, n);
        case CopyBlock(_) => BlockClosed(g, c, st, op, wrote, t, n);
        case Block(_) => BlockClosed(g, c, st, op, wrote, t, n);
        case User(_) => UserClosed(g, c, st, op, wrote, t, n);
      }
    }
  }

  lemma {:induction false} OpsClosed(g: P.Config, c: Settings, st: State, ops: seq<C.Op>, wrote: bool, wrote': bool,
                                     t: seq<Byte>, n: nat)
    requires Compatible(g, c) && P.WellFormed(g, ops, wrote, wrote') && Ready(g, st, wrote) && Unstoppable(ops)
    requires (wrote ==> st.wantEOF) && (st.wantEOF || n > 0) && ClosedAt(c, st, P.OpsBytes(g.k, ops) + t, n)
    ensures n >= |P.OpsBytes(g.k, ops)| && ClosedAt(c, AfterOps(g, st, ops), t, n - |P.OpsBytes(g.k, ops)|)
    decreases |ops|
  {
    hide AfterOp; hide ClosedAt; hide All; hide Ready; hide C.OpBytes;
    if ops == [] {
      assert [] + t == t;
    } else {
      var st1, b, more := AfterOp(g, st, ops[0]), C.OpBytes(g.k, ops[0]), P.OpsBytes(g.k, ops[1..]) + t;
      UserHasBytes(g, ops[0], wrote);
      hide P.Fits; hide Compatible;
      Assoc(b, P.OpsBytes(g.k, ops[1..]), t);
      OpClosed(g, c, st, ops[0], wrote, more, n);
      OpReads(g, c, st, ops[0], wrote, more);
      FlushIsEmpty(g.k, ops[0]);
      OpsClosed(g, c, st1, ops[1..], wrote || !ops[0].FlushOp?, wrote', t, n - |b|);
    }
  }

  lemma FlushIsEmpty(k: Codec, op: C.Op)
    ensures op.FlushOp? ==> C.OpBytes(k, op) == []
  {
  }

  /** A stream that is cut has all of its chunks but the last. */
  lemma BeforeEof(g: P.Config, c: Settings, st: State, calls: seq<P.Call>, t: seq<Byte>, n: nat)
    requires P.GoodConfig(g) && Compatible(g, c) && Readable(calls)
    requires (st.wantEOF || n > 0) && ClosedAt(c, st, P.OpsBytes(g.k, W.ClosedOps(g, calls)) + t, n)
    ensures n >= |P.OpsBytes(g.k, W.ClosedOps(g, calls))|
    ensures ClosedAt(c, AtEof(g, calls, st), t, n - |P.OpsBytes(g.k, W.ClosedOps(g, calls))|)
  {
    hide *;
    NothingYet(g, c, st);
    ClosedReadable(g, calls);
    ClosedWellFormed(g, calls);
    OpsClosed(g, c, st, W.ClosedOps(g, calls), false, WritesHeader(g, calls), t, n);
    AfterAllOps(g, calls, st);
  }

  lemma NothingYet(g: P.Config, c: Settings, st: State)
    requires Compatible(g, c)
    ensures P.GoodConfig(g) && Ready(g, st, false)
  {
  }

  lemma EofClosed(c: Settings, st: State, total: nat, n: nat)
    requires total < 0x1_0000_0000_0000_0000 && total == st.pos && (st.wantEOF || n > 0) &&
             ClosedAt(c, st, EofChunk(total), n)
    ensures n >= |EofChunk(total)|
  {
    hide ClosedAt; hide Step; hide EofChunk;
    EofReads(c, st, total);
    assert EofChunk(total) + [] == EofChunk(total);
    ClosedAtStep(c, st, EofChunk(total), st.(wantEOF := false, readHeader := false), [], [], n);
  }

  lemma Parts(g: P.Config, c: Settings, calls: seq<P.Call>)
    requires P.GoodConfig(g)
    ensures W.StreamOf(g, calls) == P.OpsBytes(g.k, W.ClosedOps(g, calls)) + EofChunk(|P.CallsInput(calls)|)
    ensures var st := AtEof(g, calls, Initial(c));
            st.pos == |P.CallsInput(calls)| && (st.wantEOF || !WritesHeader(g, calls))
  {
    hide P.OpsBytes; hide W.ClosedOps; hide EofChunk; hide P.CallsInput; hide WritesHeader;
    HeaderBeforeData(g, calls);
  }

  lemma OnlyAtTheEnd(g: P.Config, c: Settings, calls: seq<P.Call>, n: nat)
    requires P.GoodConfig(g) && Compatible(g, c) && Readable(calls) && |P.CallsInput(calls)| < 0x8000_0000_0000_0000
    requires 0 < n <= |W.StreamOf(g, calls)| && ClosedAt(c, Initial(c), W.StreamOf(g, calls), n)
    ensures n == |W.StreamOf(g, calls)|
  {
    hide *;
    var b := P.OpsBytes(g.k, W.ClosedOps(g, calls));
    Parts(g, c, calls);
    BeforeEof(g, c, Initial(c), calls, EofChunk(|P.CallsInput(calls)|), n);
    AfterAllOps(g, calls, Initial(c));
    EofClosed(c, AtEof(g, calls, Initial(c)), |P.CallsInput(calls)|, n - |b|);
  }

  /** Every truncation of a stream is noticed, but for the one that leaves nothing. */
  lemma Truncations(g: P.Config, c: Settings, calls: seq<P.Call>, n: nat)
    requires Compatible(g, c) && Readable(calls) && |P.CallsInput(calls)| < 0x8000_0000_0000_0000
    requires n <= |W.StreamOf(g, calls)|
    ensures All(c, Initial(c), W.StreamOf(g, calls)[..n]).end == Eof <==> n == 0 || n == |W.StreamOf(g, calls)|
  {
    assert P.GoodConfig(g);
    hide All; hide Compatible; hide W.StreamOf; hide Readable; hide P.CallsInput; hide ClosedAt;
    var whole := W.StreamOf(g, calls);
    RoundTrip(g, c, calls);
    NothingLeft(c, Initial(c));
    assert whole[..|whole|] == whole && whole[..0] == [];
    if 0 < n < |whole| {
      Truncated(c, Initial(c), whole, n);
      if ClosedAt(c, Initial(c), whole, n) { OnlyAtTheEnd(g, c, calls, n); }
    }
  }
}
