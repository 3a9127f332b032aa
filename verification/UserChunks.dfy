/** What becomes of the chunks that are added with `AddUserChunk` (writer.go): they are in the stream, as given. */
module UserChunks {
  import opened Bytes
  import opened Encoding
  import opened Varint
  import opened Stream
  import opened ConcurrentWriter
  import opened WritePlan
  import W = Writer

  /** A skippable chunk of a stream, and how many uncompressed bytes the chunks in front of it stand for. */
  datatype UserChunk = UserChunk(id: Byte, data: seq<Byte>, at: nat)

  /** The uncompressed bytes that a chunk stands for, by its headers. */
  function Size(kind: Byte, data: seq<Byte>): (r: nat) {
    if |data| < 4 then 0
    else if kind == CHUNK_UNCOMPRESSED then |data| - 4
    else if kind == CHUNK_COMPRESSED || kind == CHUNK_COMPRESSED_COMP_CRC then
      match GetUvarint(data, 4, 0)
      case None => 0
      case Some(t) => t.0
    else 0
  }

  /** The chunks from 0x80 to 0xfe in `b`, by their headers alone, `at` bytes being in front. */
  function ListChunks(b: seq<Byte>, at: nat): (r: seq<UserChunk>)
    decreases |b|
  {
    if |b| < 4 || |b| < 4 + Load24(b, 1) then []
    else
      var data, rest := b[4..4 + Load24(b, 1)], b[4 + Load24(b, 1)..];
      (if 0x80 <= b[0] <= 0xfe then [UserChunk(b[0], data, at)] else []) + ListChunks(rest, at + Size(b[0], data))
  }

  /** The chunks that calls add, and how much of the data was emitted before each of them. */
  function Added(g: Config, f: Front, calls: seq<Call>, at: nat): (r: seq<UserChunk>)
    requires GoodConfig(g) && |f.ibuf| <= g.blockSize
    decreases |calls|
  {
    if calls == [] then []
    else
      var a := PlanCall(g, f, calls[0]);
      CallChunk(calls[0], at) + Added(g, a.front, calls[1..], at + |OpsInput(a.ops)|)
  }

  function CallChunk(c: Call, at: nat): (r: seq<UserChunk>) {
    if c.AddUserChunk? && AllowedUserChunk(c.id, c.p) then [UserChunk(c.id, c.p, at)] else []
  }

  // ---------- one chunk, one operation ----------

  lemma ListChunk(kind: Byte, data: seq<Byte>, t: seq<Byte>, at: nat)
    requires |data| < 0x100_0000
    ensures ListChunks(Chunk(kind, data) + t, at) ==
              (if 0x80 <= kind <= 0xfe then [UserChunk(kind, data, at)] else [])
              + ListChunks(t, at + Size(kind, data))
  {
    hide Size; hide Load24;
    var b := Chunk(kind, data) + t;
    assert b == [kind] + LE24(|data|) + (data + t);
    LoadLE24([kind], |data|, data + t);
    assert b[4..4 + |data|] == data && b[4 + |data|..] == t;
  }

  lemma DataSize(g: Config, u: seq<Byte>, t: seq<Byte>, at: nat)
    requires GoodConfig(g) && GoodCodec(g.k, g.blockSize) && 0 < |u| <= g.blockSize
    ensures ListChunks(DataChunk(g.k, u) + t, at) == ListChunks(t, at + |u|)
  {
    hide ListChunks; hide Chunk; hide GetUvarint; hide PutUvarint;
    var body := g.k.encode(u);
    assert GoodBlock(g.blockSize, u, body);
    if body != [] {
      var data := LE32(g.k.crc(u)) + (PutUvarint(|u|) + body);
      UvarintReads(LE32(g.k.crc(u)), |u|, body);
      assert data == LE32(g.k.crc(u)) + PutUvarint(|u|) + body;
      ListChunk(CHUNK_COMPRESSED, data, t, at);
    } else {
      ListChunk(CHUNK_UNCOMPRESSED, LE32(g.k.crc(u)) + u, t, at);
    }
  }

  lemma HeaderSize(g: Config, t: seq<Byte>, at: nat)
    requires GoodConfig(g)
    ensures ListChunks(HeaderOf(g) + t, at) == ListChunks(t, at)
  {
    hide ListChunks; hide Chunk; hide BitLen;
    ListChunk(CHUNK_STREAM_ID, MAGIC_BODY + [Low(BitLen(g.blockSize - 1) - 10)], t, at);
  }

  function OpChunk(op: Op, at: nat): (r: seq<UserChunk>) {
    if op.User? && |op.b| >= 4 then [UserChunk(op.b[0], op.b[4..], at)] else []
  }

  lemma ListOp(g: Config, op: Op, wrote: bool, t: seq<Byte>, at: nat)
    requires GoodConfig(g) && GoodCodec(g.k, g.blockSize) && Fits(g, op, wrote)
    ensures ListChunks(OpBytes(g.k, op) + t, at) == OpChunk(op, at) + ListChunks(t, at + |OpInput(op)|)
  {
    hide ListChunks; hide DataChunk; hide HeaderOf; hide GoodCodec;
    match op {
      case Header(b) => HeaderSize(g, t, at);
      case CopyBlock(u) => DataSize(g, u, t, at);
      case Block(u) => DataSize(g, u, t, at);
      case User(b) =>
        ListChunk(b[0], b[4..], t, at);
        assert Size(b[0], b[4..]) == 0;
      case FlushOp => assert [] + t == t;
      case Direct(b, u) =>
        HeaderSize(g, DataChunk(g.k, u) + t, at);
        DataSize(g, u, t, at);
        Assoc(b, DataChunk(g.k, u), t);
    }
  }

  // ---------- many ----------

  function OpsChunks(ops: seq<Op>, at: nat): (r: seq<UserChunk>) {
    if ops == [] then [] else OpChunk(ops[0], at) + OpsChunks(ops[1..], at + |OpInput(ops[0])|)
  }

  lemma {:induction false} ListOps(g: Config, ops: seq<Op>, wrote: bool, wrote': bool, t: seq<Byte>, at: nat)
    requires GoodConfig(g) && GoodCodec(g.k, g.blockSize) && WellFormed(g, ops, wrote, wrote')
    ensures ListChunks(OpsBytes(g.k, ops) + t, at) == OpsChunks(ops, at) + ListChunks(t, at + |OpsInput(ops)|)
    decreases |ops|
  {
    hide ListChunks; hide OpBytes; hide OpInput; hide OpChunk; hide Fits; hide GoodCodec;
    if ops == [] {
      assert [] + t == t;
    } else {
      var rest := OpsBytes(g.k, ops[1..]);
      Assoc(OpBytes(g.k, ops[0]), rest, t);
      ListOp(g, ops[0], wrote, rest + t, at);
      ListOps(g, ops[1..], wrote || !ops[0].FlushOp?, wrote', t, at + |OpInput(ops[0])|);
    }
  }

  lemma {:induction false} ChunksConcat(k: Codec, a: seq<Op>, b: seq<Op>, at: nat)
    ensures OpsChunks(a + b, at) == OpsChunks(a, at) + OpsChunks(b, at + |OpsInput(a)|)
    decreases |a|
  {
    hide OpInput; hide OpChunk;
    if a == [] {
      assert a + b == b;
    } else {
      assert (a + b)[1..] == a[1..] + b;
      ChunksConcat(k, a[1..], b, at + |OpInput(a[0])|);
    }
  }

  ghost predicate NoUsers(ops: seq<Op>) { forall i :: 0 <= i < |ops| ==> !ops[i].User? }

  lemma {:induction false} NoUsersChunks(ops: seq<Op>, at: nat)
    requires NoUsers(ops)
    ensures OpsChunks(ops, at) == []
    decreases |ops|
  {
    if ops != [] { NoUsersChunks(ops[1..], at + |OpInput(ops[0])|); }
  }

  lemma {:induction false} BlocksNoUsers(ps: seq<seq<Byte>>)
    ensures NoUsers(Copies(ps)) && NoUsers(Blocks(ps))
    decreases |ps|
  {
    if ps != [] { BlocksNoUsers(ps[1..]); }
  }

  lemma WriteNoUsers(g: Config, p: seq<Byte>, wrote: bool)
    requires GoodConfig(g)
    ensures NoUsers(WriteOps(g, p, wrote)) && NoUsers(HeaderOps(g, wrote) + Blocks(Cut(p, g.blockSize)))
  {
    hide Cut; hide HeaderOf;
    BlocksNoUsers(Cut(p, g.blockSize));
  }

  lemma {:induction false} PlanWriteNoUsers(g: Config, f: Front, p: seq<Byte>)
    requires GoodConfig(g) && |f.ibuf| <= g.blockSize
    ensures NoUsers(PlanWrite(g, f, p).ops)
    decreases |p|, |f.ibuf|
  {
    hide WriteOps;
    var room := g.blockSize - |f.ibuf|;
    if |p| > room {
      WriteNoUsers(g, if f.ibuf == [] then p else f.ibuf + p[..room], f.wroteHeader);
      if f.ibuf != [] { PlanWriteNoUsers(g, Front([], true), p[room..]); }
    }
  }

  lemma FlushNoUsers(g: Config, f: Front)
    requires GoodConfig(g) && |f.ibuf| <= g.blockSize
    ensures NoUsers(PlanAsyncFlush(g, f).ops)
  {
    hide WriteOps;
    WriteNoUsers(g, f.ibuf, true);
  }

  lemma CallChunks(g: Config, f: Front, c: Call, at: nat)
    requires GoodConfig(g) && |f.ibuf| <= g.blockSize
    ensures OpsChunks(PlanCall(g, f, c).ops, at) == CallChunk(c, at)
  {
    hide PlanWrite; hide PlanAsyncFlush; hide HeaderOps; hide Cut; hide Blocks; hide Chunk; hide OpsChunks;
    match c {
      case AddUserChunk(id, p) =>
        if AllowedUserChunk(id, p) {
          UserCall(g, f, id, p, at);
        } else {
          NoUsersChunks([], at);
        }
      case Write(p) =>
        PlanWriteNoUsers(g, f, p);
        NoUsersChunks(PlanCall(g, f, c).ops, at);
      case EncodeBuffer(p) =>
        FlushNoUsers(g, f);
        WriteNoUsers(g, p, PlanAsyncFlush(g, f).front.wroteHeader);
        NoUsersChunks(PlanCall(g, f, c).ops, at);
      case _ =>
        FlushNoUsers(g, f);
        NoUsersChunks(PlanCall(g, f, c).ops, at);
    }
  }

  lemma UserCall(g: Config, f: Front, id: Byte, p: seq<Byte>, at: nat)
    requires GoodConfig(g) && AllowedUserChunk(id, p)
    ensures OpsChunks(HeaderOps(g, f.wroteHeader) + [User(Chunk(id, p))], at) == [UserChunk(id, p, at)]
  {
    hide HeaderOf;
    var h, op := HeaderOps(g, f.wroteHeader), User(Chunk(id, p));
    ChunksConcat(g.k, h, [op], at);
    HeaderInput(g, f.wroteHeader);
    assert NoUsers(h);
    NoUsersChunks(h, at);
    assert op.b[4..] == p && [op][1..] == [];
    assert OpsChunks([op], at) == OpChunk(op, at) + OpsChunks([], at);
  }

  lemma {:induction false} PlanChunks(g: Config, f: Front, calls: seq<Call>, at: nat)
    requires GoodConfig(g) && |f.ibuf| <= g.blockSize
    ensures OpsChunks(Plan(g, f, calls).ops, at) == Added(g, f, calls, at)
    decreases |calls|
  {
    hide PlanCall; hide CallChunk; hide OpsInput; hide OpsChunks;
    if calls == [] {
      NoUsersChunks([], at);
    } else {
      var a := PlanCall(g, f, calls[0]);
      var rest := Plan(g, a.front, calls[1..]);
      CallChunks(g, f, calls[0], at);
      PlanChunks(g, a.front, calls[1..], at + |OpsInput(a.ops)|);
      ChunksConcat(g.k, a.ops, rest.ops, at);
    }
  }

  // ---------- whole streams ----------

  /** The chunks that may be added, among the calls. */
  function Allowed(calls: seq<Call>): (r: seq<(Byte, seq<Byte>)>)
    decreases |calls|
  {
    if calls == [] then []
    else
      (if calls[0].AddUserChunk? && AllowedUserChunk(calls[0].id, calls[0].p) then [(calls[0].id, calls[0].p)] else [])
      + Allowed(calls[1..])
  }

  lemma {:induction false} AddedAllowed(g: Config, f: Front, calls: seq<Call>, at: nat)
    requires GoodConfig(g) && |f.ibuf| <= g.blockSize
    ensures var l := Added(g, f, calls, at);
            |l| == |Allowed(calls)| && forall i :: 0 <= i < |l| ==> (l[i].id, l[i].data) == Allowed(calls)[i]
    decreases |calls|
  {
    hide PlanCall; hide OpsInput;
    if calls != [] {
      var a := PlanCall(g, f, calls[0]);
      AddedAllowed(g, a.front, calls[1..], at + |OpsInput(a.ops)|);
    }
  }

  lemma {:induction false} AddedConcat(g: Config, f: Front, a: seq<Call>, b: seq<Call>, at: nat)
    requires GoodConfig(g) && |f.ibuf| <= g.blockSize
    ensures var p := Plan(g, f, a);
            Added(g, f, a + b, at) == Added(g, f, a, at) + Added(g, p.front, b, at + |OpsInput(p.ops)|)
    decreases |a|
  {
    hide PlanCall; hide OpsInput; hide CallChunk;
    if a == [] {
      assert a + b == b;
      NoInput();
    } else {
      assert (a + b)[1..] == a[1..] + b;
      var x := PlanCall(g, f, a[0]);
      AddedConcat(g, x.front, a[1..], b, at + |OpsInput(x.ops)|);
      OpsConcat(g.k, x.ops, Plan(g, x.front, a[1..]).ops);
    }
  }

  lemma EofList(total: nat, at: nat)
    requires total < 0x8000_0000_0000_0000
    ensures ListChunks(EofChunk(total), at) == []
  {
    hide Chunk; hide ListChunks; hide PutUvarint;
    CapIs64Bits();
    PutUvarintAtMost(total, 0);
    ListChunk(CHUNK_EOF, PutUvarint(total), [], at);
    assert EofChunk(total) + [] == EofChunk(total);
    NothingListed(at + Size(CHUNK_EOF, PutUvarint(total)));
  }

  lemma NothingListed(at: nat)
    ensures ListChunks([], at) == []
  {
  }

  /** The chunks of a closed stream are those that its calls added, in order, each behind what was emitted before. */
  lemma StreamChunks(g: Config, calls: seq<Call>)
    requires GoodConfig(g) && GoodCodec(g.k, g.blockSize) && |CallsInput(calls)| < 0x8000_0000_0000_0000
    ensures ListChunks(W.StreamOf(g, calls), 0) == Added(g, NEW_FRONT, calls, 0)
  {
    hide ListChunks; hide EofChunk; hide OpsBytes; hide OpsInput; hide WellFormed; hide Plan; hide CallsInput;
    hide GoodCodec; hide PlanCall; hide Added;
    var all := calls + [Call.Flush];
    var ops := W.ClosedOps(g, calls);
    PlanWellFormed(g, NEW_FRONT, all);
    ListOps(g, ops, false, Plan(g, NEW_FRONT, all).front.wroteHeader, EofChunk(|CallsInput(calls)|), 0);
    EofList(|CallsInput(calls)|, |OpsInput(ops)|);
    PlanChunks(g, NEW_FRONT, all, 0);
    AddedConcat(g, NEW_FRONT, calls, [Call.Flush], 0);
    FlushAdds(g, Plan(g, NEW_FRONT, calls).front, |OpsInput(Plan(g, NEW_FRONT, calls).ops)|);
  }

  lemma FlushAdds(g: Config, f: Front, at: nat)
    requires GoodConfig(g) && |f.ibuf| <= g.blockSize
    ensures Added(g, f, [Call.Flush], at) == []
  {
    hide PlanCall; hide OpsInput;
    assert [Call.Flush][1..] == [];
  }

  /**
   So a chunk that a call adds is found in the stream with its id and its data, behind all the input of the calls
   before it but for what was still buffered, less than a block; and that is nothing if the last of these calls
   was a flush or an `EncodeBuffer`.
   */
  lemma ChunkInStream(g: Config, before: seq<Call>, id: Byte, p: seq<Byte>, after: seq<Call>)
    requires GoodConfig(g) && GoodCodec(g.k, g.blockSize) && AllowedUserChunk(id, p)
    requires |CallsInput(before + [AddUserChunk(id, p)] + after)| < 0x8000_0000_0000_0000
    ensures var calls := before + [AddUserChunk(id, p)] + after;
            var l, i := ListChunks(W.StreamOf(g, calls), 0), |Allowed(before)|;
            && |l| == |Allowed(calls)| && i < |l| && l[i].id == id && l[i].data == p
            && |CallsInput(before)| - g.blockSize <= l[i].at <= |CallsInput(before)|
            && (before != [] && Flushes(before[|before| - 1]) ==> l[i].at == |CallsInput(before)|)
  {
    hide ListChunks; hide Plan; hide CallsInput; hide GoodCodec; hide PlanCall; hide Added; hide OpsInput;
    var c := AddUserChunk(id, p);
    var calls := before + [c] + after;
    assert calls == before + ([c] + after);
    StreamChunks(g, calls);
    AddedAllowed(g, NEW_FRONT, calls, 0);
    AddedAllowed(g, NEW_FRONT, before, 0);
    AddedConcat(g, NEW_FRONT, before, [c] + after, 0);
    var f, at := Plan(g, NEW_FRONT, before).front, |OpsInput(Plan(g, NEW_FRONT, before).ops)|;
    FirstAdded(g, f, id, p, after, at);
    PlanKeepsInput(g, NEW_FRONT, before);
    assert [] + CallsInput(before) == CallsInput(before);
    if before != [] && Flushes(before[|before| - 1]) { LastFlushes(g, NEW_FRONT, before); }
  }

  /** Calls that leave nothing in the input buffer. */
  predicate Flushes(c: Call) { c.Flush? || c.AsyncFlush? || c.EncodeBuffer? }

  lemma FirstAdded(g: Config, f: Front, id: Byte, p: seq<Byte>, after: seq<Call>, at: nat)
    requires GoodConfig(g) && |f.ibuf| <= g.blockSize && AllowedUserChunk(id, p)
    ensures var l := Added(g, f, [AddUserChunk(id, p)] + after, at); |l| > 0 && l[0] == UserChunk(id, p, at)
  {
    hide PlanCall; hide OpsInput;
  }

  lemma {:induction false} LastFlushes(g: Config, f: Front, calls: seq<Call>)
    requires GoodConfig(g) && |f.ibuf| <= g.blockSize && calls != [] && Flushes(calls[|calls| - 1])
    ensures Plan(g, f, calls).front.ibuf == []
    decreases |calls|
  {
    hide PlanAsyncFlush; hide PlanWrite;
    if |calls| > 1 { LastFlushes(g, PlanCall(g, f, calls[0]).front, calls[1..]); }
  }
}
