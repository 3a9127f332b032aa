/**
 writer.go: the calling side of a `Writer`. With concurrency 1 the calls write to the underlying writer
 themselves; otherwise they queue the operations that `ConcurrentWriter` carries out.

 `flushOnWrite`, padding and write errors are not part of this model; `ReadFrom` is the same as
 `EncodeBuffer` on what it reads.
 */
module WritePlan {
  import opened Bytes
  import opened Stream
  import opened ConcurrentWriter

  /** The settings of a writer. */
  datatype Config = Config(k: Codec, blockSize: nat)

  ghost predicate GoodConfig(g: Config) { 0x1000 <= g.blockSize <= MAX_BLOCK_SIZE }

  function HeaderOf(g: Config): (r: seq<Byte>)
    requires GoodConfig(g)
  {
    MakeHeader(g.blockSize)
  }

  /** How the writer cuts a buffer into blocks. */
  function Cut(p: seq<Byte>, blockSize: nat): (r: seq<seq<Byte>>)
    requires blockSize > 0
    decreases |p|
  {
    if |p| == 0 then []
    else if |p| > blockSize then [p[..blockSize]] + Cut(p[blockSize..], blockSize)
    else [p]
  }

  function Copies(ps: seq<seq<Byte>>): (r: seq<Op>)
    ensures |r| == |ps|
  {
    if ps == [] then [] else [CopyBlock(ps[0])] + Copies(ps[1..])
  }

  function Blocks(ps: seq<seq<Byte>>): (r: seq<Op>)
    ensures |r| == |ps|
  {
    if ps == [] then [] else [Block(ps[0])] + Blocks(ps[1..])
  }

  function HeaderOps(g: Config, wroteHeader: bool): (r: seq<Op>)
    requires GoodConfig(g)
  {
    if wroteHeader then [] else [Header(HeaderOf(g))]
  }

  /** What the calls so far leave behind on the calling side. */
  datatype Front = Front(ibuf: seq<Byte>, wroteHeader: bool)

  const NEW_FRONT := Front([], false)

  datatype Planned = Planned(ops: seq<Op>, front: Front)

  /** `write` of a buffer that is not empty. */
  function WriteOps(g: Config, p: seq<Byte>, wroteHeader: bool): (r: seq<Op>)
    requires GoodConfig(g)
  {
    HeaderOps(g, wroteHeader) + Copies(Cut(p, g.blockSize))
  }

  function PlanWrite(g: Config, f: Front, p: seq<Byte>): (r: Planned)
    requires GoodConfig(g) && |f.ibuf| <= g.blockSize
    ensures |r.front.ibuf| <= g.blockSize
    decreases |p|, |f.ibuf|
  {
    var room := g.blockSize - |f.ibuf|;
    if |p| <= room then Planned([], Front(f.ibuf + p, f.wroteHeader))
    else if f.ibuf == [] then Planned(WriteOps(g, p, f.wroteHeader), Front([], true))
    else
      var rest := PlanWrite(g, Front([], true), p[room..]);
      Planned(WriteOps(g, f.ibuf + p[..room], f.wroteHeader) + rest.ops, rest.front)
  }

  function PlanAsyncFlush(g: Config, f: Front): (r: Planned)
    requires GoodConfig(g) && |f.ibuf| <= g.blockSize
    ensures r.front.ibuf == []
  {
    if f.ibuf == [] then Planned([], f)
    else if !f.wroteHeader then Planned([Direct(HeaderOf(g), f.ibuf)], Front([], true))
    else Planned(WriteOps(g, f.ibuf, true), Front([], true))
  }

  datatype Call = Write(p: seq<Byte>) | EncodeBuffer(p: seq<Byte>) | AddUserChunk(id: Byte, p: seq<Byte>) | AsyncFlush
                  | Flush

  /** User chunks may have any id from 0x80 on but that of a stream identifier. */
  predicate AllowedUserChunk(id: Byte, p: seq<Byte>) { 0x80 <= id <= 0xfe && |p| <= 0xff_ffff }

  /** An `AddUserChunk` that is not allowed fails, and changes nothing. */
  function PlanCall(g: Config, f: Front, c: Call): (r: Planned)
    requires GoodConfig(g) && |f.ibuf| <= g.blockSize
    ensures |r.front.ibuf| <= g.blockSize
  {
    match c
    case Write(p) => PlanWrite(g, f, p)
    case AsyncFlush => PlanAsyncFlush(g, f)
    case Flush => var a := PlanAsyncFlush(g, f); Planned(a.ops + [FlushOp], a.front)
    case EncodeBuffer(p) =>
      var a := PlanAsyncFlush(g, f);
      Planned(a.ops + (HeaderOps(g, a.front.wroteHeader) + Blocks(Cut(p, g.blockSize))), Front([], true))
    case AddUserChunk(id, p) =>
      if !AllowedUserChunk(id, p) then Planned([], f)
      else Planned(HeaderOps(g, f.wroteHeader) + [User(Chunk(id, p))], Front(f.ibuf, true))
  }

  /** The operations of a sequence of calls. */
  function Plan(g: Config, f: Front, calls: seq<Call>): (r: Planned)
    requires GoodConfig(g) && |f.ibuf| <= g.blockSize
    ensures |r.front.ibuf| <= g.blockSize
    decreases |calls|
  {
    if calls == [] then Planned([], f)
    else
      var a := PlanCall(g, f, calls[0]);
      var rest := Plan(g, a.front, calls[1..]);
      Planned(a.ops + rest.ops, rest.front)
  }

  /** The uncompressed bytes that a call passes in. */
  function CallInput(c: Call): (r: seq<Byte>) {
    match c
    case Write(p) => p
    case EncodeBuffer(p) => p
    case _ => []
  }

  function CallsInput(calls: seq<Call>): (r: seq<Byte>) {
    if calls == [] then [] else CallInput(calls[0]) + CallsInput(calls[1..])
  }

  // ---------- the bytes and the input of operations ----------

  function OpsBytes(k: Codec, ops: seq<Op>): (r: seq<Byte>) {
    if ops == [] then [] else OpBytes(k, ops[0]) + OpsBytes(k, ops[1..])
  }

  function OpsInput(ops: seq<Op>): (r: seq<Byte>) {
    if ops == [] then [] else OpInput(ops[0]) + OpsInput(ops[1..])
  }

  lemma {:induction false} OpsConcat(k: Codec, a: seq<Op>, b: seq<Op>)
    ensures OpsBytes(k, a + b) == OpsBytes(k, a) + OpsBytes(k, b)
    ensures OpsInput(a + b) == OpsInput(a) + OpsInput(b)
    decreases |a|
  {
    hide OpBytes; hide OpInput;
    if a == [] {
      assert a + b == b;
    } else {
      assert (a + b)[1..] == a[1..] + b;
      OpsConcat(k, a[1..], b);
    }
  }

  /** Front to back or back to front, the operations have the same bytes. */
  lemma {:induction false} SequentialIsOps(k: Codec, prog: seq<Op>, n: nat)
    requires n <= |prog|
    ensures Sequential(k, prog, n) == OpsBytes(k, prog[..n]) && Input(prog, n) == OpsInput(prog[..n])
  {
    hide OpBytes; hide OpInput;
    if n > 0 {
      SequentialIsOps(k, prog, n - 1);
      assert prog[..n] == prog[..n - 1] + [prog[n - 1]];
      OpsConcat(k, prog[..n - 1], [prog[n - 1]]);
      assert [prog[n - 1]][1..] == [];
    }
  }

  function Chunks(k: Codec, ps: seq<seq<Byte>>): (r: seq<Byte>) {
    if ps == [] then [] else DataChunk(k, ps[0]) + Chunks(k, ps[1..])
  }

  function Join(ps: seq<seq<Byte>>): (r: seq<Byte>) {
    if ps == [] then [] else ps[0] + Join(ps[1..])
  }

  lemma {:induction false} BlockOps(k: Codec, ps: seq<seq<Byte>>)
    ensures OpsBytes(k, Copies(ps)) == OpsBytes(k, Blocks(ps)) == Chunks(k, ps)
    ensures OpsInput(Copies(ps)) == OpsInput(Blocks(ps)) == Join(ps)
    decreases |ps|
  {
    hide DataChunk;
    if ps != [] {
      BlockOps(k, ps[1..]);
      assert Copies(ps)[1..] == Copies(ps[1..]) && Blocks(ps)[1..] == Blocks(ps[1..]);
    }
  }

  /** Cutting loses nothing, no block is empty or too large, and all but the last are full. */
  lemma {:induction false} CutJoins(p: seq<Byte>, blockSize: nat)
    requires blockSize > 0
    ensures Join(Cut(p, blockSize)) == p
    ensures forall i :: 0 <= i < |Cut(p, blockSize)| ==> 0 < |Cut(p, blockSize)[i]| <= blockSize
    ensures forall i :: 0 <= i < |Cut(p, blockSize)| - 1 ==> |Cut(p, blockSize)[i]| == blockSize
    decreases |p|
  {
    if |p| > blockSize {
      CutJoins(p[blockSize..], blockSize);
      assert Cut(p, blockSize)[1..] == Cut(p[blockSize..], blockSize);
      assert p[..blockSize] + p[blockSize..] == p;
    } else if |p| > 0 {
      assert [p][1..] == [];
      assert p + [] == p;
    }
  }

  // ---------- a call never loses or reorders input ----------

  lemma WriteOpsInput(g: Config, p: seq<Byte>, wroteHeader: bool)
    requires GoodConfig(g)
    ensures OpsInput(WriteOps(g, p, wroteHeader)) == p
  {
    hide HeaderOf; hide Cut;
    CutJoins(p, g.blockSize);
    BlockOps(g.k, Cut(p, g.blockSize));
    OpsConcat(g.k, HeaderOps(g, wroteHeader), Copies(Cut(p, g.blockSize)));
    HeaderInput(g, wroteHeader);
  }

  lemma HeaderInput(g: Config, wroteHeader: bool)
    requires GoodConfig(g)
    ensures OpsInput(HeaderOps(g, wroteHeader)) == []
  {
    if !wroteHeader { assert HeaderOps(g, wroteHeader)[1..] == []; }
  }

  lemma SplitInput(k: Codec, ibuf: seq<Byte>, p: seq<Byte>, room: nat, ops: seq<Op>, rest: seq<Op>, left: seq<Byte>)
    requires room <= |p| && OpsInput(ops) == ibuf + p[..room] && p[room..] == OpsInput(rest) + left
    ensures ibuf + p == OpsInput(ops + rest) + left
  {
    hide OpsInput;
    OpsConcat(k, ops, rest);
    Assoc(OpsInput(ops), OpsInput(rest), left);
    Assoc(ibuf, p[..room], p[room..]);
    assert p[..room] + p[room..] == p;
  }

  lemma {:induction false} PlanWriteInput(g: Config, f: Front, p: seq<Byte>)
    requires GoodConfig(g) && |f.ibuf| <= g.blockSize
    ensures f.ibuf + p == OpsInput(PlanWrite(g, f, p).ops) + PlanWrite(g, f, p).front.ibuf
    decreases |p|, |f.ibuf|
  {
    hide WriteOps; hide OpsInput;
    var room := g.blockSize - |f.ibuf|;
    if |p| <= room {
      NoInput();
    } else if f.ibuf == [] {
      WriteOpsInput(g, p, f.wroteHeader);
    } else {
      WriteOpsInput(g, f.ibuf + p[..room], f.wroteHeader);
      PlanWriteInput(g, Front([], true), p[room..]);
      assert [] + p[room..] == p[room..];
      var rest := PlanWrite(g, Front([], true), p[room..]);
      SplitInput(g.k, f.ibuf, p, room, WriteOps(g, f.ibuf + p[..room], f.wroteHeader), rest.ops, rest.front.ibuf);
    }
  }

  lemma NoInput()
    ensures OpsInput([]) == []
  {
  }

  lemma AsyncFlushInput(g: Config, f: Front)
    requires GoodConfig(g) && |f.ibuf| <= g.blockSize
    ensures OpsInput(PlanAsyncFlush(g, f).ops) == f.ibuf
  {
    hide WriteOps; hide HeaderOf;
    if f.ibuf != [] && f.wroteHeader { WriteOpsInput(g, f.ibuf, true); }
    if f.ibuf != [] && !f.wroteHeader { OneInput(Direct(HeaderOf(g), f.ibuf)); }
  }

  lemma OneInput(op: Op)
    ensures OpsInput([op]) == OpInput(op)
  {
    hide OpInput;
    assert [op][1..] == [];
  }

  lemma EncodeBufferInput(g: Config, f: Front, p: seq<Byte>)
    requires GoodConfig(g) && |f.ibuf| <= g.blockSize
    ensures OpsInput(PlanCall(g, f, EncodeBuffer(p)).ops) == f.ibuf + p
  {
    hide PlanAsyncFlush; hide HeaderOps; hide Cut; hide Blocks; hide OpsInput;
    var a := PlanAsyncFlush(g, f);
    AsyncFlushInput(g, f);
    var h, b := HeaderOps(g, a.front.wroteHeader), Blocks(Cut(p, g.blockSize));
    OpsConcat(g.k, a.ops, h + b);
    OpsConcat(g.k, h, b);
    HeaderInput(g, a.front.wroteHeader);
    BlockOps(g.k, Cut(p, g.blockSize));
    CutJoins(p, g.blockSize);
    assert [] + p == p;
  }

  lemma CallKeepsInput(g: Config, f: Front, c: Call)
    requires GoodConfig(g) && |f.ibuf| <= g.blockSize
    ensures f.ibuf + CallInput(c) == OpsInput(PlanCall(g, f, c).ops) + PlanCall(g, f, c).front.ibuf
  {
    hide PlanAsyncFlush; hide PlanWrite; hide HeaderOps; hide OpsInput;
    match c {
      case Write(p) => PlanWriteInput(g, f, p);
      case AsyncFlush => AsyncFlushInput(g, f);
      case Flush =>
        AsyncFlushInput(g, f);
        OpsConcat(g.k, PlanAsyncFlush(g, f).ops, [FlushOp]);
        OneInput(FlushOp);
      case EncodeBuffer(p) => EncodeBufferInput(g, f, p);
      case AddUserChunk(id, p) =>
        NoInput();
        OpsConcat(g.k, HeaderOps(g, f.wroteHeader), [User(Chunk(id, p))]);
        HeaderInput(g, f.wroteHeader);
        OneInput(User(Chunk(id, p)));
    }
  }

  /** What is still buffered, and what was emitted before it, is all that came in. */
  lemma {:induction false} PlanKeepsInput(g: Config, f: Front, calls: seq<Call>)
    requires GoodConfig(g) && |f.ibuf| <= g.blockSize
    ensures f.ibuf + CallsInput(calls) == OpsInput(Plan(g, f, calls).ops) + Plan(g, f, calls).front.ibuf
    decreases |calls|
  {
    hide PlanCall; hide CallInput;
    if calls != [] {
      var a := PlanCall(g, f, calls[0]);
      var rest := Plan(g, a.front, calls[1..]);
      CallKeepsInput(g, f, calls[0]);
      PlanKeepsInput(g, a.front, calls[1..]);
      OpsConcat(g.k, a.ops, rest.ops);
      Assoc(f.ibuf, CallInput(calls[0]), CallsInput(calls[1..]));
      Assoc(OpsInput(a.ops), a.front.ibuf, CallsInput(calls[1..]));
      Assoc(OpsInput(a.ops), OpsInput(rest.ops), rest.front.ibuf);
    }
  }

  // ---------- blocks are full ----------

  ghost predicate Full(blockSize: nat, op: Op) { op.Header? || (op.CopyBlock? && |op.u| == blockSize) }

  lemma {:induction false} CopiesFull(ps: seq<seq<Byte>>, blockSize: nat)
    requires forall i :: 0 <= i < |ps| - 1 ==> |ps[i]| == blockSize
    ensures forall i :: 0 <= i < |ps| - 1 ==> Full(blockSize, Copies(ps)[i])
    ensures ps != [] && |ps[|ps| - 1]| == blockSize ==> Full(blockSize, Copies(ps)[|ps| - 1])
    decreases |ps|
  {
    if |ps| > 0 { CopiesFull(ps[1..], blockSize); }
  }

  lemma WriteOpsFull(g: Config, p: seq<Byte>, wroteHeader: bool)
    requires GoodConfig(g)
    ensures var ops := WriteOps(g, p, wroteHeader);
            && (forall i :: 0 <= i < |ops| - 1 ==> Full(g.blockSize, ops[i]))
            && (|p| == g.blockSize ==> forall i :: 0 <= i < |ops| ==> Full(g.blockSize, ops[i]))
  {
    hide HeaderOf;
    CutJoins(p, g.blockSize);
    CopiesFull(Cut(p, g.blockSize), g.blockSize);
    if |p| == g.blockSize { assert Cut(p, g.blockSize) == [p]; }
    hide Cut;
  }

  /** `Write` emits nothing as long as the input buffer has room, and then full blocks but for the last one. */
  lemma {:induction false} WriteFull(g: Config, f: Front, p: seq<Byte>)
    requires GoodConfig(g) && |f.ibuf| <= g.blockSize
    ensures var ops := PlanWrite(g, f, p).ops;
            && (|f.ibuf| + |p| <= g.blockSize <==> ops == [])
            && (forall i :: 0 <= i < |ops| - 1 ==> Full(g.blockSize, ops[i]))
    decreases |p|, |f.ibuf|
  {
    hide WriteOps; hide Full;
    var room := g.blockSize - |f.ibuf|;
    if |p| > room {
      var first := if f.ibuf == [] then p else f.ibuf + p[..room];
      WriteOpsFull(g, first, f.wroteHeader);
      SomeOps(g, first, f.wroteHeader);
      if f.ibuf != [] { WriteFull(g, Front([], true), p[room..]); }
    }
  }

  lemma SomeOps(g: Config, p: seq<Byte>, wroteHeader: bool)
    requires GoodConfig(g) && p != []
    ensures WriteOps(g, p, wroteHeader) != []
  {
  }

  // ---------- the header comes first ----------

  /** What may be issued with or without a header in front. */
  ghost predicate Fits(g: Config, op: Op, wrote: bool)
    requires GoodConfig(g)
  {
    match op
    case Header(b) => !wrote && b == HeaderOf(g)
    case Direct(b, u) => !wrote && b == HeaderOf(g) && 0 < |u| <= g.blockSize
    case CopyBlock(u) => wrote && 0 < |u| <= g.blockSize
    case Block(u) => wrote && 0 < |u| <= g.blockSize
    case User(b) => wrote && |b| >= 4 && AllowedUserChunk(b[0], b[4..]) && b == Chunk(b[0], b[4..])
    case FlushOp => true
  }

  /** One header, in front of everything but flushes, and chunks that are well formed. */
  ghost predicate WellFormed(g: Config, ops: seq<Op>, wrote: bool, wrote': bool)
    requires GoodConfig(g)
  {
    if ops == [] then wrote == wrote'
    else Fits(g, ops[0], wrote) && WellFormed(g, ops[1..], wrote || !ops[0].FlushOp?, wrote')
  }

  lemma {:induction false} WellFormedConcat(g: Config, a: seq<Op>, b: seq<Op>, w0: bool, w1: bool, w2: bool)
    requires GoodConfig(g) && WellFormed(g, a, w0, w1) && WellFormed(g, b, w1, w2)
    ensures WellFormed(g, a + b, w0, w2)
    decreases |a|
  {
    hide Fits;
    if a == [] {
      assert a + b == b;
    } else {
      assert (a + b)[1..] == a[1..] + b;
      WellFormedConcat(g, a[1..], b, w0 || !a[0].FlushOp?, w1, w2);
    }
  }

  lemma OneWellFormed(g: Config, op: Op, wrote: bool)
    requires GoodConfig(g) && Fits(g, op, wrote)
    ensures WellFormed(g, [op], wrote, wrote || !op.FlushOp?)
  {
    hide Fits;
    assert [op][1..] == [];
  }

  lemma {:induction false} BlocksWellFormed(g: Config, ps: seq<seq<Byte>>)
    requires GoodConfig(g) && forall i :: 0 <= i < |ps| ==> 0 < |ps[i]| <= g.blockSize
    ensures WellFormed(g, Copies(ps), true, true) && WellFormed(g, Blocks(ps), true, true)
    decreases |ps|
  {
    if ps != [] {
      BlocksWellFormed(g, ps[1..]);
      assert Copies(ps)[1..] == Copies(ps[1..]) && Blocks(ps)[1..] == Blocks(ps[1..]);
    }
  }

  lemma CutWellFormed(g: Config, p: seq<Byte>, wrote: bool)
    requires GoodConfig(g)
    ensures WellFormed(g, HeaderOps(g, wrote) + Copies(Cut(p, g.blockSize)), wrote, true)
    ensures WellFormed(g, HeaderOps(g, wrote) + Blocks(Cut(p, g.blockSize)), wrote, true)
  {
    CutJoins(p, g.blockSize);
    BlocksWellFormed(g, Cut(p, g.blockSize));
    HeaderWellFormed(g, wrote);
    hide HeaderOps; hide Cut; hide WellFormed;
    WellFormedConcat(g, HeaderOps(g, wrote), Copies(Cut(p, g.blockSize)), wrote, true, true);
    WellFormedConcat(g, HeaderOps(g, wrote), Blocks(Cut(p, g.blockSize)), wrote, true, true);
  }

  lemma HeaderWellFormed(g: Config, wrote: bool)
    requires GoodConfig(g)
    ensures WellFormed(g, HeaderOps(g, wrote), wrote, true)
  {
    if !wrote { OneWellFormed(g, Header(HeaderOf(g)), wrote); }
  }

  lemma {:induction false} WriteWellFormed(g: Config, f: Front, p: seq<Byte>)
    requires GoodConfig(g) && |f.ibuf| <= g.blockSize
    ensures WellFormed(g, PlanWrite(g, f, p).ops, f.wroteHeader, PlanWrite(g, f, p).front.wroteHeader)
    decreases |p|, |f.ibuf|
  {
    hide HeaderOps; hide Cut; hide WellFormed;
    var room := g.blockSize - |f.ibuf|;
    if |p| <= room {
      NothingWellFormed(g, f.wroteHeader);
    } else {
      var first := f.ibuf + if f.ibuf == [] then p else p[..room];
      assert [] + p == p;
      CutWellFormed(g, first, f.wroteHeader);
      if f.ibuf != [] {
        WriteWellFormed(g, Front([], true), p[room..]);
        var rest := PlanWrite(g, Front([], true), p[room..]);
        WellFormedConcat(g, WriteOps(g, first, f.wroteHeader), rest.ops, f.wroteHeader, true, rest.front.wroteHeader);
      }
    }
  }

  lemma NothingWellFormed(g: Config, wrote: bool)
    requires GoodConfig(g)
    ensures WellFormed(g, [], wrote, wrote)
  {
  }

  lemma AsyncFlushWellFormed(g: Config, f: Front)
    requires GoodConfig(g) && |f.ibuf| <= g.blockSize
    ensures WellFormed(g, PlanAsyncFlush(g, f).ops, f.wroteHeader, PlanAsyncFlush(g, f).front.wroteHeader)
  {
    hide HeaderOf; hide WellFormed;
    if f.ibuf == [] {
      NothingWellFormed(g, f.wroteHeader);
    } else if f.wroteHeader {
      CutWellFormed(g, f.ibuf, true);
    } else {
      OneWellFormed(g, Direct(HeaderOf(g), f.ibuf), false);
    }
  }

  lemma UserWellFormed(g: Config, f: Front, id: Byte, p: seq<Byte>)
    requires GoodConfig(g) && AllowedUserChunk(id, p)
    ensures WellFormed(g, HeaderOps(g, f.wroteHeader) + [User(Chunk(id, p))], f.wroteHeader, true)
  {
    var b := Chunk(id, p);
    assert b[4..] == p;
    OneWellFormed(g, User(b), true);
    HeaderWellFormed(g, f.wroteHeader);
    WellFormedConcat(g, HeaderOps(g, f.wroteHeader), [User(b)], f.wroteHeader, true, true);
  }

  lemma CallWellFormed(g: Config, f: Front, c: Call)
    requires GoodConfig(g) && |f.ibuf| <= g.blockSize
    ensures WellFormed(g, PlanCall(g, f, c).ops, f.wroteHeader, PlanCall(g, f, c).front.wroteHeader)
  {
    hide PlanAsyncFlush; hide PlanWrite; hide HeaderOps; hide WellFormed; hide Cut;
    var a := PlanAsyncFlush(g, f);
    AsyncFlushWellFormed(g, f);
    match c {
      case Write(p) => WriteWellFormed(g, f, p);
      case AsyncFlush =>
      case Flush =>
        OneWellFormed(g, FlushOp, a.front.wroteHeader);
        WellFormedConcat(g, a.ops, [FlushOp], f.wroteHeader, a.front.wroteHeader, a.front.wroteHeader);
      case EncodeBuffer(p) =>
        CutWellFormed(g, p, a.front.wroteHeader);
        WellFormedConcat(g, a.ops, HeaderOps(g, a.front.wroteHeader) + Blocks(Cut(p, g.blockSize)), f.wroteHeader,
                         a.front.wroteHeader, true);
      case AddUserChunk(id, p) =>
        NothingWellFormed(g, f.wroteHeader);
        if AllowedUserChunk(id, p) { UserWellFormed(g, f, id, p); }
    }
  }

  /** What any calls come down to is well formed. */
  lemma {:induction false} PlanWellFormed(g: Config, f: Front, calls: seq<Call>)
    requires GoodConfig(g) && |f.ibuf| <= g.blockSize
    ensures WellFormed(g, Plan(g, f, calls).ops, f.wroteHeader, Plan(g, f, calls).front.wroteHeader)
    decreases |calls|
  {
    hide PlanCall; hide WellFormed;
    if calls == [] {
      NothingWellFormed(g, f.wroteHeader);
    } else {
      var a := PlanCall(g, f, calls[0]);
      CallWellFormed(g, f, calls[0]);
      PlanWellFormed(g, a.front, calls[1..]);
      var rest := Plan(g, a.front, calls[1..]);
      WellFormedConcat(g, a.ops, rest.ops, f.wroteHeader, a.front.wroteHeader, rest.front.wroteHeader);
    }
  }

  lemma {:induction false} DirectFirst(g: Config, ops: seq<Op>, wrote: bool, wrote': bool)
    requires GoodConfig(g) && WellFormed(g, ops, wrote, wrote')
    ensures forall i, j {:trigger ops[i], ops[j]} :: 0 <= i < j < |ops| && ops[j].Direct? ==> ops[i].FlushOp?
    ensures wrote ==> forall j :: 0 <= j < |ops| ==> !ops[j].Direct?
    decreases |ops|
  {
    if ops != [] { DirectFirst(g, ops[1..], wrote || !ops[0].FlushOp?, wrote'); }
  }

  /** So any calls make a program that the concurrent writer carries out in order. */
  lemma PlanValid(g: Config, calls: seq<Call>)
    requires GoodConfig(g)
    ensures Valid(Plan(g, NEW_FRONT, calls).ops)
  {
    hide Plan; hide WellFormed;
    PlanWellFormed(g, NEW_FRONT, calls);
    var p := Plan(g, NEW_FRONT, calls);
    DirectFirst(g, p.ops, false, p.front.wroteHeader);
  }
}
