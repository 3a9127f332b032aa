/**
 writer.go: the `Writer` itself. With concurrency 1 its calls write to the underlying writer; otherwise
 they queue operations for the goroutines of `ConcurrentWriter`. Either way they do what `WritePlan` says.
 */
module Writer {
  import opened Bytes
  import opened Encoding
  import opened Varint
  import opened Stream
  import opened ConcurrentWriter
  import opened WritePlan

  // ---------- one more operation ----------

  lemma {:induction false} Extends(k: Codec, prog: seq<Op>, op: Op, n: nat)
    requires n <= |prog|
    ensures Sequential(k, prog + [op], n) == Sequential(k, prog, n) && Input(prog + [op], n) == Input(prog, n)
  {
    hide OpBytes; hide OpInput;
    if n > 0 { Extends(k, prog, op, n - 1); }
  }

  lemma {:induction false} EntriesExtend(k: Codec, prog: seq<Op>, op: Op, n: nat, every: bool)
    requires n <= |prog|
    ensures Entries(k, prog + [op], n, every) == Entries(k, prog, n, every)
  {
    hide OpBytes; hide OpInput; hide Sequential; hide Input;
    if n > 0 {
      EntriesExtend(k, prog, op, n - 1, every);
      Extends(k, prog, op, n - 1);
    }
  }

  /** Carrying out `op` after everything in `log`, with an index entry in front of it or not. */
  lemma Carried(k: Codec, log: seq<Op>, op: Op, out: seq<Byte>, written: nat, index: seq<(nat, nat)>)
    requires OutputIs(k, log, |log|, out, written, index, false) && !op.Direct?
    ensures var log', out' := log + [op], out + OpBytes(k, op);
            && |Input(log', |log'|)| == |Input(log, |log|)| + |OpInput(op)|
            && OutputIs(k, log', |log'|, out', |out'|,
                        if EntryDue(log, op) then index + [(written, |Input(log, |log|)|)] else index, false)
  {
    hide OpBytes; hide OpInput;
    var log' := log + [op];
    Extends(k, log, op, |log|);
    EntriesExtend(k, log, op, |log|, false);
    assert OutputIs(k, log', |log|, out, written, index, false);
    hide Sequential; hide OutputIs; hide Entries;
    OutputGrows(k, log', |log|, out, written, index, false);
    assert log'[|log|] == op;
    assert Input(log', |log'|) == Input(log, |log|) + OpInput(op);
    var index' := if EntryDue(log, op) then index + [(written, |Input(log, |log|)|)] else index;
    OutputLength(k, log', |log'|, out + OpBytes(k, op), written + |OpBytes(k, op)|, index');
  }

  /** Every block has an index entry, and user chunks do once there was a block. */
  predicate EntryDue(log: seq<Op>, op: Op) {
    match op
    case FlushOp => false
    case Header(_) => false
    case User(b) => b != [] && Input(log, |log|) != []
    case _ => true
  }

  lemma OutputLength(k: Codec, prog: seq<Op>, done: nat, out: seq<Byte>, written: nat, index: seq<(nat, nat)>)
    requires OutputIs(k, prog, done, out, written, index, false)
    ensures written == |out|
  {
  }

  /** The parts that `writeSync` writes make up the chunk. */
  lemma ChunkParts(k: Codec, u: seq<Byte>)
    ensures k.encode(u) != [] ==>
              [CHUNK_COMPRESSED] + LE24(4 + |PutUvarint(|u|)| + |k.encode(u)|) + LE32(k.crc(u)) +
                (PutUvarint(|u|) + k.encode(u))
              == DataChunk(k, u)
    ensures k.encode(u) == [] ==>
              ([CHUNK_UNCOMPRESSED] + LE24(4 + |u|) + LE32(k.crc(u))) + u == DataChunk(k, u)
  {
    hide PutUvarint;
    var head, crc := [CHUNK_COMPRESSED] + LE24(4 + |PutUvarint(|u|)| + |k.encode(u)|), LE32(k.crc(u));
    Assoc(head, crc, PutUvarint(|u|) + k.encode(u));
    Assoc([CHUNK_UNCOMPRESSED] + LE24(4 + |u|), crc, u);
  }

  lemma NextCut(p: seq<Byte>, blockSize: nat)
    requires blockSize > 0 && |p| > 0
    ensures var u := if |p| > blockSize then p[..blockSize] else p;
            Copies(Cut(p, blockSize)) == [CopyBlock(u)] + Copies(Cut(p[|u|..], blockSize))
            && Blocks(Cut(p, blockSize)) == [Op.Block(u)] + Blocks(Cut(p[|u|..], blockSize))
  {
    var u := if |p| > blockSize then p[..blockSize] else p;
    assert Cut(p, blockSize) == [u] + Cut(p[|u|..], blockSize);
    assert Cut(p, blockSize)[1..] == Cut(p[|u|..], blockSize);
  }

  lemma MoveOver(a: seq<Op>, op: Op, b: seq<Op>)
    ensures (a + [op]) + b == a + ([op] + b)
  {
  }

  lemma AssocOps(a: seq<Op>, b: seq<Op>, c: seq<Op>)
    ensures (a + b) + c == a + (b + c)
  {
  }

  /** How much of `p` goes out with what is buffered. */
  function First(g: Config, f: Front, p: seq<Byte>): (c: nat)
    requires GoodConfig(g) && |f.ibuf| <= g.blockSize < |f.ibuf| + |p|
    ensures c <= |p|
  {
    if f.ibuf == [] then |p| else g.blockSize - |f.ibuf|
  }

  lemma PlanWriteOnce(g: Config, f: Front, p: seq<Byte>)
    requires GoodConfig(g) && |f.ibuf| <= g.blockSize < |f.ibuf| + |p|
    ensures var c := First(g, f, p);
            var rest := PlanWrite(g, WritePlan.Front([], true), p[c..]);
            PlanWrite(g, f, p) == Planned(WriteOps(g, f.ibuf + p[..c], f.wroteHeader) + rest.ops, rest.front)
  {
    hide WriteOps;
    var c := First(g, f, p);
    if f.ibuf == [] {
      assert [] + p[..c] == p;
      assert PlanWrite(g, WritePlan.Front([], true), p[c..]) == Planned([], NEW_FRONT.(wroteHeader := true));
    }
  }

  lemma PlanMoves(ops: seq<Op>, done: seq<Op>, rest: Planned)
    ensures Planned(ops + (done + rest.ops), rest.front) == Planned((ops + done) + rest.ops, rest.front)
  {
    AssocOps(ops, done, rest.ops);
  }

  lemma PlanWriteFits(g: Config, f: Front, p: seq<Byte>)
    requires GoodConfig(g) && |f.ibuf| + |p| <= g.blockSize
    ensures PlanWrite(g, f, p) == Planned([], f.(ibuf := f.ibuf + p))
  {
  }

  lemma OneMore(g: Config, log: seq<Op>, op: Op, wrote: bool)
    requires GoodConfig(g) && WellFormed(g, log, false, wrote) && Fits(g, op, wrote)
    ensures WellFormed(g, log + [op], false, wrote || !op.FlushOp?)
  {
    hide WellFormed; hide Fits;
    OneWellFormed(g, op, wrote);
    WellFormedConcat(g, log, [op], false, wrote, wrote || !op.FlushOp?);
  }

  class Writer {
    const g: Config
    const concurrency: nat
    /** Input that is not in a block yet. */
    var ibuf: seq<Byte>
    var wroteStreamHeader: bool
    var written: nat
    var uncompWritten: nat
    /** What was passed to `index.add`. */
    var index: seq<(nat, nat)>
    /** What the underlying writer has received. */
    var writer: seq<Byte>
    /** What was queued for the goroutines. */
    var output: seq<Op>
    /** All operations so far. */
    ghost var log: seq<Op>

    ghost predicate Valid()
      reads this
    {
      && GoodConfig(g) && concurrency >= 1 && |ibuf| <= g.blockSize
      && uncompWritten == |Input(log, |log|)| && WellFormed(g, log, false, wroteStreamHeader)
      && (concurrency > 1 ==> output == log)
      && (concurrency == 1 ==> output == [] && OutputIs(g.k, log, |log|, writer, written, index, false))
    }

    function Front(): (f: Front)
      reads this
    {
      WritePlan.Front(ibuf, wroteStreamHeader)
    }

    /** What was done since, compared with a plan. */
    twostate predicate Did(p: Planned)
      reads this
    {
      && Front() == p.front
      && OpsInput(log) == old(OpsInput(log)) + OpsInput(p.ops)
      && uncompWritten == old(uncompWritten) + |OpsInput(p.ops)|
      && (concurrency > 1 ==> output == old(output) + p.ops)
      && (concurrency == 1 ==> writer == old(writer) + OpsBytes(g.k, p.ops))
    }

    constructor (g: Config, concurrency: nat)
      requires GoodConfig(g) && concurrency >= 1
      ensures Valid() && Front() == NEW_FRONT && writer == [] && output == [] && uncompWritten == 0
      ensures this.g == g && this.concurrency == concurrency
    {
      this.g, this.concurrency := g, concurrency;
      ibuf, wroteStreamHeader, written, uncompWritten, index, writer, output, log := [], false, 0, 0, [], [], [], [];
    }

    /** One operation written by the caller, with or without an index entry, or queued. */
    method Perform(op: Op, addIndex: bool)
      requires Valid() && !op.Direct? && Fits(g, op, wroteStreamHeader)
      requires concurrency == 1 ==> addIndex == EntryDue(log, op)
      modifies this
      ensures Valid() && log == old(log) + [op]
      ensures Front() == WritePlan.Front(old(ibuf), old(wroteStreamHeader) || !op.FlushOp?)
    {
      hide OutputIs; hide OpBytes; hide OpInput; hide Input; hide WellFormed; hide Fits;
      OneMore(g, log, op, wroteStreamHeader);
      if concurrency == 1 { Carried(g.k, log, op, writer, written, index); } else { InputGrows(log, op); }
      log := log + [op];
      if concurrency == 1 {
        if addIndex { index := index + [(written, uncompWritten)]; }
        var b := OpBytes(g.k, op);
        writer := writer + b;
        OutputLength(g.k, old(log), |old(log)|, old(writer), written, old(index));
        written := written + |b|;
      } else {
        output := output + [op];
      }
      uncompWritten := uncompWritten + |OpInput(op)|;
      if !op.FlushOp? { wroteStreamHeader := true; }
    }

    /** A block of `writeSync`. A stored block is written in two parts, with the index entry between them. */
    method SyncBlock(u: seq<Byte>)
      requires Valid() && concurrency == 1 && wroteStreamHeader && 0 < |u| <= g.blockSize
      modifies this
      ensures Valid() && log == old(log) + [CopyBlock(u)] && Front() == old(Front())
    {
      hide OutputIs; hide DataChunk; hide Input; hide PutUvarint; hide WellFormed;
      OneMore(g, log, CopyBlock(u), true);
      Carried(g.k, log, CopyBlock(u), writer, written, index);
      OutputLength(g.k, log, |log|, writer, written, index);
      ChunkParts(g.k, u);
      var chunkType, chunkLen, body := CHUNK_UNCOMPRESSED, 4 + |u|, [];
      var encoded := g.k.encode(u);
      if encoded != [] {
        body := PutUvarint(|u|) + encoded;
        chunkType, chunkLen := CHUNK_COMPRESSED, 4 + |PutUvarint(|u|)| + |encoded|;
      }
      var head := [chunkType] + LE24(chunkLen) + LE32(g.k.crc(u));
      var obuf := head + body;
      Assoc(writer, head, u);
      assert body == [] ==> obuf == head;
      writer := writer + obuf;
      index := index + [(written, uncompWritten)];
      written := written + |obuf|;
      uncompWritten := uncompWritten + |u|;
      if chunkType == CHUNK_UNCOMPRESSED {
        writer := writer + u;
        written := written + |u|;
      }
      log := log + [CopyBlock(u)];
      assert writer == old(writer) + DataChunk(g.k, u);
    }

    method WriteHeader()
      requires Valid()
      modifies this
      ensures Valid() && log == old(log) + HeaderOps(g, old(wroteStreamHeader)) &&
              Front() == old(Front()).(wroteHeader := true)
    {
      if !wroteStreamHeader {
        Perform(Header(HeaderOf(g)), false);
      } else {
        assert log == log + [];
      }
    }

    /** `writeSync`. */
    method WriteSync(p: seq<Byte>)
      requires Valid() && concurrency == 1
      modifies this
      ensures Valid() && log == old(log) + WriteOps(g, p, old(wroteStreamHeader))
      ensures Front() == old(Front()).(wroteHeader := true)
    {
      WriteHeader();
      ghost var start, all := log, Copies(Cut(p, g.blockSize));
      AssocOps(old(log), HeaderOps(g, old(wroteStreamHeader)), all);
      var p := p;
      while |p| > 0
        invariant Valid() && Front() == old(Front()).(wroteHeader := true)
        invariant log + Copies(Cut(p, g.blockSize)) == start + all
      {
        var u := if |p| > g.blockSize then p[..g.blockSize] else p;
        NextCut(p, g.blockSize);
        MoveOver(log, CopyBlock(u), Copies(Cut(p[|u|..], g.blockSize)));
        p := p[|u|..];
        SyncBlock(u);
      }
    }

    /** `write`, of something. */
    method WriteBlocks(p: seq<Byte>)
      requires Valid() && |p| > 0
      modifies this
      ensures Valid() && log == old(log) + WriteOps(g, p, old(wroteStreamHeader))
      ensures Front() == old(Front()).(wroteHeader := true)
    {
      if concurrency == 1 {
        WriteSync(p);
        return;
      }
      WriteHeader();
      ghost var start, all := log, Copies(Cut(p, g.blockSize));
      AssocOps(old(log), HeaderOps(g, old(wroteStreamHeader)), all);
      var p := p;
      while |p| > 0
        invariant Valid() && Front() == old(Front()).(wroteHeader := true)
        invariant log + Copies(Cut(p, g.blockSize)) == start + all
      {
        var u := if |p| > g.blockSize then p[..g.blockSize] else p;
        NextCut(p, g.blockSize);
        MoveOver(log, CopyBlock(u), Copies(Cut(p[|u|..], g.blockSize)));
        p := p[|u|..];
        Perform(CopyBlock(u), true);
      }
    }

    /** What the log grew by is what was done. */
    twostate lemma Logged(ops: seq<Op>)
      requires old(Valid()) && Valid() && log == old(log) + ops
      ensures OpsInput(log) == old(OpsInput(log)) + OpsInput(ops) &&
              uncompWritten == old(uncompWritten) + |OpsInput(ops)|
      ensures concurrency > 1 ==> output == old(output) + ops
      ensures concurrency == 1 ==> writer == old(writer) + OpsBytes(g.k, ops)
    {
      hide OpsBytes; hide OpsInput; hide Sequential; hide Input; hide Truthful;
      SequentialIsOps(g.k, log, |log|);
      SequentialIsOps(g.k, old(log), |old(log)|);
      assert log[..|log|] == log && old(log)[..|old(log)|] == old(log);
      OpsConcat(g.k, old(log), ops);
    }

    /** `Write`, which fills the input buffer and writes it out when it is full. */
    method Write(p: seq<Byte>) returns (n: nat)
      requires Valid()
      modifies this
      ensures Valid() && n == |p| && Did(PlanWrite(g, old(Front()), p))
    {
      hide WriteOps; hide OpsBytes; hide OpsInput; hide PlanWrite; hide OutputIs; hide Input; hide WellFormed;
      hide GoodConfig; hide Sequential; hide Entries;
      var rest := p;
      n := 0;
      ghost var ops: seq<Op> := [];
      while |rest| > g.blockSize - |ibuf|
        invariant Valid() && n + |rest| == |p| && log == old(log) + ops
        invariant PlanWrite(g, old(Front()), p) ==
                  Planned(ops + PlanWrite(g, Front(), rest).ops, PlanWrite(g, Front(), rest).front)
        decreases |rest|, |ibuf|
      {
        PlanWriteOnce(g, Front(), rest);
        ghost var done := WriteOps(g, ibuf + rest[..First(g, Front(), rest)], wroteStreamHeader);
        var c := |rest|;
        if |ibuf| == 0 {
          WriteBlocks(rest);
          assert [] + rest[..|rest|] == rest;
        } else {
          c := g.blockSize - |ibuf|;
          ibuf := ibuf + rest[..c];
          WriteBlocks(ibuf);
          ibuf := [];
        }
        n, rest := n + c, rest[c..];
        AssocOps(old(log), ops, done);
        PlanMoves(ops, done, PlanWrite(g, Front(), rest));
        ops := ops + done;
      }
      PlanWriteFits(g, Front(), rest);
      n := n + |rest|;
      ibuf := ibuf + rest;
      assert ops + [] == ops;
      Logged(ops);
    }

    /**
     `AsyncFlush`. Without a header yet it uses `writeSync` whatever the concurrency. With goroutines
     running that is the operation `Direct`.
     */
    method AsyncFlush()
      requires Valid()
      modifies this
      ensures Valid() && Did(PlanAsyncFlush(g, old(Front())))
    {
      hide OpsBytes; hide OpsInput; hide OutputIs; hide Input; hide Cut; hide HeaderOf;
      if |ibuf| == 0 {
        Logged([]);
        NoInput();
      } else if !wroteStreamHeader && concurrency == 1 {
        WriteSync(ibuf);
        Logged(WriteOps(g, ibuf, false));
        SameBytes(g, ibuf);
        ibuf := [];
      } else if !wroteStreamHeader {
        var op := Direct(HeaderOf(g), ibuf);
        InputGrows(log, op);
        OneMore(g, log, op, false);
        output := output + [op];
        log := log + [op];
        uncompWritten := uncompWritten + |ibuf|;
        wroteStreamHeader := true;
        ibuf := [];
        Logged([op]);
      } else {
        WriteBlocks(ibuf);
        Logged(WriteOps(g, ibuf, true));
        ibuf := [];
      }
    }

    /** `Flush`. Without goroutines there is nothing to wait for. */
    method Flush()
      requires Valid()
      modifies this
      ensures Valid() && Did(PlanCall(g, old(Front()), Call.Flush))
    {
      hide OpsBytes; hide OpsInput; hide OutputIs; hide Input; hide PlanAsyncFlush;
      AsyncFlush();
      label Flushed:
      ghost var a := PlanAsyncFlush(g, old(Front()));
      OneOp(g.k, FlushOp);
      if concurrency > 1 {
        Perform(FlushOp, false);
        Logged@Flushed([FlushOp]);
      }
      Then(g.k, a.ops, [FlushOp], old(writer), old(output), old(OpsInput(log)));
    }

    /** The loop of `EncodeBuffer` that queues blocks. */
    method QueueBlocks(p: seq<Byte>)
      requires Valid() && concurrency > 1
      modifies this
      ensures Valid() && log == old(log) + (HeaderOps(g, old(wroteStreamHeader)) + Blocks(Cut(p, g.blockSize)))
      ensures Front() == old(Front()).(wroteHeader := true)
    {
      WriteHeader();
      ghost var start, all := log, Blocks(Cut(p, g.blockSize));
      AssocOps(old(log), HeaderOps(g, old(wroteStreamHeader)), all);
      var p := p;
      while |p| > 0
        invariant Valid() && Front() == old(Front()).(wroteHeader := true)
        invariant log + Blocks(Cut(p, g.blockSize)) == start + all
      {
        var u := if |p| > g.blockSize then p[..g.blockSize] else p;
        NextCut(p, g.blockSize);
        MoveOver(log, Op.Block(u), Blocks(Cut(p[|u|..], g.blockSize)));
        p := p[|u|..];
        Perform(Op.Block(u), true);
      }
    }

    /** `EncodeBuffer`. */
    method EncodeBuffer(p: seq<Byte>)
      requires Valid()
      modifies this
      ensures Valid() && Did(PlanCall(g, old(Front()), Call.EncodeBuffer(p)))
    {
      hide OpsBytes; hide OpsInput; hide OutputIs; hide Input; hide PlanAsyncFlush; hide Cut; hide Blocks; hide Copies;
      hide HeaderOps;
      AsyncFlush();
      label Flushed:
      ghost var a, cut := PlanAsyncFlush(g, old(Front())), Cut(p, g.blockSize);
      ghost var head := HeaderOps(g, a.front.wroteHeader);
      CopiesOrBlocks(g.k, head, cut);
      if concurrency == 1 {
        WriteSync(p);
        Logged@Flushed(head + Copies(cut));
      } else {
        QueueBlocks(p);
        Logged@Flushed(head + Blocks(cut));
      }
      Then(g.k, a.ops, head + Blocks(cut), old(writer), old(output), old(OpsInput(log)));
    }

    /** `AddUserChunk`; false if the id or the length is refused. */
    method AddUserChunk(id: Byte, p: seq<Byte>) returns (ok: bool)
      requires Valid()
      modifies this
      ensures Valid() && ok == AllowedUserChunk(id, p)
      ensures Did(PlanCall(g, old(Front()), Call.AddUserChunk(id, p)))
      ensures !ok ==> writer == old(writer) && output == old(output)
      ensures ok && concurrency == 1 ==>
                writer == old(writer) + (if old(wroteStreamHeader) then [] else HeaderOf(g)) + ([id] + LE24(|p|) + p)
      ensures ok && concurrency > 1 ==> output != [] && output[|output| - 1] == User([id] + LE24(|p|) + p)
    {
      hide OpsBytes; hide OpsInput; hide OutputIs; hide Input; hide HeaderOps;
      if id < 0x80 || id > 0xfe || |p| > 0xff_ffff {
        Logged([]);
        NoInput();
        return false;
      }
      WriteHeader();
      ghost var head := HeaderOps(g, old(wroteStreamHeader));
      var op := User(Chunk(id, p));
      assert op.b[4..] == p;
      Perform(op, concurrency > 1 || uncompWritten > 0);
      AssocOps(old(log), head, [op]);
      Logged(head + [op]);
      HeaderBytes(g, old(wroteStreamHeader), op);
      return true;
    }

    /** `Close` without index and padding: the chunk it writes behind everything else. */
    method Close() returns (eof: seq<Byte>)
      requires Valid() && uncompWritten + |ibuf| < 0x8000_0000_0000_0000
      modifies this
      ensures Valid() && Did(PlanCall(g, old(Front()), Call.Flush)) && eof == EofChunk(uncompWritten)
    {
      hide PlanCall; hide OpsInput; hide OpsBytes; hide OutputIs; hide Input;
      Flush();
      CallKeepsInput(g, old(Front()), Call.Flush);
      var size := PutUvarint(uncompWritten);
      EofLength(uncompWritten);
      eof := [CHUNK_EOF] + [Low(|size|), 0, 0] + size;
    }
  }

  lemma InputGrows(log: seq<Op>, op: Op)
    ensures |Input(log + [op], |log| + 1)| == |Input(log, |log|)| + |OpInput(op)|
  {
    hide OpInput;
    Extends(Codec(_ => 0, _ => []), log, op, |log|);
  }

  lemma OneOp(k: Codec, op: Op)
    ensures OpsBytes(k, [op]) == OpBytes(k, op) && OpsInput([op]) == OpInput(op)
  {
    hide OpBytes; hide OpInput;
    assert [op][1..] == [];
  }

  lemma Then(k: Codec, a: seq<Op>, b: seq<Op>, writer: seq<Byte>, output: seq<Op>, input: seq<Byte>)
    ensures (input + OpsInput(a)) + OpsInput(b) == input + OpsInput(a + b)
    ensures OpsInput(a + b) == OpsInput(a) + OpsInput(b)
    ensures (writer + OpsBytes(k, a)) + OpsBytes(k, b) == writer + OpsBytes(k, a + b)
    ensures (output + a) + b == output + (a + b)
  {
    hide OpsBytes; hide OpsInput;
    OpsConcat(k, a, b);
    Assoc(writer, OpsBytes(k, a), OpsBytes(k, b));
    Assoc(input, OpsInput(a), OpsInput(b));
    AssocOps(output, a, b);
  }

  lemma CopiesOrBlocks(k: Codec, head: seq<Op>, ps: seq<seq<Byte>>)
    ensures OpsBytes(k, head + Copies(ps)) == OpsBytes(k, head + Blocks(ps))
    ensures OpsInput(head + Copies(ps)) == OpsInput(head + Blocks(ps))
  {
    hide OpsBytes; hide OpsInput;
    BlockOps(k, ps);
    OpsConcat(k, head, Blocks(ps));
    OpsConcat(k, head, Copies(ps));
  }

  /** Header and block in two operations or in one. */
  lemma SameBytes(g: Config, u: seq<Byte>)
    requires GoodConfig(g) && 0 < |u| <= g.blockSize
    ensures OpsBytes(g.k, WriteOps(g, u, false)) == OpsBytes(g.k, [Direct(HeaderOf(g), u)])
    ensures OpsInput(WriteOps(g, u, false)) == OpsInput([Direct(HeaderOf(g), u)])
  {
    hide HeaderOf; hide DataChunk;
    var h := HeaderOf(g);
    OneOp(g.k, Direct(h, u));
    OneOp(g.k, Header(h));
    OneOp(g.k, CopyBlock(u));
    assert Copies([u]) == [CopyBlock(u)];
    OpsConcat(g.k, [Header(h)], [CopyBlock(u)]);
  }

  lemma EofLength(total: nat)
    ensures total < 0x8000_0000_0000_0000 ==>
              EofChunk(total) == [CHUNK_EOF] + [Low(|PutUvarint(total)|), 0, 0] + PutUvarint(total)
  {
    if total < 0x8000_0000_0000_0000 {
      CapIs64Bits();
      PutUvarintAtMost(total, 0);
    }
  }

  lemma HeaderBytes(g: Config, wrote: bool, op: Op)
    requires GoodConfig(g)
    ensures OpsBytes(g.k, HeaderOps(g, wrote) + [op]) == (if wrote then [] else HeaderOf(g)) + OpBytes(g.k, op)
  {
    hide HeaderOf; hide OpBytes;
    OpsConcat(g.k, HeaderOps(g, wrote), [op]);
    OneOp(g.k, op);
    if !wrote {
      OneOp(g.k, Header(HeaderOf(g)));
      OneHeader(g);
    }
  }

  lemma OneHeader(g: Config)
    requires GoodConfig(g)
    ensures OpBytes(g.k, Header(HeaderOf(g))) == HeaderOf(g)
  {
  }

  // ---------- a whole stream ----------

  /** What the calls and a `Close` after them come down to. */
  function ClosedOps(g: Config, calls: seq<Call>): (r: seq<Op>)
    requires GoodConfig(g)
  {
    Plan(g, NEW_FRONT, calls + [Call.Flush]).ops
  }

  function StreamOf(g: Config, calls: seq<Call>): (r: seq<Byte>)
    requires GoodConfig(g)
  {
    OpsBytes(g.k, ClosedOps(g, calls)) + EofChunk(|CallsInput(calls)|)
  }

  lemma {:induction false} FlushedLast(g: Config, f: Front, calls: seq<Call>)
    requires GoodConfig(g) && |f.ibuf| <= g.blockSize
    ensures Plan(g, f, calls + [Call.Flush]).front.ibuf == []
    ensures CallsInput(calls + [Call.Flush]) == CallsInput(calls)
    decreases |calls|
  {
    if calls == [] {
      hide PlanAsyncFlush;
      assert ([] + [Call.Flush])[1..] == [];
    } else {
      hide PlanCall; hide CallInput;
      assert (calls + [Call.Flush])[1..] == calls[1..] + [Call.Flush];
      FlushedLast(g, PlanCall(g, f, calls[0]).front, calls[1..]);
    }
  }

  /** The stream carries all that the calls passed in, in their order. */
  lemma ClosedInput(g: Config, calls: seq<Call>)
    requires GoodConfig(g)
    ensures OpsInput(ClosedOps(g, calls)) == CallsInput(calls)
  {
    hide Plan; hide OpsInput; hide CallsInput;
    PlanKeepsInput(g, NEW_FRONT, calls + [Call.Flush]);
    FlushedLast(g, NEW_FRONT, calls);
    assert OpsInput(ClosedOps(g, calls)) + [] == OpsInput(ClosedOps(g, calls));
    assert [] + CallsInput(calls) == CallsInput(calls);
  }

  /**
   For every interleaving of the goroutines: once the queue is drained, the bytes written, with the EOF
   chunk behind them, are the stream that a writer with concurrency 1 writes for the same calls.
   */
  lemma ConcurrentIsSequential(g: Config, calls: seq<Call>, capacity: nat, run: seq<Action>)
    requires GoodConfig(g)
    requires Exec(g.k, ClosedOps(g, calls), capacity, START, run).Some?
    requires Quiet(ClosedOps(g, calls), Exec(g.k, ClosedOps(g, calls), capacity, START, run).value)
    ensures Exec(g.k, ClosedOps(g, calls), capacity, START, run).value.out + EofChunk(|CallsInput(calls)|) ==
              StreamOf(g, calls)
  {
    hide Exec; hide Plan; hide OpsBytes; hide Sequential; hide Truthful;
    var prog := ClosedOps(g, calls);
    PlanValid(g, calls + [Call.Flush]);
    OutputInOrder(g.k, prog, capacity, run);
    SequentialIsOps(g.k, prog, |prog|);
    assert prog[..|prog|] == prog;
  }

  lemma {:induction false} PlanConcat(g: Config, f: Front, a: seq<Call>, b: seq<Call>)
    requires GoodConfig(g) && |f.ibuf| <= g.blockSize
    ensures var p := Plan(g, f, a);
            Plan(g, f, a + b).ops == p.ops + Plan(g, p.front, b).ops
    decreases |a|
  {
    hide PlanCall;
    if a == [] {
      assert a + b == b;
    } else {
      assert (a + b)[1..] == a[1..] + b;
      PlanConcat(g, PlanCall(g, f, a[0]).front, a[1..], b);
    }
  }

  /** The plan of calls that end with a `Flush` ends with the operation that waits, and buffers nothing. */
  lemma {:induction false} FlushWaits(g: Config, f: Front, calls: seq<Call>)
    requires GoodConfig(g) && |f.ibuf| <= g.blockSize
    ensures var p := Plan(g, f, calls + [Call.Flush]);
            p.ops != [] && p.ops[|p.ops| - 1] == FlushOp && p.front.ibuf == []
    decreases |calls|
  {
    if calls == [] {
      hide PlanAsyncFlush;
      assert ([] + [Call.Flush])[1..] == [];
    } else {
      hide PlanCall;
      assert (calls + [Call.Flush])[1..] == calls[1..] + [Call.Flush];
      FlushWaits(g, PlanCall(g, f, calls[0]).front, calls[1..]);
    }
  }

  /**
   `Flush` with goroutines: in every interleaving, when all that was issued is what the calls up to a `Flush`
   come down to and the caller goes on, the output is all of that, and it carries all their input.
   */
  lemma FlushDelivers(g: Config, before: seq<Call>, after: seq<Call>, capacity: nat, run: seq<Action>)
    requires GoodConfig(g)
    requires Exec(g.k, Plan(g, NEW_FRONT, before + [Call.Flush] + after).ops, capacity, START, run).Some?
    ensures var prog, mine := Plan(g, NEW_FRONT, before + [Call.Flush] + after).ops,
                              Plan(g, NEW_FRONT, before + [Call.Flush]).ops;
            var s := Exec(g.k, prog, capacity, START, run).value;
            && mine <= prog && OpsInput(mine) == CallsInput(before)
            && (s.pc == |mine| && s.caller.Free? ==> s.out == OpsBytes(g.k, mine))
  {
    hide Exec; hide Plan; hide OpsBytes; hide Sequential; hide CallsInput; hide OpsInput;
    var calls := before + [Call.Flush];
    var prog, mine := Plan(g, NEW_FRONT, calls + after).ops, Plan(g, NEW_FRONT, calls).ops;
    PlanConcat(g, NEW_FRONT, calls, after);
    FlushWaits(g, NEW_FRONT, before);
    ClosedInput(g, before);
    PlanValid(g, calls + after);
    var s := Exec(g.k, prog, capacity, START, run).value;
    if s.pc == |mine| && s.caller.Free? {
      FlushReturned(g.k, prog, capacity, run);
      SequentialIsOps(g.k, prog, |mine|);
      assert prog[..|mine|] == mine;
    }
  }
}
