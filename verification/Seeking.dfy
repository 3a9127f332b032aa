/**
 Reading a stream from an index entry on: the entries that writers pass to the index, `Find`, and `Skip`
 (writer.go, index.go, reader.go).
 */
module Seeking {
  import opened Bytes
  import opened Stream
  import opened ChunkReader
  import opened Skipping
  import opened StreamRoundTrip
  import C = ConcurrentWriter
  import P = WritePlan
  import W = Writer
  import R = StreamReader
  import Index

  lemma SplitOps(k: Codec, ops: seq<C.Op>, n: nat)
    requires n <= |ops|
    ensures P.OpsBytes(k, ops) == C.Sequential(k, ops, n) + P.OpsBytes(k, ops[n..])
    ensures P.OpsInput(ops) == C.Input(ops, n) + P.OpsInput(ops[n..])
  {
    hide P.OpsBytes; hide P.OpsInput; hide C.Sequential; hide C.Input;
    P.SequentialIsOps(k, ops, n);
    P.OpsConcat(k, ops[..n], ops[n..]);
    assert ops[..n] + ops[n..] == ops;
  }

  /** The rest of a well formed sequence is one too. */
  lemma {:induction false} Rest(g: P.Config, ops: seq<C.Op>, wrote: bool, wrote': bool, n: nat) returns (w: bool)
    requires P.GoodConfig(g) && P.WellFormed(g, ops, wrote, wrote') && n <= |ops|
    ensures P.WellFormed(g, ops[n..], w, wrote') && (wrote ==> w) && (!w ==> P.OpsInput(ops[..n]) == [])
    decreases n
  {
    hide P.Fits;
    if n == 0 {
      assert ops[0..] == ops && ops[..0] == [];
      w := wrote;
    } else {
      w := Rest(g, ops[1..], wrote || !ops[0].FlushOp?, wrote', n - 1);
      assert ops[1..][n - 1..] == ops[n..];
      assert ops[..n][1..] == ops[1..][..n - 1];
      if !w { OnceWritten(ops, n); }
    }
  }

  lemma OnceWritten(ops: seq<C.Op>, n: nat)
    requires 0 < n <= |ops| && P.OpsInput(ops[..n][1..]) == []
    ensures ops[0].FlushOp? ==> P.OpsInput(ops[..n]) == []
  {
  }

  /** A reader that has its header, or does without, and admits the writer's blocks. */
  ghost predicate Positioned(g: P.Config, c: Settings, st: State, u: int) {
    && st.readHeader && g.blockSize <= st.maxBlock <= MAX_BLOCK_SIZE && (c.ignoreStreamID || st.pos == u)
  }

  /** The operations from `n` on, and the EOF chunk, with the header of a direct write left out. */
  lemma RestReads(g: P.Config, c: Settings, st: State, ops: seq<C.Op>, n: nat, wrote': bool)
    requires Compatible(g, c) && P.WellFormed(g, ops, false, wrote') && Unstoppable(ops) && n <= |ops|
    requires Positioned(g, c, st, |C.Input(ops, n)|) && |P.OpsInput(ops)| < 0x8000_0000_0000_0000
    ensures All(c, st, P.OpsBytes(g.k, ops[n..]) + EofChunk(|P.OpsInput(ops)|)) == Run(P.OpsInput(ops[n..]), Eof)
  {
    assert P.GoodConfig(g);
    var w := Rest(g, ops, false, wrote', n);
    var rest, total := ops[n..], |P.OpsInput(ops)|;
    assert Ready(g, st, w);
    P.SequentialIsOps(g.k, ops, n);
    SplitOps(g.k, ops, n);
    RestUnstoppable(ops, n);
    hide P.GoodConfig; hide Compatible; hide P.WellFormed; hide Unstoppable; hide P.OpsBytes; hide P.OpsInput;
    hide C.Input; hide Ready;
    hide All; hide Step; hide AfterOps; hide Pow2; hide BitLen;
    OpsRead(g, c, st, rest, w, wrote', EofChunk(total));
    Positions(g, st, rest, w, wrote');
    AtTheEnd(c, AfterOps(g, st, rest), total);
    assert P.OpsInput(rest) + [] == P.OpsInput(rest);
  }

  lemma AtTheEnd(c: Settings, st: State, total: nat)
    requires total < 0x8000_0000_0000_0000 && (c.ignoreStreamID || total == st.pos)
    ensures All(c, st, EofChunk(total)) == Run([], Eof)
  {
    hide Step; hide All; hide EofChunk;
    EofReads(c, st, total);
    AllStep(c, st, EofChunk(total), st.(wantEOF := false, readHeader := false), [], []);
    assert EofChunk(total) + [] == EofChunk(total);
    NothingLeft(c, st.(wantEOF := false, readHeader := false));
  }

  lemma RestUnstoppable(ops: seq<C.Op>, n: nat)
    requires Unstoppable(ops) && n <= |ops|
    ensures Unstoppable(ops[n..])
  {
    assert forall i :: 0 <= i < |ops| - n ==> ops[n..][i] == ops[n + i];
  }

  lemma NextInput(ops: seq<C.Op>, n: nat)
    requires n < |ops|
    ensures C.Input(ops, n + 1) == C.Input(ops, n) + C.OpInput(ops[n])
    ensures P.OpsInput(ops[n..]) == C.OpInput(ops[n]) + P.OpsInput(ops[n + 1..])
  {
    hide C.OpInput;
    assert ops[n..][0] == ops[n] && ops[n..][1..] == ops[n + 1..];
  }

  lemma NextPosition(g: P.Config, c: Settings, st: State, ops: seq<C.Op>, n: nat)
    requires Compatible(g, c) && n < |ops| && ops[n].Direct? && 0 < |ops[n].u| <= g.blockSize &&
             Positioned(g, c, st, |C.Input(ops, n)|)
    ensures var st1 := st.(pos := st.pos + |ops[n].u|);
            && Positioned(g, c, st1, |C.Input(ops, n + 1)|) && C.OpInput(ops[n]) == ops[n].u
            && Step(c, st, DataChunk(g.k, ops[n].u)) == More(st1, ops[n].u, [])
  {
    hide C.Input; hide Step; hide DataChunk; hide GoodCodec; hide GoodSettings;
    NextInput(ops, n);
    DataChunkReads(g, c, st, ops[n].u);
  }

  /** A direct write, from behind its header on. */
  lemma DirectRest(g: P.Config, c: Settings, st: State, ops: seq<C.Op>, n: nat, wrote': bool)
    requires Compatible(g, c) && P.WellFormed(g, ops, false, wrote') && Unstoppable(ops) && n < |ops| && ops[n].Direct?
    requires 0 < |ops[n].u| <= g.blockSize
    requires Positioned(g, c, st, |C.Input(ops, n)|) && |P.OpsInput(ops)| < 0x8000_0000_0000_0000
    ensures All(c, st, DataChunk(g.k, ops[n].u) + (P.OpsBytes(g.k, ops[n + 1..]) + EofChunk(|P.OpsInput(ops)|)))
            == Run(P.OpsInput(ops[n..]), Eof)
  {
    hide *;
    var u, st1 := ops[n].u, st.(pos := st.pos + |ops[n].u|);
    NextPosition(g, c, st, ops, n);
    NextInput(ops, n);
    RestReads(g, c, st1, ops, n + 1, wrote');
    AllStep(c, st, DataChunk(g.k, u), st1, u, P.OpsBytes(g.k, ops[n + 1..]) + EofChunk(|P.OpsInput(ops)|));
  }

  lemma {:induction false} EachFits(g: P.Config, ops: seq<C.Op>, wrote: bool, wrote': bool, n: nat) returns (w: bool)
    requires P.GoodConfig(g) && P.WellFormed(g, ops, wrote, wrote') && n < |ops|
    ensures P.Fits(g, ops[n], w)
  {
    hide P.Fits;
    w := wrote;
    if n > 0 { w := EachFits(g, ops[1..], wrote || !ops[0].FlushOp?, wrote', n - 1); }
  }

  /** The bytes from an entry on: whole chunks of what is left of the stream. */
  lemma FromEntry(g: P.Config, ops: seq<C.Op>, n: nat, w: bool, t: seq<Byte>)
    requires P.GoodConfig(g) && n < |ops| && P.Fits(g, ops[n], w)
    ensures var stream, at := P.OpsBytes(g.k, ops) + t, |C.Sequential(g.k, ops, n)| + C.HeaderPart(ops[n]);
            && at <= |stream|
            && stream[at..] == if ops[n].Direct? then DataChunk(g.k, ops[n].u) + (P.OpsBytes(g.k, ops[n + 1..]) + t)
                               else P.OpsBytes(g.k, ops[n..]) + t
  {
    hide DataChunk; hide P.HeaderOf; hide C.Sequential; hide C.Input;
    SplitOps(g.k, ops, n);
    var before, rest := C.Sequential(g.k, ops, n), P.OpsBytes(g.k, ops[n..]);
    Assoc(before, rest, t);
    if ops[n].Direct? {
      var h, d, more := ops[n].b, DataChunk(g.k, ops[n].u), P.OpsBytes(g.k, ops[n + 1..]);
      assert ops[n..][1..] == ops[n + 1..];
      assert rest == (h + d) + more;
      Assoc(h, d, more);
      Assoc(h, d + more, t);
      Assoc(d, more, t);
      Assoc(before, h, d + (more + t));
      assert P.OpsBytes(g.k, ops) + t == (before + h) + (d + (more + t));
    } else {
      assert P.OpsBytes(g.k, ops) + t == before + (rest + t);
    }
  }

  lemma Following(g: P.Config, c: Settings, st: State, ops: seq<C.Op>, n: nat, wrote': bool)
    requires P.GoodConfig(g) && Compatible(g, c) && P.WellFormed(g, ops, false, wrote') && Unstoppable(ops) && n < |ops|
    requires Positioned(g, c, st, |C.Input(ops, n)|) && |P.OpsInput(ops)| < 0x8000_0000_0000_0000
    ensures var stream, at := P.OpsBytes(g.k, ops) + EofChunk(|P.OpsInput(ops)|),
    |C.Sequential(g.k, ops, n)| + C.HeaderPart(ops[n]);
            at <= |stream| && All(c, st, stream[at..]) == Run(P.OpsInput(ops[n..]), Eof)
  {
    hide *;
    var w := EachFits(g, ops, false, wrote', n);
    FromEntry(g, ops, n, w, EofChunk(|P.OpsInput(ops)|));
    if ops[n].Direct? {
      DirectFits(g, ops[n], w);
      DirectRest(g, c, st, ops, n, wrote');
    } else {
      RestReads(g, c, st, ops, n, wrote');
    }
  }

  /**
   Index truth: from any true entry of well formed output on, a reader reads the rest of the data, and a
   clean end.
   */
  lemma TrueEntryReads(g: P.Config, c: Settings, st: State, ops: seq<C.Op>, wrote': bool, e: (nat, nat))
    requires P.GoodConfig(g) && Compatible(g, c) && P.WellFormed(g, ops, false, wrote') && Unstoppable(ops)
    requires C.Truthful(g.k, ops, e) && Positioned(g, c, st, e.1) && |P.OpsInput(ops)| < 0x8000_0000_0000_0000
    ensures var stream := P.OpsBytes(g.k, ops) + EofChunk(|P.OpsInput(ops)|);
            e.0 <= |stream| && e.1 <= |P.OpsInput(ops)| && All(c, st, stream[e.0..]) == Run(P.OpsInput(ops)[e.1..], Eof)
  {
    hide P.WellFormed; hide Compatible; hide Unstoppable; hide P.OpsBytes; hide P.OpsInput; hide C.HeaderPart;
    hide C.Sequential; hide C.Input; hide All; hide EofChunk; hide Positioned; hide P.GoodConfig;
    var n: nat :| n < |ops| && e.1 == |C.Input(ops, n)| && e.0 == |C.Sequential(g.k, ops, n)| + C.HeaderPart(ops[n]);
    SplitOps(g.k, ops, n);
    Following(g, c, st, ops, n, wrote');
  }

  /** So it is for the entries that the goroutines of a writer pass to the index. */
  lemma EntryReads(g: P.Config, c: Settings, st: State, calls: seq<P.Call>, e: (nat, nat))
    requires P.GoodConfig(g) && Compatible(g, c) && Readable(calls) && |P.CallsInput(calls)| < 0x8000_0000_0000_0000
    requires C.Truthful(g.k, W.ClosedOps(g, calls), e) && Positioned(g, c, st, e.1)
    ensures e.0 <= |W.StreamOf(g, calls)| && e.1 <= |P.CallsInput(calls)|
    ensures All(c, st, W.StreamOf(g, calls)[e.0..]) == Run(P.CallsInput(calls)[e.1..], Eof)
  {
    hide *;
    ClosedWellFormed(g, calls);
    ClosedReadable(g, calls);
    W.ClosedInput(g, calls);
    TrueEntryReads(g, c, st, W.ClosedOps(g, calls), WritesHeader(g, calls), e);
    StreamIs(g, calls);
  }

  lemma StreamIs(g: P.Config, calls: seq<P.Call>)
    requires P.GoodConfig(g)
    ensures W.StreamOf(g, calls) == P.OpsBytes(g.k, W.ClosedOps(g, calls)) + EofChunk(|P.CallsInput(calls)|)
  {
    hide W.ClosedOps; hide P.OpsBytes;
  }

  /** And for the entries of a writer without goroutines, once the EOF chunk of `Close` is behind its output. */
  lemma SyncEntryReads(w: W.Writer, c: Settings, st: State, i: nat)
    requires w.Valid() && w.concurrency == 1 && i < |w.index| && w.uncompWritten < 0x8000_0000_0000_0000
    requires Compatible(w.g, c) && Unstoppable(w.log) && Positioned(w.g, c, st, w.index[i].1)
    ensures var stream, e := w.writer + EofChunk(w.uncompWritten), w.index[i];
            e.0 <= |stream| && e.1 <= |P.OpsInput(w.log)| &&
            All(c, st, stream[e.0..]) == Run(P.OpsInput(w.log)[e.1..], Eof)
  {
    hide P.WellFormed; hide Compatible; hide Unstoppable; hide C.Truthful; hide C.Sequential; hide C.Input;
    hide C.Entries; hide P.OpsBytes; hide P.OpsInput; hide All; hide EofChunk; hide Positioned; hide P.GoodConfig;
    C.EntriesTrue(w.g.k, w.log, |w.log|, false, i);
    P.SequentialIsOps(w.g.k, w.log, |w.log|);
    assert w.log[..|w.log|] == w.log;
    TrueEntryReads(w.g, c, st, w.log, w.wroteStreamHeader, w.index[i]);
  }

  lemma DirectFits(g: P.Config, op: C.Op, w: bool)
    requires P.GoodConfig(g) && P.Fits(g, op, w) && op.Direct?
    ensures 0 < |op.u| <= g.blockSize
  {
  }

  // ---------- with the index ----------

  /** The index of a stream: entries that its writer passed to it, and the size of the data. */
  ghost predicate Describes(g: P.Config, calls: seq<P.Call>, offs: seq<Index.OffsetPair>, total: int)
    requires P.GoodConfig(g)
  {
    && total == |P.CallsInput(calls)| && Index.Increasing(offs)
    && forall i :: 0 <= i < |offs| ==> Entry(g, calls, offs[i])
  }

  ghost predicate Entry(g: P.Config, calls: seq<P.Call>, p: Index.OffsetPair)
    requires P.GoodConfig(g)
  {
    p.c >= 0 && p.u >= 0 && C.Truthful(g.k, W.ClosedOps(g, calls), (p.c, p.u))
  }

  /** However a writer's entries were added and thinned out, what remains describes the stream. */
  lemma IndexDescribes(g: P.Config, calls: seq<P.Call>, blockSize: nat, ops: seq<Index.Op>)
    requires P.GoodConfig(g) && blockSize > 0
    requires forall op :: op in ops && op.Add? ==> Entry(g, calls, Index.OffsetPair(op.c, op.u))
    ensures Describes(g, calls, Index.Run(Index.State([], Index.StartEstimate(blockSize)), ops).offs,
                      |P.CallsInput(calls)|)
  {
    hide C.Truthful; hide W.ClosedOps; hide Index.Run; hide P.CallsInput;
    var st := Index.State([], Index.StartEstimate(blockSize));
    Index.RunSound(st, ops);
    var offs := Index.Run(st, ops).offs;
    hide Index.Sound; hide Index.Increasing; hide Entry;
    Index.SoundIncreasing(Index.Run(st, ops));
    forall i | 0 <= i < |offs|
      ensures Entry(g, calls, offs[i])
    {
      assert offs[i] in offs;
      assert Index.Op.Add(offs[i].c, offs[i].u) in ops;
    }
  }

  /** The stream is read from its start by a reader in a positioned state, too. */
  lemma StartReads(g: P.Config, c: Settings, st: State, calls: seq<P.Call>)
    requires P.GoodConfig(g) && Compatible(g, c) && Readable(calls) && |P.CallsInput(calls)| < 0x8000_0000_0000_0000
    requires Positioned(g, c, st, 0)
    ensures All(c, st, W.StreamOf(g, calls)[0..]) == Run(P.CallsInput(calls)[0..], Eof)
  {
    var ops := W.ClosedOps(g, calls);
    assert C.Input(ops, 0) == [] && ops[0..] == ops && W.StreamOf(g, calls)[0..] == W.StreamOf(g, calls);
    hide *;
    ClosedWellFormed(g, calls);
    ClosedReadable(g, calls);
    W.ClosedInput(g, calls);
    StreamIs(g, calls);
    RestReads(g, c, st, ops, 0, WritesHeader(g, calls));
    assert P.CallsInput(calls)[0..] == P.CallsInput(calls);
  }

  /** From what the index says on, a reader in a positioned state reads the rest. */
  lemma FoundReads(g: P.Config, c: Settings, st: State, calls: seq<P.Call>, at: nat, u: nat)
    requires P.GoodConfig(g) && Compatible(g, c) && Readable(calls) && |P.CallsInput(calls)| < 0x8000_0000_0000_0000
    requires Positioned(g, c, st, u) && (at == u == 0 || C.Truthful(g.k, W.ClosedOps(g, calls), (at, u)))
    ensures at <= |W.StreamOf(g, calls)| && u <= |P.CallsInput(calls)|
    ensures All(c, st, W.StreamOf(g, calls)[at..]) == Run(P.CallsInput(calls)[u..], Eof)
  {
    hide *;
    if at == u == 0 { StartReads(g, c, st, calls); } else { EntryReads(g, c, st, calls, (at, u)); }
  }

  lemma NewReaderPositioned(g: P.Config, c: Settings)
    requires Compatible(g, c) && c.ignoreStreamID
    ensures Initial(c).readHeader && g.blockSize <= Initial(c).maxBlock <= MAX_BLOCK_SIZE
  {
    Indicator(g.blockSize);
  }

  /** The writer's checksums are right, whether the reader looks at them or not. */
  lemma ChecksumsRight(c: Settings, st: State, input: seq<Byte>, n: nat, g: P.Config, calls: seq<P.Call>, at: nat,
                       u: nat)
    requires P.GoodConfig(g) && Compatible(g, c) && Readable(calls) && |P.CallsInput(calls)| < 0x8000_0000_0000_0000
    requires Positioned(g, c, st, u) && at <= |W.StreamOf(g, calls)| && input == W.StreamOf(g, calls)[at..]
    requires (at == u == 0) || C.Truthful(g.k, W.ClosedOps(g, calls), (at, u))
    ensures StoredSound(c, st, input, n)
  {
    var d := c.(ignoreCRC := false);
    assert Compatible(g, d) && Positioned(g, d, st, u);
    hide *;
    FoundReads(g, d, st, calls, at, u);
    RightSound(c, st, input, n);
  }

  /**
   `Seek` behind its header and outside its buffer: `Find` and `Skip`. A reader that continues where the
   index says, and moves on by the rest of the way, has before it exactly the data from the wanted offset on.
   */
  method SeekTo(ghost g: P.Config, ghost calls: seq<P.Call>, r: R.Reader, stream: seq<Byte>, index: Index.SeekIndex,
                want: int)
    requires P.GoodConfig(g) && Compatible(g, r.c) && Readable(calls) && |P.CallsInput(calls)| < 0x8000_0000_0000_0000
    requires r.Valid() && r.err.None? && r.readHeader && g.blockSize <= r.maxBlock
    requires stream == W.StreamOf(g, calls) && Describes(g, calls, index.offsets, index.totalUncompressed)
    requires 0 <= want <= |P.CallsInput(calls)| && (index.offsets != [] ==> index.offsets[0].u <= want)
    modifies r
    ensures r.Valid() && r.Left() == Run(P.CallsInput(calls)[want..], Eof)
  {
    hide All; hide Readable; hide P.CallsInput; hide W.StreamOf; hide C.Truthful; hide P.GoodConfig; hide StoredSound;
    ghost var input := P.CallsInput(calls);
    var found := index.Find(want);
    var at, u := found.c, found.u;
    assert u <= want && (at == u == 0 || Entry(g, calls, Index.OffsetPair(at, u)));
    ghost var st := r.At().(pos := u);
    assert Positioned(g, r.c, st, u);
    hide Index.Increasing; hide Positioned; hide Compatible; hide Describes;
    FoundReads(g, r.c, st, calls, at, u);
    r.Reposition(stream[at..], u);
    assert r.decoded[r.i..r.j] == [];
    ChecksumsRight(r.c, st, stream[at..], want - u, g, calls, at, u);
    var _ := r.Skip(want - u);
    assert input[u..][want - u..] == input[want..];
  }

  /** So has a new reader that does without the identifier. */
  method OpenAt(ghost g: P.Config, ghost calls: seq<P.Call>, c: Settings, stream: seq<Byte>, index: Index.SeekIndex,
                want: int)
    returns (r: R.Reader)
    requires P.GoodConfig(g) && Compatible(g, c) && Readable(calls) && |P.CallsInput(calls)| < 0x8000_0000_0000_0000
    requires c.ignoreStreamID
    requires stream == W.StreamOf(g, calls) && Describes(g, calls, index.offsets, index.totalUncompressed)
    requires 0 <= want <= |P.CallsInput(calls)| && (index.offsets != [] ==> index.offsets[0].u <= want)
    ensures fresh(r) && r.Valid() && r.Left() == Run(P.CallsInput(calls)[want..], Eof)
  {
    hide All; hide Readable; hide P.CallsInput; hide W.StreamOf; hide P.GoodConfig; hide Describes;
    NewReaderPositioned(g, c);
    r := new R.Reader(c, stream);
    SeekTo(g, calls, r, stream, index, want);
  }
}
