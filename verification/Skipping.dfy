/**
 `Skip` (reader.go), chunk by chunk. It passes over compressed blocks without decoding them, verifies the
 checksums of stored blocks that it leaves behind, whatever the reader's options, and not that of a stored
 block in which it stops.
 */
module Skipping {
  import opened Bytes
  import Format
  import opened Encoding
  import opened Varint
  import opened Stream
  import opened ChunkReader

  /** What a chunk does in `Skip`: a block is in the buffer, or `n` bytes are left to skip behind it. */
  datatype SkipEffect = Refused(e: Error) | Buffered(st: State, out: seq<Byte>) | Passed(st: State, n: nat)

  function SkipPacked(c: Settings, st: State, ownCrc: bool, data: seq<Byte>, n: nat): (r: SkipEffect)
    requires |data| >= 4
  {
    match GetUvarint(data, 4, 0)
    case None => Refused(Corrupt)
    case Some(t) =>
      var body := data[t.1..];
      if t.0 > 0xffff_ffff then Refused(Corrupt)
      else if t.0 > st.maxBlock then Refused(TooLarge)
      else if t.0 == 0 || t.0 < |body| then Refused(Corrupt)
      else if t.0 <= n then Passed(st.(pos := st.pos + t.0), n - t.0)
      else
        match Format.DecodeBody(body, t.0)
        case None => Refused(TooLarge)
        case Some(out) =>
          match CheckSum(c, Load32(data, 0), if ownCrc then body else out, out, st)
          case Bad(e) => Refused(e)
          case Good(st', _) => Buffered(st', out)
  }

  function SkipStored(c: Settings, st: State, data: seq<Byte>, n: nat): (r: SkipEffect)
    requires |data| >= 4
  {
    if |data| - 4 < n && c.crc(data[4..]) != Load32(data, 0) then Refused(Corrupt)
    else Buffered(st.(pos := st.pos + |data| - 4), data[4..])
  }

  /** Errors found before the data of a chunk is there; `room` is the size of the buffer for decoded data. */
  function SkipEarly(st: State, room: nat, kind: Byte, len: nat, avail: nat): (r: Option<Error>) {
    if kind != CHUNK_UNCOMPRESSED then Early(st, kind, len, avail)
    else if !st.readHeader || len < 4 then Some(Corrupt)
    else if len > MaxBufSize(st.maxBlock) then Some(TooLarge)
    else if avail < 4 || (len - 4 > room && len - 4 > st.maxBlock) then Some(Corrupt)
    else None
  }

  function SkipHandled(c: Settings, st: State, kind: Byte, data: seq<Byte>, n: nat): (r: SkipEffect)
    requires if kind == CHUNK_UNCOMPRESSED then |data| >= 4 else Early(st, kind, |data|, |data|).None?
  {
    if kind == CHUNK_COMPRESSED || kind == CHUNK_COMPRESSED_COMP_CRC then
      SkipPacked(c, st, kind == CHUNK_COMPRESSED_COMP_CRC, data, n)
    else if kind == CHUNK_UNCOMPRESSED then SkipStored(c, st, data, n)
    else
      match Handled(c, st, kind, data)
      case Bad(e) => Refused(e)
      case Good(st', _) => Buffered(st', [])
  }

  datatype SkipNext = SkipFailed(e: Error) | Skipped(effect: SkipEffect, rest: seq<Byte>)

  /** One round of the loop in `Skip`. */
  function SkipStep(c: Settings, st: State, room: nat, input: seq<Byte>, n: nat): (r: SkipNext)
    ensures r.Skipped? ==> |r.rest| < |input| && !r.effect.Refused? && (r.effect.Passed? ==> r.effect.n < n)
  {
    if |input| == 0 then SkipFailed(if st.wantEOF then Corrupt else UnexpectedEof)
    else if |input| < 4 then SkipFailed(Corrupt)
    else
      var kind, len, avail := input[0], Load24(input, 1), |input| - 4;
      match SkipEarly(st, room, kind, len, avail)
      case Some(e) => SkipFailed(e)
      case None =>
        if avail < len then SkipFailed(Corrupt)
        else
          match SkipHandled(c, st, kind, input[4..4 + len], n)
          case Refused(e) => SkipFailed(e)
          case effect => Skipped(effect, input[4 + len..])
  }

  /** Where `Skip` ends: with an error, or in front of `out`, the rest of a block in the buffer. */
  datatype Landing = Stuck(e: Error) | Landed(st: State, out: seq<Byte>, rest: seq<Byte>)

  function Larger(room: nat, out: seq<Byte>): (r: nat) { if room < |out| then |out| else room }

  /** `Skip` of `n` more bytes, with the buffer used up. */
  function SkipTo(c: Settings, st: State, room: nat, input: seq<Byte>, n: nat): (r: Landing)
    requires n > 0
    decreases |input|
  {
    match SkipStep(c, st, room, input, n)
    case SkipFailed(e) => Stuck(e)
    case Skipped(Passed(st', n'), rest) => if n' == 0 then Landed(st', [], rest) else SkipTo(c, st', room, rest, n')
    case Skipped(Buffered(st', out), rest) =>
      if n <= |out| then Landed(st', out[n..], rest) else SkipTo(c, st', Larger(room, out), rest, n - |out|)
  }

  lemma SkipToOnce(c: Settings, st: State, room: nat, input: seq<Byte>, n: nat)
    requires n > 0
    ensures match SkipStep(c, st, room, input, n)
            case SkipFailed(e) => SkipTo(c, st, room, input, n) == Stuck(e)
            case Skipped(Passed(st', n'), rest) =>
              |rest| < |input|
              && SkipTo(c, st, room, input, n) == if n' == 0 then Landed(st', [], rest)
                 else SkipTo(c, st', room, rest, n')
            case Skipped(Buffered(st', out), rest) =>
              |rest| < |input|
              && SkipTo(c, st, room, input, n) ==
                 if n <= |out| then Landed(st', out[n..], rest) else SkipTo(c, st', Larger(room, out), rest, n - |out|)
  {
    hide SkipStep;
  }

  // ---------- Skip and Read ----------

  /** The checksum of the first chunk, if that is a stored block. */
  predicate StoredRight(c: Settings, input: seq<Byte>, out: seq<Byte>)
    requires |input| >= 8
  {
    input[0] == CHUNK_UNCOMPRESSED ==> c.crc(out) == Load32(input, 4)
  }

  /** Every stored block that is wholly in front of the `n`-th byte from here has a right checksum. */
  predicate StoredSound(c: Settings, st: State, input: seq<Byte>, n: nat)
    decreases |input|
  {
    match Step(c, st, input)
    case Failed(_) => true
    case More(st', out, rest) =>
      |out| >= n || ((|input| >= 8 ==> StoredRight(c, input, out)) && StoredSound(c, st', rest, n - |out|))
  }

  /**
   A block that `Read` accepts is passed over, or in the buffer, unless it is stored and its checksum is
   compared and wrong.
   */
  lemma SkipsChunk(c: Settings, st: State, room: nat, input: seq<Byte>, n: nat)
    requires Step(c, st, input).More? && n > 0
    ensures var r, s := Step(c, st, input), SkipStep(c, st, room, input, n);
            if |r.out| >= n || |input| < 8 || StoredRight(c, input, r.out) then
              s == Skipped(Buffered(r.st, r.out), r.rest) ||
              (|r.out| <= n && r.out != [] && s == Skipped(Passed(r.st, n - |r.out|), r.rest))
            else s == SkipFailed(Corrupt)
  {
    hide GetUvarint; hide Load32; hide Load24; hide Format.DecodeBody; hide Ended; hide Identified;
    var kind, len := input[0], Load24(input, 1);
    ChunkSkips(c, st, kind, input[4..4 + len], n);
    if kind == CHUNK_UNCOMPRESSED { SumAt(input, len); }
    hide Handled; hide SkipHandled;
  }

  lemma SumAt(input: seq<Byte>, len: nat)
    requires 4 <= len <= |input| - 4
    ensures Load32(input[4..4 + len], 0) == Load32(input, 4)
  {
  }

  lemma ChunkSkips(c: Settings, st: State, kind: Byte, data: seq<Byte>, n: nat)
    requires Early(st, kind, |data|, |data|).None? && Handled(c, st, kind, data).Good?
    ensures var r, s := Handled(c, st, kind, data), SkipHandled(c, st, kind, data, n);
            if kind == CHUNK_UNCOMPRESSED && |r.out| < n && c.crc(r.out) != Load32(data, 0) then s == Refused(Corrupt)
            else s == Buffered(r.st, r.out) || (|r.out| <= n && r.out != [] && s == Passed(r.st, n - |r.out|))
  {
    hide GetUvarint; hide Load32; hide Format.Run; hide Pow2;
  }

  /** Where it must be, if the first `n` bytes of `all` are skipped. */
  ghost predicate AtByte(c: Settings, all: Run, n: nat, l: Landing) {
    l.Landed? && n <= |all.data| && Run(l.out + All(c, l.st, l.rest).data, All(c, l.st, l.rest).end) ==
        Run(all.data[n..], all.end)
  }

  lemma OneSkipped(c: Settings, st: State, out: seq<Byte>, rest: seq<Byte>, n: nat, l: Landing)
    requires n >= |out| && AtByte(c, All(c, st, rest), n - |out|, l)
    ensures AtByte(c, Run(out + All(c, st, rest).data, All(c, st, rest).end), n, l)
  {
    hide All;
    assert (out + All(c, st, rest).data)[n..] == All(c, st, rest).data[n - |out|..];
  }

  lemma StopsIn(c: Settings, st: State, out: seq<Byte>, rest: seq<Byte>, n: nat)
    requires n <= |out|
    ensures AtByte(c, Run(out + All(c, st, rest).data, All(c, st, rest).end), n, Landed(st, out[n..], rest))
  {
    hide All;
    assert (out + All(c, st, rest).data)[n..] == out[n..] + All(c, st, rest).data;
  }

  /**
   Of input with `n` bytes or more of data, `Skip` takes off exactly `n`, if and only if the stored blocks
   that it leaves behind have right checksums, and else reports that one has not.
   */
  lemma {:induction false} SkipIsDrop(c: Settings, st: State, room: nat, input: seq<Byte>, n: nat)
    requires 0 < n <= |All(c, st, input).data|
    ensures var l := SkipTo(c, st, room, input, n);
            if StoredSound(c, st, input, n) then AtByte(c, All(c, st, input), n, l) else l == Stuck(Corrupt)
    decreases |input|
  {
    hide Step; hide SkipStep; hide StoredRight; hide AtByte;
    AllOnce(c, st, input);
    match Step(c, st, input) {
      case Failed(e) =>
      case More(st', out, rest) =>
        SkipsChunk(c, st, room, input, n);
        if n <= |out| {
          StopsIn(c, st', out, rest, n);
          assert out[|out|..] == [];
        } else if |input| < 8 || StoredRight(c, input, out) {
          var step := SkipStep(c, st, room, input, n);
          var room' := if step.effect.Buffered? then Larger(room, out) else room;
          SkipIsDrop(c, st', room', rest, n - |out|);
          if StoredSound(c, st', rest, n - |out|) {
            OneSkipped(c, st', out, rest, n, SkipTo(c, st', room', rest, n - |out|));
          }
        }
    }
  }

  /** If there is a clean end before, that is the error, unless it comes to a stored block with a wrong checksum. */
  lemma {:induction false} SkipPastEnd(c: Settings, st: State, room: nat, input: seq<Byte>, n: nat)
    requires n > |All(c, st, input).data| && All(c, st, input).end == Eof
    ensures SkipTo(c, st, room, input, n) == Stuck(if StoredSound(c, st, input, n) then UnexpectedEof else Corrupt)
    decreases |input|
  {
    hide Step; hide SkipStep; hide StoredRight;
    AllOnce(c, st, input);
    match Step(c, st, input) {
      case Failed(e) => EndSkips(c, st, room, input, n);
      case More(st', out, rest) =>
        SkipsChunk(c, st, room, input, n);
        if |input| < 8 || StoredRight(c, input, out) {
          var step := SkipStep(c, st, room, input, n);
          SkipPastEnd(c, st', if step.effect.Buffered? then Larger(room, out) else room, rest, n - |out|);
        }
    }
  }

  lemma EndSkips(c: Settings, st: State, room: nat, input: seq<Byte>, n: nat)
    requires Step(c, st, input) == Failed(Eof)
    ensures SkipStep(c, st, room, input, n) == SkipFailed(UnexpectedEof)
  {
    StepEof(c, st, input);
  }

  /** A reader that checks checksums never gets stuck at one that it would not have refused to read. */
  lemma {:induction false} CheckedSound(c: Settings, st: State, input: seq<Byte>, n: nat)
    requires !c.ignoreCRC
    ensures StoredSound(c, st, input, n)
    decreases |input|
  {
    hide Step; hide StoredRight;
    match Step(c, st, input) {
      case Failed(_) =>
      case More(st', out, rest) =>
        if |input| >= 8 { CheckedRight(c, st, input); }
        if |out| < n { CheckedSound(c, st', rest, n - |out|); }
    }
  }

  lemma CheckedRight(c: Settings, st: State, input: seq<Byte>)
    requires !c.ignoreCRC && Step(c, st, input).More? && |input| >= 8
    ensures StoredRight(c, input, Step(c, st, input).out)
  {
    hide Compressed; hide Ended; hide Identified; hide Load32; hide Load24;
    if input[0] == CHUNK_UNCOMPRESSED { SumAt(input, Load24(input, 1)); }
  }

  /** Nor does a reader that ignores checksums, in a stream where they are right. */
  lemma {:induction false} RightSound(c: Settings, st: State, input: seq<Byte>, n: nat)
    requires All(c.(ignoreCRC := false), st, input).end == Eof
    ensures StoredSound(c, st, input, n)
    decreases |input|
  {
    hide Step; hide StoredRight;
    var d := c.(ignoreCRC := false);
    StepIgnoring(c, st, input);
    AllOnce(d, st, input);
    match Step(d, st, input) {
      case Failed(_) =>
      case More(st', out, rest) =>
        if |input| >= 8 {
          CheckedRight(d, st, input);
          SameRight(c, d, input, out);
        }
        if |out| < n { RightSound(c, st', rest, n - |out|); }
    }
  }

  lemma SameRight(c: Settings, d: Settings, input: seq<Byte>, out: seq<Byte>)
    requires d.crc == c.crc && |input| >= 8
    ensures StoredRight(c, input, out) == StoredRight(d, input, out)
  {
  }

  lemma StepIgnoring(c: Settings, st: State, input: seq<Byte>)
    ensures var d := c.(ignoreCRC := false);
            Step(d, st, input).More? || Step(d, st, input) == Failed(Eof) ==> Step(c, st, input) == Step(d, st, input)
  {
    hide GetUvarint; hide Load32; hide Load24; hide Format.DecodeBody; hide Pow2;
  }

  // ---------- what is not checked, and what is ----------

  function StoredChunk(sum: nat, u: seq<Byte>): (r: seq<Byte>)
    requires sum < 0x1_0000_0000
  {
    Chunk(CHUNK_UNCOMPRESSED, LE32(sum) + u)
  }

  predicate Fits(st: State, u: seq<Byte>) { st.readHeader && |u| <= st.maxBlock <= MAX_BLOCK_SIZE }

  lemma StoredParts(sum: nat, u: seq<Byte>, t: seq<Byte>)
    requires sum < 0x1_0000_0000 && |u| <= MAX_BLOCK_SIZE
    ensures var b := StoredChunk(sum, u) + t;
            && |b| >= 8 && b[0] == CHUNK_UNCOMPRESSED && Load24(b, 1) == |u| + 4 <= |b| - 4 && b[8 + |u|..] == t
            && Load32(b[4..8 + |u|], 0) == sum && b[4..8 + |u|][4..] == u
  {
    hide Load24; hide Load32; hide LE32; hide LE24;
    LoadLE32(sum, u);
    assert |LE32(sum)| == 4 && |LE24(|u| + 4)| == 3;
    LoadLE24([CHUNK_UNCOMPRESSED], |u| + 4, LE32(sum) + u + t);
    var b := StoredChunk(sum, u) + t;
    assert b == [CHUNK_UNCOMPRESSED] + LE24(|u| + 4) + (LE32(sum) + u + t);
    assert b[4..8 + |u|] == LE32(sum) + u;
  }

  /** In the hands of `Skip`, a stored block is refused exactly if it is left behind with a wrong checksum. */
  lemma StoredSkips(c: Settings, st: State, room: nat, sum: nat, u: seq<Byte>, t: seq<Byte>, n: nat)
    requires sum < 0x1_0000_0000 && Fits(st, u)
    ensures SkipStep(c, st, room, StoredChunk(sum, u) + t, n) ==
            if |u| < n && c.crc(u) != sum then SkipFailed(Corrupt)
            else Skipped(Buffered(st.(pos := st.pos + |u|), u), t)
  {
    hide Load24; hide Load32; hide StoredChunk;
    StoredParts(sum, u, t);
  }

  lemma StoredReads(c: Settings, st: State, sum: nat, u: seq<Byte>, t: seq<Byte>)
    requires sum < 0x1_0000_0000 && Fits(st, u)
    ensures Step(c, st, StoredChunk(sum, u) + t) ==
            if !c.ignoreCRC && c.crc(u) != sum then Failed(BadCrc) else More(st.(pos := st.pos + |u|), u, t)
  {
    hide Load24; hide Load32; hide StoredChunk;
    StoredParts(sum, u, t);
  }

  /**
   A reader that ignores checksums reads over a stored block with a wrong one, and cannot skip over it.
   */
  lemma SkipRefuses(c: Settings, st: State, room: nat, sum: nat, u: seq<Byte>, v: seq<Byte>)
    requires c.ignoreCRC && sum < 0x1_0000_0000 && c.crc(u) != sum && Fits(st, u) && Fits(st, v) && v != []
    ensures var input := StoredChunk(sum, u) + StoredChunk(sum, v);
            && u + v <= All(c, st, input).data && SkipTo(c, st, room, input, |u| + 1) == Stuck(Corrupt)
  {
    hide Step; hide SkipStep; hide StoredChunk;
    var t, st1 := StoredChunk(sum, v), st.(pos := st.pos + |u|);
    StoredReads(c, st, sum, u, t);
    StoredReads(c, st1, sum, v, []);
    assert t + [] == t;
    AllOnce(c, st, StoredChunk(sum, u) + t);
    AllOnce(c, st1, t);
    var end := All(c, st1.(pos := st1.pos + |v|), []).data;
    assert u + (v + end) == (u + v) + end;
    StoredSkips(c, st, room, sum, u, t, |u| + 1);
  }

  /**
   A reader that checks checksums skips into a stored block with a wrong one, and gives the rest of it;
   read from its start the block is refused.
   */
  lemma SkipAccepts(c: Settings, st: State, room: nat, sum: nat, u: seq<Byte>, t: seq<Byte>, n: nat)
    requires !c.ignoreCRC && sum < 0x1_0000_0000 && c.crc(u) != sum && Fits(st, u) && 0 < n <= |u|
    ensures var input := StoredChunk(sum, u) + t;
            && All(c, st, input) == Run([], BadCrc)
            && SkipTo(c, st, room, input, n) == Landed(st.(pos := st.pos + |u|), u[n..], t)
  {
    hide Step; hide SkipStep; hide StoredChunk;
    StoredReads(c, st, sum, u, t);
    AllOnce(c, st, StoredChunk(sum, u) + t);
    StoredSkips(c, st, room, sum, u, t, n);
  }

  // ---------- compressed blocks ----------

  function PackedChunk(kind: Byte, sum: nat, size: nat, body: seq<Byte>): (r: seq<Byte>) {
    Chunk(kind, LE32(sum) + (PutUvarint(size) + body))
  }

  /** What the headers of a compressed block must be like to be passed over. */
  predicate Passable(st: State, kind: Byte, sum: nat, size: nat, body: seq<Byte>) {
    && st.readHeader && (kind == 0x02 || kind == 0x03) && sum < 0x1_0000_0000
    && 1 <= size <= st.maxBlock <= MAX_BLOCK_SIZE && |body| <= size && |PutUvarint(size)| + |body| <= st.maxBlock + 2
  }

  lemma PackedParts(kind: Byte, sum: nat, size: nat, body: seq<Byte>, t: seq<Byte>)
    requires sum < 0x1_0000_0000 && size <= MAX_BLOCK_SIZE && |PutUvarint(size)| + |body| <= MAX_BLOCK_SIZE + 2
    ensures var b, data := PackedChunk(kind, sum, size, body) + t, LE32(sum) + (PutUvarint(size) + body);
            && |b| >= 8 && b[0] == kind && Load24(b, 1) == |data| <= |b| - 4
            && b[4..4 + |data|] == data && b[4 + |data|..] == t && |data| == 4 + |PutUvarint(size)| + |body|
            && GetUvarint(data, 4, 0) == Some((size, 4 + |PutUvarint(size)|)) && data[4 + |PutUvarint(size)|..] == body
            && Load32(data, 0) == sum
  {
    hide Load24; hide Load32; hide LE32; hide LE24; hide PutUvarint; hide GetUvarint;
    var data := LE32(sum) + (PutUvarint(size) + body);
    LoadLE32(sum, PutUvarint(size) + body);
    UvarintReads(LE32(sum), size, body);
    assert data == LE32(sum) + PutUvarint(size) + body;
    LoadLE24([kind], |data|, data + t);
    assert PackedChunk(kind, sum, size, body) + t == [kind] + LE24(|data|) + (data + t);
  }

  lemma PackedStep(c: Settings, st: State, room: nat, kind: Byte, sum: nat, size: nat, body: seq<Byte>,
                   t: seq<Byte>, n: nat)
    requires Passable(st, kind, sum, size, body) && size <= n
    ensures SkipStep(c, st, room, PackedChunk(kind, sum, size, body) + t, n) ==
            Skipped(Passed(st.(pos := st.pos + size), n - size), t)
  {
    hide Load24; hide Load32; hide PackedChunk; hide GetUvarint; hide PutUvarint; hide Format.DecodeBody; hide LE32;
    PackedParts(kind, sum, size, body, t);
  }

  /** A compressed block that lies wholly in front of the target is passed over, whatever its body and checksum. */
  lemma PackedPasses(c: Settings, st: State, room: nat, kind: Byte, sum: nat, size: nat, body: seq<Byte>,
                     t: seq<Byte>, n: nat)
    requires Passable(st, kind, sum, size, body) && size <= n
    ensures SkipTo(c, st, room, PackedChunk(kind, sum, size, body) + t, n) ==
            if size < n then SkipTo(c, st.(pos := st.pos + size), room, t, n - size)
            else Landed(st.(pos := st.pos + size), [], t)
  {
    assert size > 0;
    hide *;
    PackedStep(c, st, room, kind, sum, size, body, t, n);
    SkipToOnce(c, st, room, PackedChunk(kind, sum, size, body) + t, n);
  }
}
