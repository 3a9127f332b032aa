/**
 reader.go: what a `Reader` makes of its input, chunk by chunk, without the Snappy and S2 fallback and
 without callbacks for user chunks.
 */
module ChunkReader {
  import opened Bytes
  import Format
  import opened Encoding
  import opened Varint
  import opened Stream

  /** `Eof` is the clean end of the input. */
  datatype Error = Eof | Corrupt | TooLarge | Unsupported | BadCrc | UserChunk | UnexpectedEof

  /** Reader options, and the checksum. */
  datatype Settings = Settings(crc: seq<Byte> -> nat, maxBlockOrg: nat, ignoreStreamID: bool, ignoreCRC: bool)

  /** The values `ReaderMaxBlockSize` accepts, and the default. */
  ghost predicate GoodSettings(c: Settings) {
    && 0x1000 < c.maxBlockOrg <= MAX_BLOCK_SIZE
    && forall u: seq<Byte> :: c.crc(u) < 0x1_0000_0000
  }

  /** Between chunks: the uncompressed position, the block size limit, and what is expected next. */
  datatype State = State(pos: nat, maxBlock: nat, readHeader: bool, wantEOF: bool)

  function Initial(c: Settings): (r: State) {
    State(0, c.maxBlockOrg, c.ignoreStreamID, false)
  }

  /** What one chunk does: the block it decodes to, if any. */
  datatype Effect = Bad(e: Error) | Good(st: State, out: seq<Byte>)

  function CheckSum(c: Settings, sum: nat, data: seq<Byte>, out: seq<Byte>, st: State): (r: Effect) {
    if !c.ignoreCRC && c.crc(data) != sum then Bad(BadCrc) else Good(st.(pos := st.pos + |out|), out)
  }

  function Compressed(c: Settings, st: State, ownCrc: bool, data: seq<Byte>): (r: Effect)
    requires |data| >= 4
  {
    match GetUvarint(data, 4, 0)
    case None => Bad(Corrupt)
    case Some(t) =>
      var body := data[t.1..];
      if t.0 > 0xffff_ffff then Bad(Corrupt)
      else if t.0 > st.maxBlock then Bad(TooLarge)
      else if t.0 == 0 || t.0 < |body| then Bad(Corrupt)
      else
        match Format.DecodeBody(body, t.0)
        case None => Bad(Corrupt)
        case Some(out) => CheckSum(c, Load32(data, 0), if ownCrc then body else out, out, st)
  }

  function Ended(c: Settings, st: State, data: seq<Byte>): (r: Effect) {
    var done := Good(st.(wantEOF := false, readHeader := false), []);
    if |data| == 0 || c.ignoreStreamID then done
    else
      match GetUvarint(data, 0, 0)
      case None => Bad(Corrupt)
      case Some(t) => if t.1 != |data| || t.0 != st.pos then Bad(Corrupt) else done
  }

  function Identified(c: Settings, st: State, data: seq<Byte>): (r: Effect)
    requires |data| == 6
  {
    if data[..5] != MAGIC_BODY then Bad(Unsupported)
    else if data[5] / 64 != 0 || data[5] % 16 + 10 > 23 then Bad(Corrupt)
    else if Pow2(data[5] % 16 + 10) > c.maxBlockOrg then Bad(TooLarge)
    else Good(State(0, Pow2(data[5] % 16 + 10), st.readHeader, true), [])
  }

  /** The longest chunk that is read into a buffer. */
  function MaxBufSize(maxBlock: nat): (r: nat) { maxBlock + 6 }

  /** Errors found before the data of a chunk is there; `avail` bytes follow the chunk header. */
  function Early(st: State, kind: Byte, len: nat, avail: nat): (r: Option<Error>) {
    if !st.readHeader && kind != CHUNK_STREAM_ID && kind <= MAX_NON_SKIPPABLE && kind != CHUNK_EOF then Some(Corrupt)
    else if kind == CHUNK_COMPRESSED || kind == CHUNK_COMPRESSED_COMP_CRC then
      if len < 4 || len > MaxBufSize(st.maxBlock) then Some(Corrupt) else None
    else if kind == CHUNK_UNCOMPRESSED then
      if len < 4 || len > MaxBufSize(st.maxBlock) || avail < 4 then Some(Corrupt)
      else if len - 4 > st.maxBlock then Some(TooLarge)
      else None
    else if kind == CHUNK_EOF then if len > 10 then Some(Corrupt) else None
    else if kind == CHUNK_STREAM_ID then if len != 6 then Some(Corrupt) else None
    else if kind <= MAX_NON_SKIPPABLE then Some(Unsupported)
    else if 0xc0 <= kind <= 0xfd then Some(UserChunk)
    else None
  }

  function Handled(c: Settings, st: State, kind: Byte, data: seq<Byte>): (r: Effect)
    requires Early(st, kind, |data|, |data|).None?
  {
    if kind == CHUNK_COMPRESSED || kind == CHUNK_COMPRESSED_COMP_CRC then
      Compressed(c, st, kind == CHUNK_COMPRESSED_COMP_CRC, data)
    else if kind == CHUNK_UNCOMPRESSED then CheckSum(c, Load32(data, 0), data[4..], data[4..], st)
    else if kind == CHUNK_EOF then Ended(c, st, data)
    else if kind == CHUNK_STREAM_ID then Identified(c, st.(readHeader := true), data)
    else Good(st, [])
  }

  datatype Next = Failed(e: Error) | More(st: State, out: seq<Byte>, rest: seq<Byte>)

  /** One round of the loop in `Read`. */
  function Step(c: Settings, st: State, input: seq<Byte>): (r: Next)
    ensures r.More? ==> |r.rest| < |input|
  {
    if |input| == 0 then Failed(if st.wantEOF then Corrupt else Eof)
    else if |input| < 4 then Failed(Corrupt)
    else
      var kind, len, avail := input[0], Load24(input, 1), |input| - 4;
      match Early(st, kind, len, avail)
      case Some(e) => Failed(e)
      case None =>
        if avail < len then Failed(Corrupt)
        else
          match Handled(c, st, kind, input[4..4 + len])
          case Bad(e) => Failed(e)
          case Good(st', out) => More(st', out, input[4 + len..])
  }

  /** All that comes out before the end or the error. */
  datatype Run = Run(data: seq<Byte>, end: Error)

  function All(c: Settings, st: State, input: seq<Byte>): (r: Run)
    decreases |input|
  {
    match Step(c, st, input)
    case Failed(e) => Run([], e)
    case More(st', out, rest) => var r := All(c, st', rest); Run(out + r.data, r.end)
  }

  // ---------- chunk by chunk ----------

  /** What follows a chunk does not change what the chunk does. */
  lemma StepAppend(c: Settings, st: State, a: seq<Byte>, t: seq<Byte>)
    requires Step(c, st, a).More?
    ensures var n := Step(c, st, a); Step(c, st, a + t) == More(n.st, n.out, n.rest + t)
  {
    hide Handled;
    var len := Load24(a, 1);
    assert Load24(a + t, 1) == len;
    assert (a + t)[4..4 + len] == a[4..4 + len];
    assert (a + t)[4 + len..] == a[4 + len..] + t;
  }

  /** An incomplete chunk is an error, and so is its absence when an EOF chunk is due. */
  lemma StepCut(c: Settings, st: State, a: seq<Byte>, n: nat)
    requires Step(c, st, a).More? && n < |a| - |Step(c, st, a).rest|
    ensures Step(c, st, a[..n]).Failed?
    ensures Step(c, st, a[..n]).e == Eof <==> n == 0 && !st.wantEOF
  {
    hide Handled;
    if n >= 4 { assert Load24(a[..n], 1) == Load24(a, 1); }
  }

  lemma AllOnce(c: Settings, st: State, input: seq<Byte>)
    ensures match Step(c, st, input)
            case Failed(e) => All(c, st, input) == Run([], e)
            case More(st', out, rest) =>
              All(c, st, input) == Run(out + All(c, st', rest).data, All(c, st', rest).end) && |rest| < |input|
  {
    hide Step;
  }

  /** A whole chunk in front of anything. */
  lemma AllStep(c: Settings, st: State, b: seq<Byte>, st': State, out: seq<Byte>, t: seq<Byte>)
    requires Step(c, st, b) == More(st', out, [])
    ensures All(c, st, b + t) == Run(out + All(c, st', t).data, All(c, st', t).end)
  {
    hide Step;
    StepAppend(c, st, b, t);
    assert [] + t == t;
  }

  /** The data decoded so far is never taken back: with more input, more comes out. */
  lemma {:induction false} AllAppend(c: Settings, st: State, a: seq<Byte>, t: seq<Byte>)
    ensures All(c, st, a).data <= All(c, st, a + t).data
    decreases |a|
  {
    hide Step;
    match Step(c, st, a) {
      case Failed(_) =>
      case More(st', out, rest) =>
        StepAppend(c, st, a, t);
        AllAppend(c, st', rest, t);
    }
  }

  /** `n` is where a chunk ends, and no EOF chunk is due there. */
  predicate ClosedAt(c: Settings, st: State, input: seq<Byte>, n: nat)
    decreases |input|
  {
    if n == 0 then !st.wantEOF
    else
      match Step(c, st, input)
      case Failed(_) => false
      case More(st', _, rest) => |input| - |rest| <= n && ClosedAt(c, st', rest, n - (|input| - |rest|))
  }

  /** Which truncations of an acceptable input go unnoticed. */
  lemma {:induction false} Truncated(c: Settings, st: State, input: seq<Byte>, n: nat)
    requires All(c, st, input).end == Eof && n <= |input|
    ensures All(c, st, input[..n]).end == Eof <==> ClosedAt(c, st, input, n)
    decreases |input|
  {
    hide Step;
    match Step(c, st, input) {
      case Failed(e) => StepEof(c, st, input);
      case More(st', out, rest) =>
        var m := |input| - |rest|;
        if n < m {
          StepCut(c, st, input, n);
        } else {
          StepParts(c, st, input);
          StepAppend(c, st, input[..m], rest[..n - m]);
          assert input[..n] == input[..m] + rest[..n - m];
          assert [] + rest[..n - m] == rest[..n - m];
          Truncated(c, st', rest, n - m);
        }
    }
  }

  lemma StepEof(c: Settings, st: State, input: seq<Byte>)
    ensures Step(c, st, input) == Failed(Eof) <==> input == [] && !st.wantEOF
  {
  }

  lemma StepParts(c: Settings, st: State, a: seq<Byte>)
    requires Step(c, st, a).More?
    ensures var n := Step(c, st, a);
            var m := |a| - |n.rest|;
            n.rest == a[m..] && Step(c, st, a[..m]) == More(n.st, n.out, [])
  {
    hide Handled;
    var len := Load24(a, 1);
    var m := 4 + len;
    assert Load24(a[..m], 1) == len;
    assert a[..m][4..m] == a[4..m];
    assert a[..m][m..] == [];
  }
}
