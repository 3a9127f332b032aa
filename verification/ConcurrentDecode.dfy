/**
 `DecodeConcurrent` (reader.go) on a stream: the blocks that its reading goroutine finds, and what comes
 of them compared with `Read`.
 */
module ConcurrentDecode {
  import opened Bytes
  import opened Varint
  import opened Stream
  import opened ChunkReader
  import opened ConcurrentReader
  import Format

  /** What the reading goroutine makes of a chunk; a block may still turn out to be bad. */
  datatype Found = Broken(e: Error) | Fine(st: ChunkReader.State, job: Option<Job>)

  function FoundPacked(c: Settings, st: ChunkReader.State, ownCrc: bool, data: seq<Byte>): (r: Found)
    requires |data| >= 4
  {
    match GetUvarint(data, 4, 0)
    case None => Broken(Corrupt)
    case Some(t) =>
      if t.0 > 0xffff_ffff then Broken(Corrupt)
      else if t.0 > st.maxBlock then Broken(TooLarge)
      else if t.0 == 0 || t.0 < |data| - t.1 then Broken(Corrupt)
      else Fine(st.(pos := st.pos + t.0),
                Some(Packed(data, t.1, t.0, Load32(data, 0), ownCrc, MaxBufSize(st.maxBlock))))
  }

  function FoundStored(c: Settings, st: ChunkReader.State, data: seq<Byte>): (r: Found)
    requires |data| >= 4
  {
    if !c.ignoreCRC && c.crc(data[4..]) != Load32(data, 0) then Broken(BadCrc)
    else Fine(st.(pos := st.pos + |data| - 4), Some(Stored(data[4..])))
  }

  function FoundIn(c: Settings, st: ChunkReader.State, kind: Byte, data: seq<Byte>): (r: Found)
    requires Early(st, kind, |data|, |data|).None?
  {
    if kind == CHUNK_COMPRESSED || kind == CHUNK_COMPRESSED_COMP_CRC
    then FoundPacked(c, st, kind == CHUNK_COMPRESSED_COMP_CRC, data)
    else if kind == CHUNK_UNCOMPRESSED then FoundStored(c, st, data)
    else
      match Handled(c, st, kind, data)
      case Bad(e) => Broken(e)
      case Good(st', _) => Fine(st', None)
  }

  datatype Round = Over(e: Error) | Going(st: ChunkReader.State, job: Option<Job>, rest: seq<Byte>)

  /** One round of the reading goroutine's loop. */
  function ReadRound(c: Settings, st: ChunkReader.State, input: seq<Byte>): (r: Round)
    ensures r.Going? ==> |r.rest| < |input|
  {
    if |input| == 0 then Over(if st.wantEOF then Corrupt else Eof)
    else if |input| < 4 then Over(Corrupt)
    else
      var kind, len, avail := input[0], Load24(input, 1), |input| - 4;
      match Early(st, kind, len, avail)
      case Some(e) => Over(e)
      case None =>
        if avail < len then Over(Corrupt)
        else
          match FoundIn(c, st, kind, input[4..4 + len])
          case Broken(e) => Over(e)
          case Fine(st', job) => Going(st', job, input[4 + len..])
  }

  /** All blocks, and how the reading ends. */
  datatype Plan = Plan(jobs: seq<Job>, end: Error)

  function Jobs(c: Settings, st: ChunkReader.State, input: seq<Byte>): (r: Plan)
    decreases |input|
  {
    match ReadRound(c, st, input)
    case Over(e) => Plan([], e)
    case Going(st', job, rest) =>
      var more := Jobs(c, st', rest);
      if job.None? then more else Plan([job.value] + more.jobs, more.end)
  }

  /** One chunk for the reading goroutine and for `Read`. */
  ghost predicate SameFound(c: Settings, f: Found, e: Effect) {
    match f
    case Broken(x) => e == Bad(x)
    case Fine(st', None) => e == Good(st', [])
    case Fine(st', Some(job)) =>
      match Honest(c, job)
      case Some(out) => e == Good(st', out)
      case None => e in {Bad(Corrupt), Bad(BadCrc)}
  }

  lemma PackedAgrees(c: Settings, st: ChunkReader.State, ownCrc: bool, data: seq<Byte>)
    requires |data| >= 4
    ensures SameFound(c, FoundPacked(c, st, ownCrc, data), Compressed(c, st, ownCrc, data))
  {
    hide GetUvarint; hide Load32; hide Format.Run;
    match GetUvarint(data, 4, 0) {
      case None =>
      case Some(t) =>
        var job := Packed(data, t.1, t.0, Load32(data, 0), ownCrc, MaxBufSize(st.maxBlock));
        assert Body(job, data) == data[t.1..];
    }
  }

  lemma FoundAgrees(c: Settings, st: ChunkReader.State, kind: Byte, data: seq<Byte>)
    requires Early(st, kind, |data|, |data|).None?
    ensures SameFound(c, FoundIn(c, st, kind, data), Handled(c, st, kind, data))
  {
    hide Load32; hide FoundPacked; hide Compressed; hide GetUvarint; hide Pow2;
    if kind == CHUNK_COMPRESSED || kind == CHUNK_COMPRESSED_COMP_CRC {
      PackedAgrees(c, st, kind == CHUNK_COMPRESSED_COMP_CRC, data);
    }
  }

  lemma RoundAgrees(c: Settings, st: ChunkReader.State, input: seq<Byte>)
    ensures match ReadRound(c, st, input)
            case Over(e) => Step(c, st, input) == Failed(e)
            case Going(st', job, rest) =>
              if job.None? then Step(c, st, input) == More(st', [], rest)
              else if Honest(c, job.value).Some? then Step(c, st, input) == More(st', Honest(c, job.value).value, rest)
              else Step(c, st, input) in {Failed(Corrupt), Failed(BadCrc)}
  {
    hide Load24; hide FoundIn; hide Handled; hide Honest;
    if |input| >= 4 {
      var kind, len := input[0], Load24(input, 1);
      if len <= |input| - 4 && Early(st, kind, len, |input| - 4).None? {
        FoundAgrees(c, st, kind, input[4..4 + len]);
      }
    }
  }

  /** What should come of the blocks. */
  function Right(c: Settings, jobs: seq<Job>): (r: seq<Option<seq<Byte>>>)
    ensures |r| == |jobs|
  {
    if jobs == [] then [] else [Honest(c, jobs[0])] + Right(c, jobs[1..])
  }

  /** The blocks in front of the first one that is bad. */
  function Sound(outs: seq<Option<seq<Byte>>>): (r: nat)
    ensures r <= |outs| && (r < |outs| ==> outs[r].None?) && forall i :: 0 <= i < r ==> outs[i].Some?
  {
    if outs == [] || outs[0].None? then 0 else 1 + Sound(outs[1..])
  }

  lemma {:induction false} OutputPrepend(out: Option<seq<Byte>>, outs: seq<Option<seq<Byte>>>, n: nat)
    requires n <= |outs| && out.Some?
    ensures Output([out] + outs, n + 1) == out.value + Output(outs, n)
  {
    if n > 0 {
      OutputPrepend(out, outs, n - 1);
      assert ([out] + outs)[n] == outs[n - 1];
    } else {
      assert Output([out] + outs, 0) == [];
    }
  }

  lemma SoundPrepend(out: Option<seq<Byte>>, outs: seq<Option<seq<Byte>>>)
    ensures out.None? ==> Sound([out] + outs) == 0
    ensures out.Some? ==> Sound([out] + outs) == 1 + Sound(outs)
    ensures out.Some? ==> Output([out] + outs, 1 + Sound(outs)) == out.value + Output(outs, Sound(outs))
  {
    assert ([out] + outs)[1..] == outs;
    if out.Some? { OutputPrepend(out, outs, Sound(outs)); }
  }

  /** `Read` gives the data of the blocks up to the first bad one. */
  lemma {:induction false} ReadsJobs(c: Settings, st: ChunkReader.State, input: seq<Byte>)
    ensures var p, r := Jobs(c, st, input), All(c, st, input);
            var outs := Right(c, p.jobs);
            && r.data == Output(outs, Sound(outs))
            && (if Sound(outs) == |outs| then r.end == p.end else r.end in {Corrupt, BadCrc})
    decreases |input|
  {
    hide Step; hide ReadRound; hide Output; hide Honest;
    RoundAgrees(c, st, input);
    NoOutput(Right(c, Jobs(c, st, input).jobs));
    match ReadRound(c, st, input) {
      case Over(e) =>
      case Going(st', job, rest) =>
        ReadsJobs(c, st', rest);
        var more := Jobs(c, st', rest).jobs;
        if job.Some? {
          assert ([job.value] + more)[1..] == more;
          SoundPrepend(Honest(c, job.value), Right(c, more));
        }
    }
  }

  lemma NoOutput(outs: seq<Option<seq<Byte>>>)
    ensures Output(outs, 0) == []
  {
  }

  // ---------- agreement ----------

  function Blocks(c: Settings, input: seq<Byte>): (r: Task) { Task(c, Jobs(c, Initial(c), input).jobs) }

  /** No block whose worker compares a checksum of its compressed data. */
  predicate NoOwnChecksums(c: Settings, input: seq<Byte>) {
    forall i :: 0 <= i < |Blocks(c, input).jobs| ==> !ChecksOwn(c, Blocks(c, input).jobs[i])
  }

  /** All goroutines are done after `run`. */
  predicate Complete(c: Settings, input: seq<Byte>, n: nat, run: seq<Action>)
    requires n >= 2
  {
    var s := Exec(Blocks(c, input), n, Start(n), run);
    s.Some? && Finished(s.value)
  }

  /** `DecodeConcurrent` succeeds if and only if `Read` comes to a clean end, and has then written the same. */
  predicate Agrees(c: Settings, input: seq<Byte>, n: nat, run: seq<Action>)
    requires n >= 2 && Complete(c, input, n, run)
  {
    var s, r := Exec(Blocks(c, input), n, Start(n), run).value, All(c, Initial(c), input);
    var ok := !s.err && Jobs(c, Initial(c), input).end == Eof;
    (ok <==> r.end == Eof) && (ok ==> s.out == r.data)
  }

  lemma {:induction false} RightAt(c: Settings, jobs: seq<Job>, i: nat)
    requires i < |jobs|
    ensures Right(c, jobs)[i] == Honest(c, jobs[i])
  {
    hide Honest;
    if i > 0 { RightAt(c, jobs[1..], i - 1); }
  }

  /** Without such checksums there is only one outcome. */
  lemma OneOutcome(prog: Task, outs: seq<Option<seq<Byte>>>)
    requires Possible(prog, outs) && forall i :: 0 <= i < |prog.jobs| ==> !ChecksOwn(prog.c, prog.jobs[i])
    ensures outs == Right(prog.c, prog.jobs)
  {
    hide Honest; hide Raw;
    forall i | 0 <= i < |outs|
      ensures outs[i] == Right(prog.c, prog.jobs)[i]
    {
      assert PossibleOut(prog.c, prog.jobs[i], outs[i]);
      RightAt(prog.c, prog.jobs, i);
    }
  }

  /**
   `DecodeConcurrent` with `n` goroutines does what `Read` does, whatever the interleaving, if no checksum
   of compressed data is compared.
   */
  lemma DecodesLikeRead(c: Settings, input: seq<Byte>, n: nat, run: seq<Action>)
    requires n >= 2 && Complete(c, input, n, run) && NoOwnChecksums(c, input)
    ensures Agrees(c, input, n, run)
  {
    hide Exec; hide Jobs; hide All; hide Output; hide Finished; hide Possible; hide ChecksOwn;
    var prog := Blocks(c, input);
    var done, outs := OutputInOrder(prog, n, run);
    OneOutcome(prog, outs);
    ReadsJobs(c, Initial(c), input);
  }
}
