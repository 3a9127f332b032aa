/**
 `DecodeConcurrent` (reader.go): the reading goroutine, a goroutine for every block and the writer that is
 handed from one of them to the next, as a state machine over all their interleavings.

 Worker 0 is the one that only seeds the writer; worker `i + 1` has block `i`. Source and output buffers
 are the slots of the channels `toRead` and `writtenBlocks`, entries the channels through which the writer
 is handed on. A worker gives its source buffer back before it compares checksums, so the memory behind
 source buffers is part of the state. Write errors are not.
 */
module ConcurrentReader {
  import opened Bytes
  import ChunkReader
  import Format

  /**
   A block as the reading goroutine finds it: stored data, or chunk data for a worker to decode, with the
   size of a new buffer for it.
   */
  datatype Job = Stored(data: seq<Byte>)
                 | Packed(chunk: seq<Byte>, from: nat, size: nat, sum: nat, ownCrc: bool, room: nat)

  datatype Task = Task(c: ChunkReader.Settings, jobs: seq<Job>)

  /** The compressed data of a block, in a buffer that its chunk was read into. */
  function Body(job: Job, b: seq<Byte>): (r: seq<Byte>)
    requires job.Packed?
  {
    if job.from <= |job.chunk| <= |b| then b[job.from..|job.chunk|] else []
  }

  /** What a block decodes to. */
  function Raw(job: Job): (r: Option<seq<Byte>>) {
    match job
    case Stored(data) => Some(data)
    case Packed(chunk, _, size, _, _, _) => Format.DecodeBody(Body(job, chunk), size)
  }

  /** The checksum is that of the compressed or of the decoded data. */
  predicate Refused(c: ChunkReader.Settings, job: Job, body: seq<Byte>, out: seq<Byte>)
    requires job.Packed?
  {
    !c.ignoreCRC && c.crc(if job.ownCrc then body else out) != job.sum
  }

  /** What should come of a block. */
  function Honest(c: ChunkReader.Settings, job: Job): (r: Option<seq<Byte>>) {
    match Raw(job)
    case None => None
    case Some(out) => if job.Packed? && Refused(c, job, Body(job, job.chunk), out) then None else Some(out)
  }

  /** A checksum of compressed data that is compared. */
  predicate ChecksOwn(c: ChunkReader.Settings, job: Job) { job.Packed? && job.ownCrc && !c.ignoreCRC }

  /** Outcomes of all blocks: of those with a checksum of the compressed data any, as far as that goes. */
  ghost predicate Possible(prog: Task, outs: seq<Option<seq<Byte>>>) {
    && |outs| == |prog.jobs|
    && forall j :: 0 <= j < |outs| ==> PossibleOut(prog.c, prog.jobs[j], outs[j])
  }

  ghost predicate PossibleOut(c: ChunkReader.Settings, job: Job, out: Option<seq<Byte>>) {
    out == Honest(c, job) || (ChecksOwn(c, job) && (out == None || out == Raw(job)))
  }

  function Outcomes(prog: Task): (r: seq<Option<seq<Byte>>>)
    ensures Possible(prog, r)
  {
    seq(|prog.jobs|, j requires 0 <= j < |prog.jobs| => Honest(prog.c, prog.jobs[j]))
  }

  /**
   What a worker is doing, and what it holds; `Checking` only remembers the memory of its source. From
   `Writing` on it has the writer.
   */
  datatype Phase = Decoding(src: nat, dst: nat, entry: nat) | Decoded(src: nat, dst: nat, entry: nat, ok: bool)
                 | Checking(mem: nat, dst: nat, entry: nat, ok: bool) | Failing(dst: nat, entry: nat)
                 | Erring(entry: nat)
                 | Waiting(buf: Option<nat>, entry: nat) | Writing(buf: Option<nat>, entry: nat)
                 | Wrote(buf: Option<nat>, entry: nat)
                 | Freeing(entry: nat) | Passing

  /** The reading goroutine, with the buffers it has for the next block. */
  datatype Main = Reading | Begun | HasSrc(src: nat) | HasDst(from: Option<nat>, dst: nat) | Stopped

  /** `at` says which memory a source buffer has. */
  datatype State = State(
    pc: nat, main: Main, toRead: seq<nat>, written: seq<nat>, reUse: seq<nat>, queue: seq<nat>, inbox: multiset<nat>,
    workers: map<nat, Phase>, memory: seq<seq<Byte>>, at: map<nat, nat>, heap: map<nat, seq<Byte>>, out: seq<Byte>,
    err: bool)

  function UpTo(n: nat): (r: seq<nat>)
    ensures |r| == n && forall i :: 0 <= i < n ==> r[i] == i
  {
    if n == 0 then [] else UpTo(n - 1) + [n - 1]
  }

  /** One entry has gone to the worker that seeds the writer, and the writer is in it. */
  function Start(n: nat): (r: State)
    requires n >= 2
  {
    State(0, Reading, UpTo(n + 1), UpTo(n + 1), UpTo(n)[1..], [], multiset{0}, map[0 := Waiting(None, 0)], [], map[],
          map[], [], false)
  }

  datatype Action = Begin | TakeSrc | TakeDst | Dispatch | Stop
                  | Decode(i: nat) | Return(i: nat) | Check(i: nat) | Fail(i: nat) | SetErr(i: nat)
                  | GetTurn(i: nat) | Write(i: nat) | GiveBack(i: nat) | FreeEntry(i: nat) | PassOn(i: nat)

  predicate OfMain(a: Action) { a.Begin? || a.TakeSrc? || a.TakeDst? || a.Dispatch? || a.Stop? }

  function Put(s: State, i: nat, p: Phase): (r: State) { s.(workers := s.workers[i := p]) }

  /** Reads a chunk into source buffer `x`, which gets new memory if it is too small. */
  function Fill(s: State, x: nat, chunk: seq<Byte>, room: nat): (r: State) {
    if x in s.at && s.at[x] < |s.memory| && |chunk| <= |s.memory[s.at[x]]| then
      var was := s.memory[s.at[x]];
      s.(memory := s.memory[s.at[x] := chunk + was[|chunk|..]])
    else s.(memory := s.memory + [chunk + seq(if room > |chunk| then room - |chunk| else 0, _ => 0)],
            at := s.at[x := |s.memory|])
  }

  function Region(memory: seq<seq<Byte>>, m: nat, job: Job): (r: seq<Byte>)
    requires job.Packed?
  {
    if m < |memory| then Body(job, memory[m]) else []
  }

  /** The reading goroutine. It looks for errors only before it reads a chunk. */
  function MainStep(prog: Task, n: nat, s: State, a: Action): (r: Option<State>)
  {
    match s.main
    case Stopped => None
    case Reading =>
      if a.Stop? && (s.err || s.pc == |prog.jobs|) then Some(s.(main := Stopped))
      else if a.Begin? && !s.err && s.pc < |prog.jobs| then Some(s.(main := Begun))
      else None
    case Begun =>
      if s.pc >= |prog.jobs| then None
      else
        var job := prog.jobs[s.pc];
        if a.TakeSrc? && job.Packed? && s.toRead != [] then
          Some(Fill(s, s.toRead[0], job.chunk, job.room).(main := HasSrc(s.toRead[0]), toRead := s.toRead[1..]))
        else if a.TakeDst? && job.Stored? && s.written != [] then
          Some(s.(main := HasDst(None, s.written[0]), written := s.written[1..],
                  heap := s.heap[s.written[0] := job.data]))
        else None
    case HasSrc(src) =>
      if a.TakeDst? && s.written != [] then Some(s.(main := HasDst(Some(src), s.written[0]), written := s.written[1..]))
      else None
    case HasDst(src, dst) =>
      if a.Dispatch? && s.reUse != [] && |s.queue| < n then
        var entry := s.reUse[0];
        Some(s.(main := Reading, pc := s.pc + 1, reUse := s.reUse[1..], queue := s.queue + [entry],
                workers := s.workers[s.pc + 1 := match src case Some(b) => Decoding(b, dst, entry)
                                     case None => Waiting(Some(dst), entry)]))
      else None
  }

  /** Whether a worker accepts its block, by what is in memory now. */
  predicate Passes(prog: Task, s: State, i: nat)
    requires i in s.workers && s.workers[i].Checking? && 0 < i <= |prog.jobs| && prog.jobs[i - 1].Packed?
  {
    var p := s.workers[i];
    p.ok && p.dst in s.heap && !Refused(prog.c, prog.jobs[i - 1], Region(s.memory, p.mem, prog.jobs[i - 1]),
                                        s.heap[p.dst])
  }

  /** Steps of a worker up to the error it may report. */
  predicate Before(a: Action) { a.Decode? || a.Return? || a.Check? || a.Fail? || a.SetErr? }

  function EarlyStep(prog: Task, n: nat, s: State, a: Action): (r: Option<State>)
    requires Before(a) && a.i in s.workers
  {
    var i := a.i;
    match s.workers[i]
    case Decoding(src, dst, entry) =>
      if !a.Decode? || src !in s.at || i == 0 || i > |prog.jobs| || prog.jobs[i - 1].Stored? then None
      else
        (match Format.DecodeBody(Region(s.memory, s.at[src], prog.jobs[i - 1]), prog.jobs[i - 1].size)
         case None => Some(Put(s, i, Decoded(src, dst, entry, false)))
         case Some(out) => Some(Put(s, i, Decoded(src, dst, entry, true)).(heap := s.heap[dst := out])))
    case Decoded(src, dst, entry, ok) =>
      if !a.Return? || |s.toRead| > n || src !in s.at then None
      else Some(Put(s, i, Checking(s.at[src], dst, entry, ok)).(toRead := s.toRead + [src]))
    case Checking(mem, dst, entry, ok) =>
      if !a.Check? || i == 0 || i > |prog.jobs| || prog.jobs[i - 1].Stored? then None
      else Some(Put(s, i, if Passes(prog, s, i) then Waiting(Some(dst), entry) else Failing(dst, entry)))
    case Failing(dst, entry) =>
      if !a.Fail? || |s.written| > n then None
      else Some(Put(s, i, Erring(entry)).(written := s.written + [dst]))
    case Erring(entry) => if !a.SetErr? then None else Some(Put(s, i, Waiting(None, entry)).(err := true))
    case _ => None
  }

  /** Its steps from getting the writer to passing it on. */
  function TurnStep(n: nat, s: State, a: Action): (r: Option<State>)
    requires !OfMain(a) && !Before(a) && a.i in s.workers
  {
    var i := a.i;
    match s.workers[i]
    case Waiting(buf, entry) =>
      if !a.GetTurn? || entry !in s.inbox then None
      else Some(Put(s, i, Writing(buf, entry)).(inbox := s.inbox - multiset{entry}))
    case Writing(buf, entry) =>
      if !a.Write? then None
      else
        var b := if buf.Some? && buf.value in s.heap then s.heap[buf.value] else [];
        Some(Put(s, i, Wrote(buf, entry)).(out := s.out + b))
    case Wrote(buf, entry) =>
      if !a.GiveBack? then None
      else if buf.None? then Some(Put(s, i, Freeing(entry)))
      else if |s.written| > n then None
      else Some(Put(s, i, Freeing(entry)).(written := s.written + [buf.value]))
    case Freeing(entry) =>
      if !a.FreeEntry? || |s.reUse| >= n then None
      else Some(Put(s, i, Passing).(reUse := s.reUse + [entry]))
    case Passing =>
      if !a.PassOn? then None
      else if s.queue != [] then
        if s.queue[0] in s.inbox then None
        else Some(s.(workers := s.workers - {i}, queue := s.queue[1..], inbox := s.inbox + multiset{s.queue[0]}))
      else if s.main.Stopped? then Some(s.(workers := s.workers - {i}))
      else None
    case _ => None
  }

  function WorkerStep(prog: Task, n: nat, s: State, a: Action): (r: Option<State>)
    requires !OfMain(a)
  {
    if a.i !in s.workers then None else if Before(a) then EarlyStep(prog, n, s, a) else TurnStep(n, s, a)
  }

  /** The state after a step; `None` if it is not enabled, because it is not its turn or a channel is full or empty. */
  function Next(prog: Task, n: nat, s: State, a: Action): (r: Option<State>)
  {
    if OfMain(a) then MainStep(prog, n, s, a) else WorkerStep(prog, n, s, a)
  }

  // ---------- what is where ----------

  datatype Owner = Pool | TheMain | Worker(i: nat)

  ghost predicate NoDup(q: seq<nat>) { forall i, j :: 0 <= i < j < |q| ==> q[i] != q[j] }

  /** Everything is in exactly one place: in the channel, with the reading goroutine or with one worker. */
  ghost predicate Conserved(own: seq<Owner>, pool: seq<nat>, main: Option<nat>, held: map<nat, nat>) {
    && NoDup(pool)
    && (forall x :: x in pool ==> x < |own|) && (main.Some? ==> main.value < |own|)
    && (forall i :: i in held ==> held[i] < |own|)
    && (forall x :: 0 <= x < |own| ==> (own[x] == Pool <==> x in pool))
    && (forall x :: 0 <= x < |own| ==> (own[x] == TheMain <==> main == Some(x)))
    && (forall x, i :: 0 <= x < |own| ==> (own[x] == Worker(i) <==> i in held && held[i] == x))
  }

  lemma Taken(own: seq<Owner>, pool: seq<nat>, held: map<nat, nat>)
    requires Conserved(own, pool, None, held) && pool != []
    ensures pool[0] < |own| && Conserved(own[pool[0] := TheMain], pool[1..], Some(pool[0]), held)
  {
    var b, rest := pool[0], pool[1..];
    assert b in pool;
    forall x
      ensures x in rest <==> x in pool && x != b
    {
      if x in pool && x != b {
        var k :| 0 <= k < |pool| && pool[k] == x;
        assert rest[k - 1] == x;
      }
    }
  }

  lemma Handed(own: seq<Owner>, pool: seq<nat>, x: nat, held: map<nat, nat>, i: nat)
    requires Conserved(own, pool, Some(x), held) && i !in held
    ensures x < |own| && Conserved(own[x := Worker(i)], pool, None, held[i := x])
  {
  }

  lemma Given(own: seq<Owner>, pool: seq<nat>, main: Option<nat>, held: map<nat, nat>, i: nat)
    requires Conserved(own, pool, main, held) && i in held
    ensures held[i] < |own| && Conserved(own[held[i] := Pool], pool + [held[i]], main, held - {i})
  {
    var b, more := held[i], pool + [held[i]];
    assert own[b] == Worker(i);
    forall x
      ensures x in more <==> x in pool || x == b
    {
      if x == b { assert more[|pool|] == x; }
      if x in pool {
        var k :| 0 <= k < |pool| && pool[k] == x;
        assert more[k] == x;
      }
    }
  }

  function Range(n: nat): (r: set<nat>)
    ensures |r| == n && forall x: nat :: x in r <==> x < n
  {
    if n == 0 then {} else Range(n - 1) + {n - 1}
  }

  function Elements(q: seq<nat>): (r: set<nat>)
    ensures (forall x :: x in r <==> x in q) && (NoDup(q) ==> |r| == |q|)
  {
    if q == [] then {}
    else
      assert NoDup(q) ==> q[0] !in q[1..];
      {q[0]} + Elements(q[1..])
  }

  /** What somebody holds still has its place in the channel. */
  lemma Room(own: seq<Owner>, pool: seq<nat>, main: Option<nat>, held: map<nat, nat>, x: nat)
    requires Conserved(own, pool, main, held) && x < |own| && own[x] != Pool
    ensures |pool| < |own|
  {
    var others := Range(|own|) - {x};
    assert Elements(pool) <= others;
    assert others == Elements(pool) + (others - Elements(pool));
  }

  function SrcOf(p: Phase): (r: Option<nat>) { if p.Decoding? || p.Decoded? then Some(p.src) else None }

  function DstOf(p: Phase): (r: Option<nat>) {
    match p
    case Decoding(_, dst, _) => Some(dst)
    case Decoded(_, dst, _, _) => Some(dst)
    case Checking(_, dst, _, _) => Some(dst)
    case Failing(dst, _) => Some(dst)
    case Waiting(buf, _) => buf
    case Writing(buf, _) => buf
    case Wrote(buf, _) => buf
    case _ => None
  }

  function EntryOf(p: Phase): (r: Option<nat>) { if p.Passing? then None else Some(p.entry) }

  function Srcs(workers: map<nat, Phase>): (r: map<nat, nat>) {
    map i | i in workers && SrcOf(workers[i]).Some? :: SrcOf(workers[i]).value
  }

  function Dsts(workers: map<nat, Phase>): (r: map<nat, nat>) {
    map i | i in workers && DstOf(workers[i]).Some? :: DstOf(workers[i]).value
  }

  function Entries(workers: map<nat, Phase>): (r: map<nat, nat>) {
    map i | i in workers && EntryOf(workers[i]).Some? :: EntryOf(workers[i]).value
  }

  function MainSrc(m: Main): (r: Option<nat>) {
    match m case HasSrc(src) => Some(src) case HasDst(from, _) => from case _ => None
  }

  function MainDst(m: Main): (r: Option<nat>) { if m.HasDst? then Some(m.dst) else None }

  /**
   Owners of the slots of `toRead` and `writtenBlocks` and of the entries, whose turn it is to write, and
   what comes of the blocks.
   */
  datatype Ghost = Ghost(turn: nat, srcs: seq<Owner>, dsts: seq<Owner>, entries: seq<Owner>,
                         outs: seq<Option<seq<Byte>>>)

  ghost predicate Owned(n: nat, s: State, o: Ghost) {
    && |o.srcs| == n + 1 && |o.dsts| == n + 1 && |o.entries| == n
    && Conserved(o.srcs, s.toRead, MainSrc(s.main), Srcs(s.workers))
    && Conserved(o.dsts, s.written, MainDst(s.main), Dsts(s.workers))
    && Conserved(o.entries, s.reUse, None, Entries(s.workers))
  }

  /** Before its turn. */
  predicate BeforeTurn(p: Phase) { Undecided(p) || p.Failing? || p.Erring? || p.Waiting? }

  /** Before it accepts or refuses its block. */
  predicate Undecided(p: Phase) { p.Decoding? || p.Decoded? || p.Checking? }

  /** The queue holds the entries of the workers after `turn`, in the order of their blocks. */
  ghost predicate Turns(prog: Task, s: State, turn: nat) {
    && turn <= s.pc <= |prog.jobs|
    && (forall i :: i in s.workers ==> turn <= i <= s.pc)
    && (forall i :: turn < i <= s.pc ==> i in s.workers && BeforeTurn(s.workers[i]))
    && |s.queue| == s.pc - turn
    && (forall k {:trigger s.queue[k]} :: 0 <= k < |s.queue| ==> s.workers[turn + 1 + k].entry == s.queue[k])
    && (if turn in s.workers
        then s.inbox == if BeforeTurn(s.workers[turn]) then multiset{s.workers[turn].entry} else multiset{}
        else s.main.Stopped? && s.queue == [] && s.inbox == multiset{})
  }

  /** Worker `i` is as far as its job says. */
  ghost predicate WorkerFilled(prog: Task, outs: seq<Option<seq<Byte>>>, i: nat, p: Phase, heap: map<nat, seq<Byte>>) {
    if i == 0 then !Undecided(p) && !p.Failing? && !p.Erring? && DstOf(p).None?
    else
      && i <= |prog.jobs| == |outs|
      && match p
         case Decoding(_, _, _) => prog.jobs[i - 1].Packed?
         case Decoded(_, dst, _, ok) => prog.jobs[i - 1].Packed? && Unpacked(prog.jobs[i - 1], dst, ok, heap)
         case Checking(_, dst, _, ok) => prog.jobs[i - 1].Packed? && Unpacked(prog.jobs[i - 1], dst, ok, heap)
         case Failing(_, _) => outs[i - 1].None?
         case Erring(_) => outs[i - 1].None?
         case Waiting(buf, _) => BufFilled(outs[i - 1], buf, heap)
         case Writing(buf, _) => BufFilled(outs[i - 1], buf, heap)
         case _ => true
  }

  ghost predicate Unpacked(job: Job, dst: nat, ok: bool, heap: map<nat, seq<Byte>>) {
    ok == Raw(job).Some? && (ok ==> dst in heap && heap[dst] == Raw(job).value)
  }

  ghost predicate BufFilled(out: Option<seq<Byte>>, buf: Option<nat>, heap: map<nat, seq<Byte>>) {
    match buf
    case None => out.None?
    case Some(x) => out.Some? && x in heap && heap[x] == out.value
  }

  ghost predicate MainFilled(prog: Task, s: State) {
    match s.main
    case Begun => s.pc < |prog.jobs|
    case HasSrc(_) => s.pc < |prog.jobs| && prog.jobs[s.pc].Packed?
    case HasDst(from, dst) =>
      s.pc < |prog.jobs|
      && if from.Some? then prog.jobs[s.pc].Packed?
         else prog.jobs[s.pc].Stored? && dst in s.heap && s.heap[dst] == prog.jobs[s.pc].data
    case Stopped => s.err || s.pc == |prog.jobs|
    case _ => true
  }

  ghost predicate Filled(prog: Task, s: State, outs: seq<Option<seq<Byte>>>) {
    && Possible(prog, outs)
    && (forall i :: i in s.workers ==> WorkerFilled(prog, outs, i, s.workers[i], s.heap))
    && MainFilled(prog, s)
  }

  /** Source buffer `x` has the chunk of `job`. */
  ghost predicate Holding(memory: seq<seq<Byte>>, at: map<nat, nat>, x: nat, job: Job) {
    job.Packed? && x in at && at[x] < |memory| && job.chunk <= memory[at[x]]
  }

  /** Every source buffer has its own memory; those that wait to be decoded have their chunk in it. */
  ghost predicate Loaded(prog: Task, s: State) {
    && (forall x :: x in s.at ==> s.at[x] < |s.memory|)
    && (forall x, y :: x in s.at && y in s.at && s.at[x] == s.at[y] ==> x == y)
    && (forall i :: i in s.workers ==> WorkerLoaded(prog, i, s.workers[i], s.memory, s.at))
    && (MainSrc(s.main).Some? ==> s.pc < |prog.jobs| && Holding(s.memory, s.at, MainSrc(s.main).value, prog.jobs[s.pc]))
  }

  ghost predicate WorkerLoaded(prog: Task, i: nat, p: Phase, memory: seq<seq<Byte>>, at: map<nat, nat>) {
    && (p.Decoding? ==> 0 < i <= |prog.jobs| && Holding(memory, at, p.src, prog.jobs[i - 1]))
    && (p.Decoded? ==> p.src in at)
  }

  function Output(outs: seq<Option<seq<Byte>>>, n: nat): (r: seq<Byte>)
    requires n <= |outs|
  {
    if n == 0 then [] else Output(outs, n - 1) + if outs[n - 1].Some? then outs[n - 1].value else []
  }

  /** How many blocks are written. */
  function Done(s: State, turn: nat): (r: nat) {
    if turn > 0 && turn in s.workers && (BeforeTurn(s.workers[turn]) || s.workers[turn].Writing?)
    then turn - 1
    else turn
  }

  ghost predicate Written(outs: seq<Option<seq<Byte>>>, s: State, turn: nat) {
    s.pc <= |outs| && Done(s, turn) <= |outs| && s.out == Output(outs, Done(s, turn)) && Failures(outs, s)
  }

  /** An error is one of a block that was refused, and a block that is refused will be an error. */
  ghost predicate Failures(outs: seq<Option<seq<Byte>>>, s: State)
    requires s.pc <= |outs|
  {
    && (s.err ==> exists j :: 0 <= j < s.pc && outs[j].None? && Settled(s, j + 1))
    && (forall j :: 0 <= j < s.pc && outs[j].None? ==> s.err || Pending(s, j + 1))
  }

  predicate Settled(s: State, i: nat) { i !in s.workers || !Undecided(s.workers[i]) }

  predicate Pending(s: State, i: nat) {
    i in s.workers && (Undecided(s.workers[i]) || s.workers[i].Failing? || s.workers[i].Erring?)
  }

  ghost predicate Inv(prog: Task, n: nat, s: State, o: Ghost) {
    Owned(n, s, o) && Turns(prog, s, o.turn) && Filled(prog, s, o.outs) && Loaded(prog, s) && Written(o.outs, s, o.turn)
  }

  function Pooled(n: nat): (r: seq<Owner>)
    ensures |r| == n && forall i :: 0 <= i < n ==> r[i] == Pool
  {
    seq(n, _ => Pool)
  }

  function StartGhost(prog: Task, n: nat): (r: Ghost)
    requires n >= 2
  {
    Ghost(0, Pooled(n + 1), Pooled(n + 1), Pooled(n)[0 := TheMain][0 := Worker(0)], Outcomes(prog))
  }

  lemma StartConserved(n: nat)
    ensures Conserved(Pooled(n), UpTo(n), None, map[])
  {
    forall x: nat | x < n
      ensures x in UpTo(n)
    {
      assert UpTo(n)[x] == x;
    }
  }

  lemma StartInv(prog: Task, n: nat)
    requires n >= 2
    ensures Inv(prog, n, Start(n), StartGhost(prog, n))
  {
    hide Conserved;
    StartConserved(n + 1);
    StartConserved(n);
    Taken(Pooled(n), UpTo(n), map[]);
    Handed(Pooled(n)[0 := TheMain], UpTo(n)[1..], 0, map[], 0);
    var s := Start(n);
    assert Srcs(s.workers) == map[] && Dsts(s.workers) == map[] && Entries(s.workers) == map[][0 := 0];
  }

  // ---------- every step keeps it ----------

  /** What a worker's new phase does to the holdings. */
  lemma NewPhase(workers: map<nat, Phase>, i: nat, p: Phase)
    ensures Srcs(workers[i := p]) == if SrcOf(p).Some? then Srcs(workers)[i := SrcOf(p).value] else Srcs(workers) - {i}
    ensures Dsts(workers[i := p]) == if DstOf(p).Some? then Dsts(workers)[i := DstOf(p).value] else Dsts(workers) - {i}
    ensures Entries(workers[i := p]) == if EntryOf(p).Some? then Entries(workers)[i := EntryOf(p).value]
            else Entries(workers) - {i}
  {
    hide SrcOf; hide DstOf; hide EntryOf;
  }

  lemma NoPhase(workers: map<nat, Phase>, i: nat)
    ensures Srcs(workers - {i}) == Srcs(workers) - {i}
    ensures Dsts(workers - {i}) == Dsts(workers) - {i}
    ensures Entries(workers - {i}) == Entries(workers) - {i}
  {
    hide SrcOf; hide DstOf; hide EntryOf;
  }

  lemma Unchanged(held: map<nat, nat>, i: nat)
    ensures i !in held ==> held - {i} == held
    ensures i in held ==> held[i := held[i]] == held
  {
  }

  /** Only owners differ. */
  ghost predicate Marks(o: Ghost, o': Ghost) { o'.turn == o.turn && o'.outs == o.outs }

  lemma MainOwned(prog: Task, n: nat, s: State, a: Action, o: Ghost) returns (o': Ghost)
    requires Owned(n, s, o) && Turns(prog, s, o.turn) && MainStep(prog, n, s, a).Some?
    ensures Owned(n, MainStep(prog, n, s, a).value, o') && Marks(o, o')
  {
    hide Conserved; hide Srcs; hide Dsts; hide Entries;
    var s' := MainStep(prog, n, s, a).value;
    o' := o;
    match s.main {
      case Reading =>
      case Begun =>
        if a.TakeSrc? {
          Taken(o.srcs, s.toRead, Srcs(s.workers));
          o' := o.(srcs := o.srcs[s.toRead[0] := TheMain]);
        } else if a.TakeDst? {
          Taken(o.dsts, s.written, Dsts(s.workers));
          o' := o.(dsts := o.dsts[s.written[0] := TheMain]);
        }
      case HasSrc(_) =>
        Taken(o.dsts, s.written, Dsts(s.workers));
        o' := o.(dsts := o.dsts[s.written[0] := TheMain]);
      case HasDst(from, dst) => o' := DispatchOwned(prog, n, s, o);
      case Stopped =>
    }
  }

  lemma DispatchOwned(prog: Task, n: nat, s: State, o: Ghost) returns (o': Ghost)
    requires Owned(n, s, o) && Turns(prog, s, o.turn) && MainStep(prog, n, s, Dispatch).Some?
    ensures Owned(n, MainStep(prog, n, s, Dispatch).value, o') && Marks(o, o')
  {
    var i := s.pc + 1;
    assert i !in Srcs(s.workers) && i !in Dsts(s.workers) && i !in Entries(s.workers);
    hide Conserved; hide Srcs; hide Dsts; hide Entries;
    var s' := MainStep(prog, n, s, Dispatch).value;
    NewPhase(s.workers, i, s'.workers[i]);
    Unchanged(Srcs(s.workers), i);
    var dst := s.main.dst;
    Handed(o.dsts, s.written, dst, Dsts(s.workers), i);
    Taken(o.entries, s.reUse, Entries(s.workers));
    Handed(o.entries[s.reUse[0] := TheMain], s.reUse[1..], s.reUse[0], Entries(s.workers), i);
    o' := o.(dsts := o.dsts[dst := Worker(i)], entries := o.entries[s.reUse[0] := TheMain][s.reUse[0] := Worker(i)]);
    if s.main.from.Some? {
      Handed(o.srcs, s.toRead, s.main.from.value, Srcs(s.workers), i);
      o' := o'.(srcs := o.srcs[s.main.from.value := Worker(i)]);
    }
  }

  /** Worker `i` and what it holds. */
  lemma Holds(workers: map<nat, Phase>, i: nat)
    requires i in workers
    ensures (i in Srcs(workers) <==> SrcOf(workers[i]).Some?) &&
            (i in Srcs(workers) ==> Srcs(workers)[i] == SrcOf(workers[i]).value)
    ensures (i in Dsts(workers) <==> DstOf(workers[i]).Some?) &&
            (i in Dsts(workers) ==> Dsts(workers)[i] == DstOf(workers[i]).value)
    ensures (i in Entries(workers) <==> EntryOf(workers[i]).Some?) &&
            (i in Entries(workers) ==> Entries(workers)[i] == EntryOf(workers[i]).value)
  {
    hide SrcOf; hide DstOf; hide EntryOf;
  }

  /** What a new phase of worker `i` leaves with it stays where it is. */
  lemma KeptBy(workers: map<nat, Phase>, i: nat, p: Phase)
    requires i in workers
    ensures SrcOf(p) == SrcOf(workers[i]) ==> Srcs(workers[i := p]) == Srcs(workers)
    ensures DstOf(p) == DstOf(workers[i]) ==> Dsts(workers[i := p]) == Dsts(workers)
    ensures EntryOf(p) == EntryOf(workers[i]) ==> Entries(workers[i := p]) == Entries(workers)
    ensures SrcOf(p).None? ==> Srcs(workers[i := p]) == Srcs(workers) - {i}
    ensures DstOf(p).None? ==> Dsts(workers[i := p]) == Dsts(workers) - {i}
    ensures EntryOf(p).None? ==> Entries(workers[i := p]) == Entries(workers) - {i}
  {
    Holds(workers, i);
    hide Srcs; hide Dsts; hide Entries; hide SrcOf; hide DstOf; hide EntryOf;
    NewPhase(workers, i, p);
    Unchanged(Srcs(workers), i);
    Unchanged(Dsts(workers), i);
    Unchanged(Entries(workers), i);
  }

  lemma ReturnOwned(prog: Task, n: nat, s: State, i: nat, o: Ghost) returns (o': Ghost)
    requires Owned(n, s, o) && WorkerStep(prog, n, s, Return(i)).Some?
    ensures Owned(n, WorkerStep(prog, n, s, Return(i)).value, o') && Marks(o, o')
  {
    hide Conserved; hide Srcs; hide Dsts; hide Entries;
    var p := WorkerStep(prog, n, s, Return(i)).value.workers[i];
    Holds(s.workers, i);
    KeptBy(s.workers, i, p);
    Given(o.srcs, s.toRead, MainSrc(s.main), Srcs(s.workers), i);
    o' := o.(srcs := o.srcs[s.workers[i].src := Pool]);
  }

  lemma FailOwned(prog: Task, n: nat, s: State, i: nat, o: Ghost) returns (o': Ghost)
    requires Owned(n, s, o) && WorkerStep(prog, n, s, Fail(i)).Some?
    ensures Owned(n, WorkerStep(prog, n, s, Fail(i)).value, o') && Marks(o, o')
  {
    hide Conserved; hide Srcs; hide Dsts; hide Entries;
    Holds(s.workers, i);
    KeptBy(s.workers, i, Erring(s.workers[i].entry));
    Given(o.dsts, s.written, MainDst(s.main), Dsts(s.workers), i);
    o' := o.(dsts := o.dsts[s.workers[i].dst := Pool]);
  }

  lemma GiveBackOwned(prog: Task, n: nat, s: State, i: nat, o: Ghost) returns (o': Ghost)
    requires Owned(n, s, o) && WorkerStep(prog, n, s, GiveBack(i)).Some?
    ensures Owned(n, WorkerStep(prog, n, s, GiveBack(i)).value, o') && Marks(o, o')
  {
    hide Conserved; hide Srcs; hide Dsts; hide Entries;
    Holds(s.workers, i);
    KeptBy(s.workers, i, Freeing(s.workers[i].entry));
    o' := o;
    if s.workers[i].buf.Some? {
      Given(o.dsts, s.written, MainDst(s.main), Dsts(s.workers), i);
      o' := o.(dsts := o.dsts[s.workers[i].buf.value := Pool]);
    }
  }

  lemma FreeOwned(prog: Task, n: nat, s: State, i: nat, o: Ghost) returns (o': Ghost)
    requires Owned(n, s, o) && WorkerStep(prog, n, s, FreeEntry(i)).Some?
    ensures Owned(n, WorkerStep(prog, n, s, FreeEntry(i)).value, o') && Marks(o, o')
  {
    hide Conserved; hide Srcs; hide Dsts; hide Entries;
    Holds(s.workers, i);
    KeptBy(s.workers, i, Passing);
    Given(o.entries, s.reUse, None, Entries(s.workers), i);
    o' := o.(entries := o.entries[s.workers[i].entry := Pool]);
  }

  /** A new phase with the same holdings. */
  lemma SameHoldings(n: nat, s: State, s': State, i: nat, p: Phase, o: Ghost)
    requires Owned(n, s, o) && i in s.workers && s'.workers == s.workers[i := p]
    requires s'.toRead == s.toRead && s'.written == s.written && s'.reUse == s.reUse && s'.main == s.main
    requires SrcOf(p) == SrcOf(s.workers[i]) && DstOf(p) == DstOf(s.workers[i]) && EntryOf(p) == EntryOf(s.workers[i])
    ensures Owned(n, s', o)
  {
    KeptBy(s.workers, i, p);
    hide Conserved; hide Srcs; hide Dsts; hide Entries;
  }

  /** Worker `i` is in another phase and holds what it held. */
  ghost predicate Quiet(s: State, s': State, i: nat) {
    && i in s.workers && i in s'.workers && s'.workers == s.workers[i := s'.workers[i]]
    && s'.toRead == s.toRead && s'.written == s.written && s'.reUse == s.reUse && s'.main == s.main
    && SrcOf(s'.workers[i]) == SrcOf(s.workers[i]) && DstOf(s'.workers[i]) == DstOf(s.workers[i])
    && EntryOf(s'.workers[i]) == EntryOf(s.workers[i])
  }

  lemma EarlyQuiet(prog: Task, n: nat, s: State, a: Action)
    requires (a.Decode? || a.Check? || a.SetErr?) && WorkerStep(prog, n, s, a).Some?
    ensures Quiet(s, WorkerStep(prog, n, s, a).value, a.i)
  {
    hide Region; hide Passes; hide Format.DecodeBody;
  }

  lemma TurnQuiet(prog: Task, n: nat, s: State, a: Action)
    requires (a.GetTurn? || a.Write?) && WorkerStep(prog, n, s, a).Some?
    ensures Quiet(s, WorkerStep(prog, n, s, a).value, a.i)
  {
  }

  lemma QuietOwned(prog: Task, n: nat, s: State, a: Action, o: Ghost)
    requires Owned(n, s, o) && (a.Decode? || a.Check? || a.SetErr? || a.GetTurn? || a.Write?)
    requires WorkerStep(prog, n, s, a).Some?
    ensures Owned(n, WorkerStep(prog, n, s, a).value, o)
  {
    hide Owned; hide WorkerStep; hide SrcOf; hide DstOf; hide EntryOf;
    var s' := WorkerStep(prog, n, s, a).value;
    if a.GetTurn? || a.Write? { TurnQuiet(prog, n, s, a); } else { EarlyQuiet(prog, n, s, a); }
    SameHoldings(n, s, s', a.i, s'.workers[a.i], o);
  }

  lemma PassOwned(prog: Task, n: nat, s: State, i: nat, o: Ghost)
    requires Owned(n, s, o) && WorkerStep(prog, n, s, PassOn(i)).Some?
    ensures Owned(n, WorkerStep(prog, n, s, PassOn(i)).value, o)
  {
    hide Conserved; hide Srcs; hide Dsts; hide Entries;
    Holds(s.workers, i);
    NoPhase(s.workers, i);
    Unchanged(Srcs(s.workers), i);
    Unchanged(Dsts(s.workers), i);
    Unchanged(Entries(s.workers), i);
  }

  // ---------- turns ----------

  /** Whose turn it is after a step. */
  function TurnAfter(s: State, a: Action, turn: nat): (r: nat) { if a.PassOn? && s.queue != [] then turn + 1 else turn }

  lemma MainTurns(prog: Task, n: nat, s: State, a: Action, turn: nat)
    requires Turns(prog, s, turn) && MainFilled(prog, s) && MainStep(prog, n, s, a).Some?
    ensures Turns(prog, MainStep(prog, n, s, a).value, turn)
  {
    if a.TakeSrc? {
      FillRest(s, s.toRead[0], prog.jobs[s.pc].chunk, prog.jobs[s.pc].room);
      hide Fill;
    }
  }

  /** No two workers have the same entry. */
  lemma OwnEntry(n: nat, s: State, o: Ghost, i: nat, j: nat)
    requires Owned(n, s, o) && i in s.workers && j in s.workers && !s.workers[i].Passing? && !s.workers[j].Passing?
    requires s.workers[i].entry == s.workers[j].entry
    ensures i == j
  {
    assert i in Entries(s.workers) && j in Entries(s.workers);
    hide Srcs; hide Dsts;
    assert o.entries[s.workers[i].entry] == Worker(i) && o.entries[s.workers[j].entry] == Worker(j);
  }

  lemma StillEarly(prog: Task, s: State, s': State, turn: nat, i: nat, p: Phase)
    requires Turns(prog, s, turn) && i in s.workers && BeforeTurn(s.workers[i]) && BeforeTurn(p) &&
             p.entry == s.workers[i].entry
    requires s'.workers == s.workers[i := p]
    requires s'.pc == s.pc && s'.queue == s.queue && s'.inbox == s.inbox && s'.main == s.main
    ensures Turns(prog, s', turn)
  {
    forall k | 0 <= k < |s.queue|
      ensures turn + 1 + k in s'.workers && s'.workers[turn + 1 + k].entry == s'.queue[k]
    {
      assert s.workers[turn + 1 + k].entry == s.queue[k];
    }
  }

  lemma EarlyTurns(prog: Task, n: nat, s: State, a: Action, turn: nat)
    requires Turns(prog, s, turn) && Before(a) && WorkerStep(prog, n, s, a).Some?
    ensures Turns(prog, WorkerStep(prog, n, s, a).value, turn)
  {
    hide Turns;
    var s' := WorkerStep(prog, n, s, a).value;
    StillEarly(prog, s, s', turn, a.i, s'.workers[a.i]);
  }

  lemma StillWriting(prog: Task, s: State, s': State, turn: nat, i: nat, p: Phase)
    requires Turns(prog, s, turn) && i in s.workers && !BeforeTurn(s.workers[i]) && !BeforeTurn(p)
    requires s'.workers == s.workers[i := p]
    requires s'.pc == s.pc && s'.queue == s.queue && s'.inbox == s.inbox && s'.main == s.main
    ensures i == turn && Turns(prog, s', turn)
  {
    assert i == turn;
    forall k | 0 <= k < |s.queue|
      ensures turn + 1 + k in s'.workers && s'.workers[turn + 1 + k].entry == s'.queue[k]
    {
      assert s.workers[turn + 1 + k].entry == s.queue[k];
    }
  }

  lemma WriterTurns(prog: Task, n: nat, s: State, a: Action, turn: nat)
    requires Turns(prog, s, turn) && (a.Write? || a.GiveBack? || a.FreeEntry?) && WorkerStep(prog, n, s, a).Some?
    ensures a.i == turn && Turns(prog, WorkerStep(prog, n, s, a).value, turn)
  {
    hide Turns;
    var s' := WorkerStep(prog, n, s, a).value;
    StillWriting(prog, s, s', turn, a.i, s'.workers[a.i]);
  }

  lemma GetTurns(prog: Task, n: nat, s: State, i: nat, o: Ghost)
    requires Owned(n, s, o) && Turns(prog, s, o.turn) && WorkerStep(prog, n, s, GetTurn(i)).Some?
    ensures i == o.turn && Turns(prog, WorkerStep(prog, n, s, GetTurn(i)).value, o.turn)
  {
    hide Owned;
    assert o.turn in s.workers && BeforeTurn(s.workers[o.turn]);
    OwnEntry(n, s, o, i, o.turn);
  }

  lemma PassTurns(prog: Task, n: nat, s: State, i: nat, turn: nat)
    requires Turns(prog, s, turn) && WorkerStep(prog, n, s, PassOn(i)).Some?
    ensures i == turn && Turns(prog, WorkerStep(prog, n, s, PassOn(i)).value, TurnAfter(s, PassOn(i), turn))
  {
  }

  // ---------- contents ----------

  /** The block of worker `i` is not affected by what happens to a buffer it does not hold. */
  lemma OthersFilled(prog: Task, outs: seq<Option<seq<Byte>>>, i: nat, p: Phase, heap: map<nat, seq<Byte>>, x: nat,
                     u: seq<Byte>)
    requires WorkerFilled(prog, outs, i, p, heap) && DstOf(p) != Some(x)
    ensures WorkerFilled(prog, outs, i, p, heap[x := u])
  {
    hide Raw;
  }

  /** Nor by the outcome of another block. */
  lemma OtherOuts(prog: Task, outs: seq<Option<seq<Byte>>>, i: nat, p: Phase, heap: map<nat, seq<Byte>>, j: nat,
                  out: Option<seq<Byte>>)
    requires WorkerFilled(prog, outs, i, p, heap) && j < |outs| && i != j + 1
    ensures WorkerFilled(prog, outs[j := out], i, p, heap)
  {
    hide Raw; hide BufFilled; hide DstOf;
  }

  lemma MainContents(prog: Task, n: nat, s: State, a: Action, o: Ghost)
    requires Owned(n, s, o) && Turns(prog, s, o.turn) && Filled(prog, s, o.outs) && MainStep(prog, n, s, a).Some?
    ensures Filled(prog, MainStep(prog, n, s, a).value, o.outs)
  {
    hide Raw;
    var s' := MainStep(prog, n, s, a).value;
    if s.main.Begun? && a.TakeDst? {
      var x := s.written[0];
      forall i | i in s.workers
        ensures WorkerFilled(prog, o.outs, i, s'.workers[i], s'.heap)
      {
        NotHeld(n, s, o, i, x);
        OthersFilled(prog, o.outs, i, s.workers[i], s.heap, x, prog.jobs[s.pc].data);
      }
    } else if a.Dispatch? {
      DispatchContents(prog, n, s, o.outs);
    } else {
      hide Owned; hide Turns; hide WorkerFilled; hide Possible;
    }
  }

  lemma DispatchContents(prog: Task, n: nat, s: State, outs: seq<Option<seq<Byte>>>)
    requires Filled(prog, s, outs) && MainStep(prog, n, s, Dispatch).Some?
    ensures Filled(prog, MainStep(prog, n, s, Dispatch).value, outs)
  {
    var i, s' := s.pc, MainStep(prog, n, s, Dispatch).value;
    assert PossibleOut(prog.c, prog.jobs[i], outs[i]);
    hide Possible; hide Refused;
    assert WorkerFilled(prog, outs, i + 1, s'.workers[i + 1], s'.heap);
    hide WorkerFilled;
  }

  lemma NotHeld(n: nat, s: State, o: Ghost, i: nat, x: nat)
    requires Owned(n, s, o) && i in s.workers
    ensures x in s.written ==> DstOf(s.workers[i]) != Some(x)
    ensures x in s.toRead ==> SrcOf(s.workers[i]) != Some(x)
  {
    Holds(s.workers, i);
    hide Srcs; hide Entries; hide Dsts; hide DstOf; hide SrcOf;
    if x in s.written { assert o.dsts[x] == Pool; }
    if x in s.toRead { assert o.srcs[x] == Pool; }
  }

  lemma NotShared(n: nat, s: State, o: Ghost, i: nat, j: nat, x: nat)
    requires Owned(n, s, o) && i in s.workers && DstOf(s.workers[i]) == Some(x)
    ensures j in s.workers && j != i ==> DstOf(s.workers[j]) != Some(x)
    ensures MainDst(s.main) != Some(x)
  {
    Holds(s.workers, i);
    if j in s.workers { Holds(s.workers, j); }
    hide Srcs; hide Entries; hide Dsts; hide DstOf;
    assert o.dsts[x] == Worker(i);
  }

  lemma Same(memory: seq<seq<Byte>>, at: map<nat, nat>, x: nat, job: Job)
    requires Holding(memory, at, x, job)
    ensures Region(memory, at[x], job) == Body(job, job.chunk)
  {
    assert memory[at[x]][..|job.chunk|] == job.chunk;
  }

  lemma DecodeShape(prog: Task, n: nat, s: State, i: nat)
    requires WorkerStep(prog, n, s, Decode(i)).Some?
    ensures var s' := WorkerStep(prog, n, s, Decode(i)).value;
            && i in s.workers && s.workers[i].Decoding? && s.workers[i].src in s.at
            && 0 < i <= |prog.jobs| && prog.jobs[i - 1].Packed? && s'.main == s.main && s'.pc == s.pc && s'.err == s.err
            && var p, job := s.workers[i], prog.jobs[i - 1];
               var out := Format.DecodeBody(Region(s.memory, s.at[p.src], job), job.size);
               && s'.workers == s.workers[i := Decoded(p.src, p.dst, p.entry, out.Some?)]
               && s'.heap == if out.Some? then s.heap[p.dst := out.value] else s.heap
  {
    hide Region; hide Format.DecodeBody;
  }

  lemma DecodeContents(prog: Task, n: nat, s: State, i: nat, o: Ghost)
    requires Owned(n, s, o) && Filled(prog, s, o.outs) && Loaded(prog, s) && WorkerStep(prog, n, s, Decode(i)).Some?
    ensures Filled(prog, WorkerStep(prog, n, s, Decode(i)).value, o.outs)
  {
    hide Owned; hide Possible; hide WorkerStep;
    DecodeShape(prog, n, s, i);
    var s' := WorkerStep(prog, n, s, Decode(i)).value;
    var x, job := s.workers[i].dst, prog.jobs[i - 1];
    assert WorkerLoaded(prog, i, s.workers[i], s.memory, s.at) && WorkerFilled(prog, o.outs, i, s.workers[i], s.heap);
    Same(s.memory, s.at, s.workers[i].src, job);
    NotShared(n, s, o, i, i, x);
    hide Loaded; hide Region;
    forall j | j in s'.workers
      ensures WorkerFilled(prog, o.outs, j, s'.workers[j], s'.heap)
    {
      if j != i {
        NotShared(n, s, o, i, j, x);
        if Raw(job).Some? { OthersFilled(prog, o.outs, j, s.workers[j], s.heap, x, Raw(job).value); }
      }
    }
  }

  /** Another phase of one worker, and nothing else, leaves the contents as they are. */
  lemma OneFilled(prog: Task, s: State, s': State, i: nat, outs: seq<Option<seq<Byte>>>)
    requires Filled(prog, s, outs) && s'.heap == s.heap && s'.pc == s.pc && s'.main == s.main && (s.err ==> s'.err)
    requires forall j :: j in s'.workers && j != i ==> j in s.workers && s'.workers[j] == s.workers[j]
    requires i in s'.workers ==> WorkerFilled(prog, outs, i, s'.workers[i], s'.heap)
    ensures Filled(prog, s', outs)
  {
    hide BufFilled; hide Raw; hide Possible;
  }

  lemma WaitingContents(prog: Task, n: nat, s: State, a: Action, outs: seq<Option<seq<Byte>>>)
    requires Filled(prog, s, outs) && (a.Return? || a.Fail? || a.SetErr? || a.GetTurn? || a.Write?)
    requires WorkerStep(prog, n, s, a).Some?
    ensures Filled(prog, WorkerStep(prog, n, s, a).value, outs)
  {
    hide Filled; hide Unpacked; hide Passes; hide Region;
    var i: nat := a.i;
    FilledAt(prog, s, outs, i);
    OneFilled(prog, s, WorkerStep(prog, n, s, a).value, i, outs);
  }

  lemma DoneContents(prog: Task, n: nat, s: State, a: Action, outs: seq<Option<seq<Byte>>>)
    requires Filled(prog, s, outs) && (a.GiveBack? || a.FreeEntry? || a.PassOn?) && WorkerStep(prog, n, s, a).Some?
    ensures Filled(prog, WorkerStep(prog, n, s, a).value, outs)
  {
    hide Filled; hide Unpacked; hide BufFilled; hide Passes; hide Region;
    var i: nat := a.i;
    FilledAt(prog, s, outs, i);
    OneFilled(prog, s, WorkerStep(prog, n, s, a).value, i, outs);
  }

  // ---------- decisions ----------

  /** What worker `i` decides. */
  function Decision(prog: Task, s: State, i: nat): (r: Option<seq<Byte>>)
    requires i in s.workers && s.workers[i].Checking? && 0 < i <= |prog.jobs| && prog.jobs[i - 1].Packed?
  {
    if Passes(prog, s, i) then Raw(prog.jobs[i - 1]) else None
  }

  lemma DecisionPossible(prog: Task, s: State, i: nat, outs: seq<Option<seq<Byte>>>)
    requires Possible(prog, outs) && 0 < i <= |prog.jobs| && prog.jobs[i - 1].Packed?
    requires i in s.workers && s.workers[i].Checking? && WorkerFilled(prog, outs, i, s.workers[i], s.heap)
    ensures Possible(prog, outs[i - 1 := Decision(prog, s, i)])
    ensures !ChecksOwn(prog.c, prog.jobs[i - 1]) ==> Decision(prog, s, i) == outs[i - 1]
    ensures Passes(prog, s, i) ==> Raw(prog.jobs[i - 1]) == Some(s.heap[s.workers[i].dst])
    ensures Decision(prog, s, i).Some? == Passes(prog, s, i)
  {
    assert PossibleOut(prog.c, prog.jobs[i - 1], outs[i - 1]);
    hide Region; hide Body; hide Raw;
  }

  /** From here on the outcome of a block is what its worker decided. */
  lemma CheckContents(prog: Task, n: nat, s: State, i: nat, outs: seq<Option<seq<Byte>>>)
      returns (outs': seq<Option<seq<Byte>>>)
    requires Filled(prog, s, outs) && WorkerStep(prog, n, s, Check(i)).Some?
    ensures Filled(prog, WorkerStep(prog, n, s, Check(i)).value, outs')
    ensures outs' == outs[i - 1 := Decision(prog, s, i)] && Decision(prog, s, i).Some? == Passes(prog, s, i)
  {
    assert WorkerFilled(prog, outs, i, s.workers[i], s.heap);
    DecisionPossible(prog, s, i, outs);
    hide Possible; hide Raw; hide Passes;
    var s' := WorkerStep(prog, n, s, Check(i)).value;
    outs' := outs[i - 1 := Decision(prog, s, i)];
    forall j | j in s'.workers
      ensures WorkerFilled(prog, outs', j, s'.workers[j], s'.heap)
    {
      if j != i { OtherOuts(prog, outs, j, s.workers[j], s.heap, i - 1, outs'[i - 1]); }
    }
  }

  // ---------- source buffers ----------

  lemma FillOthers(s: State, x: nat, chunk: seq<Byte>, room: nat, y: nat, job: Job)
    requires (forall z :: z in s.at ==> s.at[z] < |s.memory|)
    requires (forall z, z' :: z in s.at && z' in s.at && s.at[z] == s.at[z'] ==> z == z')
    requires y != x
    ensures var s' := Fill(s, x, chunk, room); Holding(s.memory, s.at, y, job) ==> Holding(s'.memory, s'.at, y, job)
  {
  }

  lemma FillHolds(s: State, x: nat, job: Job)
    requires (forall z :: z in s.at ==> s.at[z] < |s.memory|) && job.Packed?
    ensures var s' := Fill(s, x, job.chunk, job.room); Holding(s'.memory, s'.at, x, job)
  {
  }

  lemma FillDistinct(s: State, x: nat, chunk: seq<Byte>, room: nat)
    requires (forall z :: z in s.at ==> s.at[z] < |s.memory|)
    requires (forall z, z' :: z in s.at && z' in s.at && s.at[z] == s.at[z'] ==> z == z')
    ensures var s' := Fill(s, x, chunk, room);
            && (forall z :: z in s'.at ==> s'.at[z] < |s'.memory|)
            && (forall z, z' :: z in s'.at && z' in s'.at && s'.at[z] == s'.at[z'] ==> z == z')
            && (forall z :: z in s.at ==> z in s'.at)
  {
  }

  lemma TakeLoaded(prog: Task, n: nat, s: State, o: Ghost)
    requires Owned(n, s, o) && Loaded(prog, s) && s.main.Begun? && MainStep(prog, n, s, TakeSrc).Some?
    ensures Loaded(prog, MainStep(prog, n, s, TakeSrc).value)
  {
    hide Owned; hide Fill; hide Holding;
    var s', x, job := MainStep(prog, n, s, TakeSrc).value, s.toRead[0], prog.jobs[s.pc];
    FillDistinct(s, x, job.chunk, job.room);
    FillHolds(s, x, job);
    FillRest(s, x, job.chunk, job.room);
    forall i | i in s'.workers
      ensures WorkerLoaded(prog, i, s'.workers[i], s'.memory, s'.at)
    {
      assert WorkerLoaded(prog, i, s.workers[i], s.memory, s.at);
      NotHeld(n, s, o, i, x);
      if s.workers[i].Decoding? { FillOthers(s, x, job.chunk, job.room, s.workers[i].src, prog.jobs[i - 1]); }
    }
  }

  lemma FillRest(s: State, x: nat, chunk: seq<Byte>, room: nat)
    ensures Fill(s, x, chunk, room) == s.(memory := Fill(s, x, chunk, room).memory, at := Fill(s, x, chunk, room).at)
  {
  }

  lemma MainLoaded(prog: Task, n: nat, s: State, a: Action, o: Ghost)
    requires Owned(n, s, o) && Loaded(prog, s) && MainStep(prog, n, s, a).Some?
    ensures Loaded(prog, MainStep(prog, n, s, a).value)
  {
    hide Owned; hide Fill; hide Holding;
    if a.TakeSrc? { TakeLoaded(prog, n, s, o); }
  }

  /** Workers only let go of their source buffers. */
  /** A step of worker `i`, which leaves memory as it is; afterwards only a worker that was decoding has decoded. */
  ghost predicate LeavesMemory(s: State, s': State, i: nat) {
    && s'.memory == s.memory && s'.at == s.at && s'.pc == s.pc && s'.main == s.main && i in s.workers
    && (forall j :: j in s'.workers && j != i ==> j in s.workers && s'.workers[j] == s.workers[j])
    && (i in s'.workers ==>
          !s'.workers[i].Decoding? &&
          (s'.workers[i].Decoded? ==> s.workers[i].Decoding? && s'.workers[i].src == s.workers[i].src))
  }

  lemma EarlyMemory(prog: Task, n: nat, s: State, a: Action)
    requires Before(a) && WorkerStep(prog, n, s, a).Some?
    ensures LeavesMemory(s, WorkerStep(prog, n, s, a).value, a.i)
  {
    hide Region; hide Passes; hide Format.DecodeBody;
  }

  lemma TurnMemory(prog: Task, n: nat, s: State, a: Action)
    requires !OfMain(a) && !Before(a) && !a.PassOn? && WorkerStep(prog, n, s, a).Some?
    ensures LeavesMemory(s, WorkerStep(prog, n, s, a).value, a.i)
  {
  }

  lemma PassMemory(prog: Task, n: nat, s: State, i: nat)
    requires WorkerStep(prog, n, s, PassOn(i)).Some?
    ensures LeavesMemory(s, WorkerStep(prog, n, s, PassOn(i)).value, i)
  {
  }

  lemma WorkersLoaded(prog: Task, n: nat, s: State, a: Action)
    requires Loaded(prog, s) && !OfMain(a) && WorkerStep(prog, n, s, a).Some?
    ensures Loaded(prog, WorkerStep(prog, n, s, a).value)
  {
    hide WorkerStep;
    if Before(a) {
      EarlyMemory(prog, n, s, a);
    } else if a.PassOn? {
      PassMemory(prog, n, s, a.i);
    } else {
      TurnMemory(prog, n, s, a);
    }
  }

  // ---------- output ----------

  lemma SameOutput(outs: seq<Option<seq<Byte>>>, s: State, s': State, turn: nat)
    requires Written(outs, s, turn) && s'.pc == s.pc && s'.workers == s.workers && s'.out == s.out && s'.err == s.err
    ensures Written(outs, s', turn)
  {
    hide Output;
    FailuresSame(outs, s, s');
    hide Failures;
  }

  lemma FailuresSame(outs: seq<Option<seq<Byte>>>, s: State, s': State)
    requires s.pc <= |outs| && Failures(outs, s) && s'.pc == s.pc && s'.workers == s.workers && s'.err == s.err
    ensures Failures(outs, s')
  {
    if s.err {
      var j :| 0 <= j < s.pc && outs[j].None? && Settled(s, j + 1);
      assert Settled(s', j + 1);
    }
    forall j | 0 <= j < s'.pc && outs[j].None?
      ensures s'.err || Pending(s', j + 1)
    {
      assert s.err || Pending(s, j + 1);
    }
  }

  lemma MainOutput(prog: Task, n: nat, s: State, a: Action, outs: seq<Option<seq<Byte>>>, turn: nat)
    requires Turns(prog, s, turn) && Filled(prog, s, outs) && Written(outs, s, turn) && MainStep(prog, n, s, a).Some?
    ensures Written(outs, MainStep(prog, n, s, a).value, turn)
  {
    if a.Dispatch? {
      DispatchOutput(prog, n, s, outs, turn);
    } else {
      hide Turns; hide Filled; hide Written;
      SameOutput(outs, s, MainStep(prog, n, s, a).value, turn);
    }
  }

  lemma DispatchOutput(prog: Task, n: nat, s: State, outs: seq<Option<seq<Byte>>>, turn: nat)
    requires Turns(prog, s, turn) && Filled(prog, s, outs) && Written(outs, s, turn) &&
             MainStep(prog, n, s, Dispatch).Some?
    ensures Written(outs, MainStep(prog, n, s, Dispatch).value, turn)
  {
    assert |outs| == |prog.jobs|;
    hide Output; hide WorkerFilled; hide Raw; hide Possible;
    DispatchFailures(prog, n, s, outs);
    hide Failures; hide MainFilled;
    assert turn != s.pc + 1;
  }

  /** The new worker's block may still be refused, if that is what becomes of it. */
  lemma DispatchShape(prog: Task, n: nat, s: State, outs: seq<Option<seq<Byte>>>)
    requires s.pc < |outs| == |prog.jobs| && Possible(prog, outs) && MainFilled(prog, s)
    requires MainStep(prog, n, s, Dispatch).Some?
    ensures var s' := MainStep(prog, n, s, Dispatch).value;
            && s'.pc == s.pc + 1 && s'.err == s.err && s'.workers.Keys == s.workers.Keys + {s.pc + 1}
            && (forall i :: i in s.workers && i != s.pc + 1 ==> s'.workers[i] == s.workers[i])
            && (outs[s.pc].None? ==> Pending(s', s.pc + 1))
  {
    assert PossibleOut(prog.c, prog.jobs[s.pc], outs[s.pc]);
    hide Possible; hide Raw;
  }

  lemma DispatchFailures(prog: Task, n: nat, s: State, outs: seq<Option<seq<Byte>>>)
    requires s.pc < |outs| == |prog.jobs| && Failures(outs, s) && Possible(prog, outs) && MainFilled(prog, s)
    requires MainStep(prog, n, s, Dispatch).Some?
    ensures Failures(outs, MainStep(prog, n, s, Dispatch).value)
  {
    DispatchShape(prog, n, s, outs);
    var s' := MainStep(prog, n, s, Dispatch).value;
    hide Possible; hide MainStep; hide MainFilled; hide Undecided;
    if s.err {
      var j :| 0 <= j < s.pc && outs[j].None? && Settled(s, j + 1);
      assert Settled(s', j + 1);
    }
    forall j | 0 <= j < s'.pc && outs[j].None?
      ensures s'.err || Pending(s', j + 1)
    {
      if j < s.pc { assert s.err || Pending(s, j + 1); }
    }
  }

  /** What worker `i` writes is what came of its block. */
  lemma WrittenOut(prog: Task, n: nat, s: State, i: nat, outs: seq<Option<seq<Byte>>>)
    requires WorkerStep(prog, n, s, Write(i)).Some? && WorkerFilled(prog, outs, i, s.workers[i], s.heap)
    ensures i <= |outs|
    ensures WorkerStep(prog, n, s, Write(i)).value.out ==
            s.out + if i > 0 && outs[i - 1].Some? then outs[i - 1].value else []
  {
  }

  lemma WriteOutput(prog: Task, n: nat, s: State, i: nat, outs: seq<Option<seq<Byte>>>, turn: nat)
    requires Turns(prog, s, turn) && Filled(prog, s, outs) && Written(outs, s, turn) &&
             WorkerStep(prog, n, s, Write(i)).Some?
    requires i == turn
    ensures Written(outs, WorkerStep(prog, n, s, Write(i)).value, turn)
  {
    hide Filled; hide Turns; hide WorkerFilled; hide Failures;
    FilledAt(prog, s, outs, i);
    WrittenOut(prog, n, s, i, outs);
    var s' := WorkerStep(prog, n, s, Write(i)).value;
    assert s.out + [] == s.out;
    assert Done(s, turn) == (if turn == 0 then 0 else turn - 1) && Done(s', turn) == turn;
    FailuresKept(outs, s, s', i);
  }

  /** A step of one worker that keeps its block pending, or undecided, if it was. */
  lemma FailuresKept(outs: seq<Option<seq<Byte>>>, s: State, s': State, i: nat)
    requires s.pc <= |outs| && Failures(outs, s) && s'.pc == s.pc && s'.err == s.err
    requires i in s.workers && (Settled(s, i) ==> Settled(s', i)) && (Pending(s, i) ==> Pending(s', i))
    requires forall j :: j != i ==> (j in s'.workers <==> j in s.workers) &&
                                    (j in s.workers ==> s'.workers[j] == s.workers[j])
    ensures Failures(outs, s')
  {
    if s.err {
      var j :| 0 <= j < s.pc && outs[j].None? && Settled(s, j + 1);
      assert Settled(s', j + 1);
    }
    forall j | 0 <= j < s'.pc && outs[j].None?
      ensures s'.err || Pending(s', j + 1)
    {
      assert s.err || Pending(s, j + 1);
    }
  }

  lemma EarlyOutput(prog: Task, n: nat, s: State, a: Action, outs: seq<Option<seq<Byte>>>, turn: nat)
    requires (a.Decode? || a.Return? || a.Fail?) && Turns(prog, s, turn) && Written(outs, s, turn)
    requires WorkerStep(prog, n, s, a).Some?
    ensures Written(outs, WorkerStep(prog, n, s, a).value, turn)
  {
    hide Output; hide Failures; hide Turns; hide Region;
    FailuresKept(outs, s, WorkerStep(prog, n, s, a).value, a.i);
  }

  lemma SetErrOutput(prog: Task, n: nat, s: State, i: nat, outs: seq<Option<seq<Byte>>>, turn: nat)
    requires Turns(prog, s, turn) && Filled(prog, s, outs) && Written(outs, s, turn) &&
             WorkerStep(prog, n, s, SetErr(i)).Some?
    ensures Written(outs, WorkerStep(prog, n, s, SetErr(i)).value, turn)
  {
    var s' := WorkerStep(prog, n, s, SetErr(i)).value;
    assert WorkerFilled(prog, outs, i, s.workers[i], s.heap) && i <= s.pc;
    hide Output; hide Filled; hide Turns; hide Region;
    assert outs[i - 1].None? && Settled(s', i - 1 + 1);
  }

  lemma {:induction false} OutputOf(outs: seq<Option<seq<Byte>>>, j: nat, out: Option<seq<Byte>>, n: nat)
    requires n <= j < |outs|
    ensures Output(outs[j := out], n) == Output(outs, n)
  {
    if n > 0 { OutputOf(outs, j, out, n - 1); }
  }

  lemma CheckOutput(prog: Task, n: nat, s: State, i: nat, outs: seq<Option<seq<Byte>>>, turn: nat)
    requires Turns(prog, s, turn) && Written(outs, s, turn) && WorkerStep(prog, n, s, Check(i)).Some? &&
             |outs| == |prog.jobs|
    requires Decision(prog, s, i).Some? == Passes(prog, s, i)
    ensures Written(outs[i - 1 := Decision(prog, s, i)], WorkerStep(prog, n, s, Check(i)).value, turn)
  {
    assert turn <= i;
    hide Turns; hide Passes; hide Raw;
    var s', outs' := WorkerStep(prog, n, s, Check(i)).value, outs[i - 1 := Decision(prog, s, i)];
    OutputOf(outs, i - 1, outs'[i - 1], Done(s, turn));
    CheckFailures(prog, n, s, i, outs);
    hide Output; hide Failures;
  }

  lemma CheckFailures(prog: Task, n: nat, s: State, i: nat, outs: seq<Option<seq<Byte>>>)
    requires s.pc <= |outs| == |prog.jobs| && Failures(outs, s) && WorkerStep(prog, n, s, Check(i)).Some?
    requires Decision(prog, s, i).Some? == Passes(prog, s, i)
    ensures Failures(outs[i - 1 := Decision(prog, s, i)], WorkerStep(prog, n, s, Check(i)).value)
  {
    hide Passes; hide Raw;
    var s', outs' := WorkerStep(prog, n, s, Check(i)).value, outs[i - 1 := Decision(prog, s, i)];
    if s.err {
      var j :| 0 <= j < s.pc && outs[j].None? && Settled(s, j + 1);
      assert j + 1 != i && outs'[j].None? && Settled(s', j + 1);
    }
    forall j | 0 <= j < s'.pc && outs'[j].None?
      ensures s'.err || Pending(s', j + 1)
    {
      if j + 1 != i { assert s.err || Pending(s, j + 1); }
    }
  }

  lemma OtherShape(prog: Task, n: nat, s: State, a: Action, turn: nat)
    requires (a.GetTurn? || a.GiveBack? || a.FreeEntry?) && Turns(prog, s, turn)
    requires WorkerStep(prog, n, s, a).Some? && a.i == turn
    ensures var s' := WorkerStep(prog, n, s, a).value;
            && s'.pc == s.pc && s'.err == s.err && s'.out == s.out && Done(s', turn) == Done(s, turn)
            && turn in s.workers && turn in s'.workers && s'.workers == s.workers[turn := s'.workers[turn]]
            && (Settled(s, turn) ==> Settled(s', turn)) && (Pending(s, turn) ==> Pending(s', turn))
  {
    hide Turns;
  }

  lemma OtherOutput(prog: Task, n: nat, s: State, a: Action, outs: seq<Option<seq<Byte>>>, turn: nat)
    requires (a.GetTurn? || a.GiveBack? || a.FreeEntry?) && Turns(prog, s, turn) && Written(outs, s, turn)
    requires WorkerStep(prog, n, s, a).Some? && a.i == turn
    ensures Written(outs, WorkerStep(prog, n, s, a).value, turn)
  {
    hide Output; hide Failures; hide WorkerStep;
    OtherShape(prog, n, s, a, turn);
    FailuresKept(outs, s, WorkerStep(prog, n, s, a).value, turn);
  }

  lemma PassOutput(prog: Task, n: nat, s: State, i: nat, outs: seq<Option<seq<Byte>>>, turn: nat)
    requires Turns(prog, s, turn) && Written(outs, s, turn)
    requires WorkerStep(prog, n, s, PassOn(i)).Some? && i == turn
    ensures Written(outs, WorkerStep(prog, n, s, PassOn(i)).value, TurnAfter(s, PassOn(i), turn))
  {
    hide Output; hide Failures; hide Region;
    FailuresKept(outs, s, WorkerStep(prog, n, s, PassOn(i)).value, turn);
  }

  lemma StepKeeps(prog: Task, n: nat, s: State, a: Action, o: Ghost) returns (o': Ghost)
    requires Inv(prog, n, s, o) && Next(prog, n, s, a).Some?
    ensures Inv(prog, n, Next(prog, n, s, a).value, o')
  {
    hide Owned; hide Turns; hide Filled; hide Loaded; hide Written; hide MainStep; hide WorkerStep; hide TurnAfter;
    if OfMain(a) {
      o' := MainOwned(prog, n, s, a, o);
      MainTurnsToo(prog, n, s, a, o.outs, o.turn);
      MainContents(prog, n, s, a, o);
      MainLoaded(prog, n, s, a, o);
      MainOutput(prog, n, s, a, o.outs, o.turn);
    } else {
      WorkersLoaded(prog, n, s, a);
      if Before(a) {
        o' := EarlyKeeps(prog, n, s, a, o);
      } else {
        o' := WriterKeeps(prog, n, s, a, o);
      }
    }
  }

  lemma MainTurnsToo(prog: Task, n: nat, s: State, a: Action, outs: seq<Option<seq<Byte>>>, turn: nat)
    requires Turns(prog, s, turn) && Filled(prog, s, outs) && MainStep(prog, n, s, a).Some?
    ensures Turns(prog, MainStep(prog, n, s, a).value, turn)
  {
    hide Turns; hide MainStep;
    MainTurns(prog, n, s, a, turn);
  }

  /** The steps of a worker up to its error. */
  lemma EarlyKeeps(prog: Task, n: nat, s: State, a: Action, o: Ghost) returns (o': Ghost)
    requires Before(a) && Inv(prog, n, s, o) && WorkerStep(prog, n, s, a).Some?
    ensures var s' := WorkerStep(prog, n, s, a).value;
            Owned(n, s', o') && Turns(prog, s', o'.turn) && Filled(prog, s', o'.outs) && Written(o'.outs, s', o'.turn)
  {
    hide Owned; hide Turns; hide Filled; hide Loaded; hide Written; hide WorkerStep;
    EarlyTurns(prog, n, s, a, o.turn);
    match a {
      case Decode(i) =>
        QuietOwned(prog, n, s, a, o);
        DecodeContents(prog, n, s, i, o);
        EarlyOutput(prog, n, s, a, o.outs, o.turn);
        o' := o;
      case Return(i) =>
        o' := ReturnOwned(prog, n, s, i, o);
        WaitingContents(prog, n, s, a, o.outs);
        EarlyOutput(prog, n, s, a, o.outs, o.turn);
      case Check(i) => o' := CheckKeeps(prog, n, s, i, o);
      case Fail(i) =>
        o' := FailOwned(prog, n, s, i, o);
        WaitingContents(prog, n, s, a, o.outs);
        EarlyOutput(prog, n, s, a, o.outs, o.turn);
      case SetErr(i) =>
        QuietOwned(prog, n, s, a, o);
        WaitingContents(prog, n, s, a, o.outs);
        SetErrOutput(prog, n, s, i, o.outs, o.turn);
        o' := o;
    }
  }

  lemma CheckKeeps(prog: Task, n: nat, s: State, i: nat, o: Ghost) returns (o': Ghost)
    requires Inv(prog, n, s, o) && WorkerStep(prog, n, s, Check(i)).Some?
    ensures var s' := WorkerStep(prog, n, s, Check(i)).value;
            Owned(n, s', o') && o'.turn == o.turn && Filled(prog, s', o'.outs) && Written(o'.outs, s', o'.turn)
  {
    assert |o.outs| == |prog.jobs|;
    hide Owned; hide Turns; hide Filled; hide Loaded; hide Written;
    QuietOwned(prog, n, s, Check(i), o);
    var outs' := CheckContents(prog, n, s, i, o.outs);
    CheckOutput(prog, n, s, i, o.outs, o.turn);
    hide WorkerStep;
    o' := o.(outs := outs');
    OwnedAnyway(n, WorkerStep(prog, n, s, Check(i)).value, o, o');
  }

  /** The steps of the worker whose turn it is. */
  lemma WriterKeeps(prog: Task, n: nat, s: State, a: Action, o: Ghost) returns (o': Ghost)
    requires a.GetTurn? || a.Write? || a.GiveBack? || a.FreeEntry? || a.PassOn?
    requires Inv(prog, n, s, o) && WorkerStep(prog, n, s, a).Some?
    ensures var s' := WorkerStep(prog, n, s, a).value;
            Owned(n, s', o') && Turns(prog, s', o'.turn) && Filled(prog, s', o'.outs) && Written(o'.outs, s', o'.turn)
  {
    hide Owned; hide Turns; hide Filled; hide Loaded; hide Written; hide WorkerStep; hide TurnAfter;
    if a.GetTurn? || a.Write? {
      WaitingContents(prog, n, s, a, o.outs);
    } else {
      DoneContents(prog, n, s, a, o.outs);
    }
    match a {
      case GetTurn(i) =>
        QuietOwned(prog, n, s, a, o);
        GetTurns(prog, n, s, i, o);
        OtherOutput(prog, n, s, a, o.outs, o.turn);
        o' := o;
      case Write(i) =>
        QuietOwned(prog, n, s, a, o);
        WriterTurns(prog, n, s, a, o.turn);
        WriteOutput(prog, n, s, i, o.outs, o.turn);
        o' := o;
      case GiveBack(i) =>
        o' := GiveBackOwned(prog, n, s, i, o);
        WriterTurns(prog, n, s, a, o.turn);
        OtherOutput(prog, n, s, a, o.outs, o.turn);
      case FreeEntry(i) =>
        o' := FreeOwned(prog, n, s, i, o);
        WriterTurns(prog, n, s, a, o.turn);
        OtherOutput(prog, n, s, a, o.outs, o.turn);
      case PassOn(i) =>
        PassOwned(prog, n, s, i, o);
        PassTurns(prog, n, s, i, o.turn);
        PassOutput(prog, n, s, i, o.outs, o.turn);
        o' := o.(turn := TurnAfter(s, a, o.turn));
        OwnedAnyway(n, WorkerStep(prog, n, s, a).value, o, o');
    }
  }

  lemma OwnedAnyway(n: nat, s: State, o: Ghost, o': Ghost)
    requires Owned(n, s, o) && o' == o.(turn := o'.turn, outs := o'.outs)
    ensures Owned(n, s, o')
  {
  }

  // ---------- whole runs ----------

  function Exec(prog: Task, n: nat, s: State, run: seq<Action>): (r: Option<State>)
    decreases |run|
  {
    if run == [] then Some(s)
    else
      match Next(prog, n, s, run[0])
      case None => None
      case Some(s') => Exec(prog, n, s', run[1..])
  }

  lemma {:induction false} ExecKeeps(prog: Task, n: nat, s: State, run: seq<Action>, o: Ghost) returns (o': Ghost)
    requires Inv(prog, n, s, o) && Exec(prog, n, s, run).Some?
    ensures Inv(prog, n, Exec(prog, n, s, run).value, o')
    decreases |run|
  {
    hide Inv; hide Next;
    o' := o;
    if run != [] {
      o' := StepKeeps(prog, n, s, run[0], o);
      o' := ExecKeeps(prog, n, Next(prog, n, s, run[0]).value, run[1..], o');
    }
  }

  /** All goroutines are done. */
  predicate Finished(s: State) { s.main.Stopped? && s.workers == map[] }

  /**
   For every interleaving there are outcomes, of which only those of blocks with a checksum of their
   compressed data may not be what they should: what is written is the data of the first blocks, in order,
   of which a block that was refused has none. In the end, without an error, it is that of all blocks; and
   there is an error exactly if one of the blocks that were read was refused.
   */
  lemma OutputInOrder(prog: Task, n: nat, run: seq<Action>) returns (done: nat, outs: seq<Option<seq<Byte>>>)
    requires n >= 2 && Exec(prog, n, Start(n), run).Some?
    ensures Possible(prog, outs)
    ensures var s := Exec(prog, n, Start(n), run).value;
            && done <= s.pc <= |prog.jobs| && s.out == Output(outs, done)
            && (Finished(s) ==> done == s.pc && (s.err <==> exists j :: 0 <= j < s.pc && outs[j].None?))
            && (Finished(s) && !s.err ==> s.pc == |prog.jobs| && s.out == Output(outs, |prog.jobs|))
  {
    hide Owned; hide Exec; hide Output; hide Possible; hide Loaded; hide WorkerFilled;
    StartInv(prog, n);
    var o := ExecKeeps(prog, n, Start(n), run, StartGhost(prog, n));
    var s := Exec(prog, n, Start(n), run).value;
    done, outs := Done(s, o.turn), o.outs;
    assert |outs| == |prog.jobs| by { PossibleSize(prog, outs); }
  }

  lemma PossibleSize(prog: Task, outs: seq<Option<seq<Byte>>>)
    requires Possible(prog, outs)
    ensures |outs| == |prog.jobs|
  {
  }

  /** Who has the writer. */
  predicate HasWriter(p: Phase) { !BeforeTurn(p) }

  ghost predicate OnlyWriter(workers: map<nat, Phase>, i: nat) {
    forall j :: j in workers && j != i ==> !HasWriter(workers[j])
  }

  /** In every reachable state exactly one goroutine or entry has the writer, until all is done. */
  lemma OneWriter(prog: Task, n: nat, run: seq<Action>)
    requires n >= 2 && Exec(prog, n, Start(n), run).Some?
    ensures var s := Exec(prog, n, Start(n), run).value;
            if s.workers == map[] then s.inbox == multiset{}
            else if s.inbox == multiset{}
            then exists i :: i in s.workers && HasWriter(s.workers[i]) && OnlyWriter(s.workers, i)
            else |s.inbox| == 1 && forall i :: i in s.workers ==> !HasWriter(s.workers[i])
  {
    hide Owned; hide Exec; hide Filled; hide Written;
    StartInv(prog, n);
    var o := ExecKeeps(prog, n, Start(n), run, StartGhost(prog, n));
    var s := Exec(prog, n, Start(n), run).value;
    if o.turn !in s.workers {
      assert s.pc == o.turn;
      assert forall i :: i in s.workers ==> i == o.turn;
      assert s.workers.Keys == {};
    } else {
      assert forall i :: i in s.workers && i != o.turn ==> BeforeTurn(s.workers[i]);
    }
  }

  // ---------- nothing blocks for ever ----------

  /** A buffer or entry that somebody is about to send has room in its channel. */
  lemma WorkerRoom(n: nat, s: State, o: Ghost, i: nat)
    requires Owned(n, s, o) && i in s.workers
    ensures SrcOf(s.workers[i]).Some? ==> |s.toRead| <= n
    ensures DstOf(s.workers[i]).Some? ==> |s.written| <= n
    ensures EntryOf(s.workers[i]).Some? ==> |s.reUse| < n
  {
    Holds(s.workers, i);
    var p := s.workers[i];
    hide Srcs; hide Dsts; hide Entries; hide SrcOf; hide DstOf; hide EntryOf;
    if SrcOf(p).Some? {
      assert o.srcs[SrcOf(p).value] == Worker(i);
      Room(o.srcs, s.toRead, MainSrc(s.main), Srcs(s.workers), SrcOf(p).value);
    }
    if DstOf(p).Some? {
      assert o.dsts[DstOf(p).value] == Worker(i);
      Room(o.dsts, s.written, MainDst(s.main), Dsts(s.workers), DstOf(p).value);
    }
    if EntryOf(p).Some? {
      assert o.entries[EntryOf(p).value] == Worker(i);
      Room(o.entries, s.reUse, None, Entries(s.workers), EntryOf(p).value);
    }
  }

  /** An entry in the queue belongs to a worker; so one that is free is not among them. */
  lemma QueuedEntry(prog: Task, n: nat, s: State, o: Ghost, k: nat)
    requires Owned(n, s, o) && Turns(prog, s, o.turn) && k < |s.queue|
    ensures s.queue[k] < n && o.entries[s.queue[k]] == Worker(o.turn + 1 + k) && s.queue[k] !in s.reUse
  {
    hide Owned;
    var i := o.turn + 1 + k;
    assert i in s.workers && !s.workers[i].Passing? && s.workers[i].entry == s.queue[k];
    hide Turns;
    EntryOwner(n, s, o, i);
  }

  lemma EntryOwner(n: nat, s: State, o: Ghost, i: nat)
    requires Owned(n, s, o) && i in s.workers && !s.workers[i].Passing?
    ensures var e := s.workers[i].entry; e < n == |o.entries| && o.entries[e] == Worker(i) && e !in s.reUse
  {
    Holds(s.workers, i);
    hide Srcs; hide Dsts; hide Entries;
    assert o.entries[s.workers[i].entry] == Worker(i);
  }

  lemma QueueRoom(prog: Task, n: nat, s: State, o: Ghost)
    requires Owned(n, s, o) && Turns(prog, s, o.turn) && s.reUse != []
    ensures |s.queue| < n
  {
    hide Srcs; hide Dsts; hide Entries; hide Turns;
    assert s.reUse[0] in s.reUse;
    forall k | 0 <= k < |s.queue|
      ensures s.queue[k] < n && o.entries[s.queue[k]] == Worker(o.turn + 1 + k) && s.queue[k] !in s.reUse
    {
      QueuedEntry(prog, n, s, o, k);
    }
    assert s.reUse[0] < n;
    hide Owned;
    forall j, k | 0 <= j < k < |s.queue|
      ensures s.queue[j] != s.queue[k]
    {
      assert o.entries[s.queue[j]] != o.entries[s.queue[k]];
    }
    var others := Range(n) - {s.reUse[0]};
    assert Elements(s.queue) <= others;
    assert others == Elements(s.queue) + (others - Elements(s.queue));
  }

  /** With no worker holding one, and none with the reading goroutine, there is one in the channel. */
  lemma SomeLeft(own: seq<Owner>, pool: seq<nat>, held: map<nat, nat>)
    requires Conserved(own, pool, None, held) && held == map[] && |own| > 0
    ensures pool != []
  {
    match own[0] {
      case Pool => assert 0 in pool;
      case TheMain => assert false;
      case Worker(i) => assert false;
    }
  }

  lemma MainProgress(prog: Task, n: nat, s: State, o: Ghost) returns (a: Action)
    requires n >= 2 && Inv(prog, n, s, o) && !s.main.Stopped?
    requires s.workers.Keys == {o.turn} && s.workers[o.turn].Passing?
    ensures Next(prog, n, s, a).Some?
  {
    hide Written; hide WorkerStep;
    assert Srcs(s.workers) == map[] && Dsts(s.workers) == map[] && Entries(s.workers) == map[];
    hide Srcs; hide Dsts; hide Entries; hide Conserved;
    match s.main {
      case Reading => a := if s.err || s.pc == |prog.jobs| then Action.Stop else Begin;
      case Begun =>
        SomeLeft(o.srcs, s.toRead, map[]);
        SomeLeft(o.dsts, s.written, map[]);
        a := if prog.jobs[s.pc].Packed? then TakeSrc else TakeDst;
      case HasSrc(_) =>
        SomeLeft(o.dsts, s.written, map[]);
        a := TakeDst;
      case HasDst(_, _) =>
        SomeLeft(o.entries, s.reUse, map[]);
        QueueRoom(prog, n, s, o);
        a := Dispatch;
      case Stopped =>
    }
  }

  lemma AllDone(prog: Task, s: State, turn: nat)
    requires Turns(prog, s, turn) && turn !in s.workers
    ensures Finished(s)
  {
    assert forall i :: i in s.workers ==> i == turn;
    assert s.workers.Keys == {};
  }

  lemma FilledAt(prog: Task, s: State, outs: seq<Option<seq<Byte>>>, i: nat)
    requires Filled(prog, s, outs) && i in s.workers
    ensures WorkerFilled(prog, outs, i, s.workers[i], s.heap)
  {
    hide WorkerFilled; hide Possible; hide MainFilled;
  }

  lemma LoadedAt(prog: Task, s: State, i: nat)
    requires Loaded(prog, s) && i in s.workers
    ensures WorkerLoaded(prog, i, s.workers[i], s.memory, s.at)
  {
    hide WorkerLoaded; hide Holding;
  }

  lemma InboxAt(prog: Task, s: State, turn: nat)
    requires Turns(prog, s, turn) && turn in s.workers && BeforeTurn(s.workers[turn])
    ensures s.workers[turn].entry in s.inbox
  {
  }

  lemma WorkerProgress(prog: Task, n: nat, s: State, o: Ghost) returns (a: Action)
    requires Inv(prog, n, s, o) && o.turn in s.workers && !s.workers[o.turn].Passing?
    ensures Next(prog, n, s, a).Some?
  {
    hide Owned; hide Turns; hide Filled; hide Loaded; hide Written; hide MainStep; hide Region; hide Passes;
    hide BufFilled; hide Unpacked;
    var t := o.turn;
    FilledAt(prog, s, o.outs, t);
    LoadedAt(prog, s, t);
    if BeforeTurn(s.workers[t]) { InboxAt(prog, s, t); }
    WorkerRoom(n, s, o, t);
    match s.workers[t] {
      case Decoding(_, _, _) => a := Decode(t);
      case Decoded(_, _, _, _) => a := Return(t);
      case Checking(_, _, _, _) => a := Check(t);
      case Failing(_, _) => a := Fail(t);
      case Erring(_) => a := SetErr(t);
      case Waiting(_, _) => a := GetTurn(t);
      case Writing(_, _) => a := Write(t);
      case Wrote(_, _) => a := GiveBack(t);
      case Freeing(_) => a := FreeEntry(t);
    }
  }

  /** Until all goroutines are done, some step is enabled. */
  lemma Progress(prog: Task, n: nat, s: State, o: Ghost) returns (a: Action)
    requires n >= 2 && Inv(prog, n, s, o) && !Finished(s)
    ensures Next(prog, n, s, a).Some?
  {
    hide Owned; hide Written; hide Filled; hide Loaded; hide MainStep;
    var t := o.turn;
    if t !in s.workers {
      AllDone(prog, s, t);
      assert false;
    } else if !s.workers[t].Passing? {
      a := WorkerProgress(prog, n, s, o);
    } else if s.queue != [] || s.main.Stopped? {
      a := PassOn(t);
    } else {
      assert forall i :: i in s.workers ==> i == t;
      assert s.workers.Keys == {t};
      a := MainProgress(prog, n, s, o);
    }
  }

  /** Work left to do, of which every step does some. */
  function PhaseWork(p: Phase): (r: nat) {
    match p
    case Decoding(_, _, _) => 10
    case Decoded(_, _, _, _) => 9
    case Checking(_, _, _, _) => 8
    case Failing(_, _) => 7
    case Erring(_) => 6
    case Waiting(_, _) => 5
    case Writing(_, _) => 4
    case Wrote(_, _) => 3
    case Freeing(_) => 2
    case Passing => 1
  }

  function TotalWork(workers: map<nat, Phase>, n: nat): (r: nat) {
    if n == 0 then 0 else TotalWork(workers, n - 1) + if n - 1 in workers then PhaseWork(workers[n - 1]) else 0
  }

  function Work(prog: Task, s: State): (r: int) {
    14 * (|prog.jobs| - s.pc) + TotalWork(s.workers, |prog.jobs| + 1)
    + (match s.main case Reading => 4 case Begun => 3 case HasSrc(_) => 2 case HasDst(_, _) => 1 case Stopped => 0)
  }

  lemma {:induction false} WorkChanges(workers: map<nat, Phase>, workers': map<nat, Phase>, i: nat, n: nat)
    requires forall j :: j != i ==> (j in workers <==> j in workers') && (j in workers ==> workers[j] == workers'[j])
    ensures TotalWork(workers', n) - TotalWork(workers, n) ==
            if i < n
            then (if i in workers' then PhaseWork(workers'[i]) else 0)
                 - (if i in workers then PhaseWork(workers[i]) else 0)
            else 0
  {
    if n > 0 { WorkChanges(workers, workers', i, n - 1); }
  }

  /** Worker `i`, and no other, has gone on to a later phase. */
  ghost predicate MovedOn(s: State, s': State, i: nat) {
    && s'.pc == s.pc && s'.main == s.main && i in s.workers
    && (forall j :: j != i ==> (j in s.workers <==> j in s'.workers) &&
                               (j in s.workers ==> s.workers[j] == s'.workers[j]))
    && (if i in s'.workers then PhaseWork(s'.workers[i]) else 0) < PhaseWork(s.workers[i])
  }

  lemma EarlyMovesOn(prog: Task, n: nat, s: State, a: Action)
    requires (Before(a) || a.GetTurn?) && WorkerStep(prog, n, s, a).Some?
    ensures MovedOn(s, WorkerStep(prog, n, s, a).value, a.i)
  {
  }

  lemma WriterMovesOn(prog: Task, n: nat, s: State, a: Action)
    requires (a.Write? || a.GiveBack?) && WorkerStep(prog, n, s, a).Some?
    ensures MovedOn(s, WorkerStep(prog, n, s, a).value, a.i)
  {
  }

  lemma LastMovesOn(prog: Task, n: nat, s: State, a: Action)
    requires (a.FreeEntry? || a.PassOn?) && WorkerStep(prog, n, s, a).Some?
    ensures MovedOn(s, WorkerStep(prog, n, s, a).value, a.i)
  {
  }

  lemma InWorkers(prog: Task, n: nat, s: State, a: Action)
    requires !OfMain(a) && WorkerStep(prog, n, s, a).Some?
    ensures a.i in s.workers
  {
  }

  lemma WorkerWork(prog: Task, n: nat, s: State, a: Action)
    requires !OfMain(a) && WorkerStep(prog, n, s, a).Some? && a.i <= |prog.jobs|
    ensures a.i in s.workers && Work(prog, WorkerStep(prog, n, s, a).value) < Work(prog, s)
  {
    hide TotalWork; hide WorkerStep; hide PhaseWork;
    if Before(a) || a.GetTurn? {
      EarlyMovesOn(prog, n, s, a);
    } else if a.Write? || a.GiveBack? {
      WriterMovesOn(prog, n, s, a);
    } else {
      LastMovesOn(prog, n, s, a);
    }
    WorkChanges(s.workers, WorkerStep(prog, n, s, a).value.workers, a.i, |prog.jobs| + 1);
  }

  lemma DispatchWork(prog: Task, n: nat, s: State, turn: nat)
    requires Turns(prog, s, turn) && MainFilled(prog, s) && MainStep(prog, n, s, Dispatch).Some?
    ensures Work(prog, MainStep(prog, n, s, Dispatch).value) < Work(prog, s)
  {
    assert s.pc + 1 !in s.workers;
    hide Turns; hide TotalWork;
    WorkChanges(s.workers, MainStep(prog, n, s, Dispatch).value.workers, s.pc + 1, |prog.jobs| + 1);
  }

  lemma MainWork(prog: Task, n: nat, s: State, a: Action)
    requires OfMain(a) && !a.Dispatch? && MainStep(prog, n, s, a).Some?
    ensures Work(prog, MainStep(prog, n, s, a).value) < Work(prog, s)
  {
    hide TotalWork;
  }

  lemma WorkNatural(prog: Task, s: State)
    requires s.pc <= |prog.jobs|
    ensures 0 <= Work(prog, s)
  {
  }

  /** So every run ends. */
  lemma WorkDecreases(prog: Task, n: nat, s: State, a: Action, turn: nat)
    requires Turns(prog, s, turn) && MainFilled(prog, s) && Next(prog, n, s, a).Some?
    ensures 0 <= Work(prog, s) && Work(prog, Next(prog, n, s, a).value) < Work(prog, s)
  {
    hide TotalWork; hide WorkerStep; hide MainStep;
    if a.Dispatch? {
      DispatchWork(prog, n, s, turn);
    } else if OfMain(a) {
      MainWork(prog, n, s, a);
    } else {
      assert a.i in s.workers by { InWorkers(prog, n, s, a); }
      WorkerWork(prog, n, s, a);
    }
    hide Turns;
    WorkNatural(prog, s);
  }
}
