/**
 writer.go with concurrency above one: the calling goroutine, a goroutine per block and the writer
 goroutine, as a state machine over all their interleavings.

 The program of a `Writer` is the sequence of operations its calls come down to. Operation number `i`
 is also the number of the channel (`chan result`) that is queued for it. Block goroutines work in
 pooled buffers, whose contents are looked up when the writer goroutine writes them out, so that a
 buffer handed back too early would show in the output. Write errors are not part of this model.
 */
module ConcurrentWriter {
  import opened Bytes
  import opened Stream

  type Buf = nat

  /**
   `Header`: the stream header through the queue. `CopyBlock`: a block of `write` or `writeFull`, whose
   input sits in a pooled buffer. `Block`: one of `EncodeBuffer`, encoded from the caller's slice.
   `User`: a user chunk. `FlushOp`: the empty result that `Flush` waits for. `Direct`: the header and
   first block that `AsyncFlush` writes itself when there was no header yet.
   */
  datatype Op = Header(b: seq<Byte>) | CopyBlock(u: seq<Byte>) | Block(u: seq<Byte>) | User(b: seq<Byte>)
              | FlushOp | Direct(b: seq<Byte>, u: seq<Byte>)

  function OpBytes(k: Codec, op: Op): (r: seq<Byte>) {
    match op
    case Header(b) => b
    case CopyBlock(u) => DataChunk(k, u)
    case Block(u) => DataChunk(k, u)
    case User(b) => b
    case FlushOp => []
    case Direct(b, u) => b + DataChunk(k, u)
  }

  function OpInput(op: Op): (r: seq<Byte>) {
    match op
    case CopyBlock(u) => u
    case Block(u) => u
    case Direct(_, u) => u
    case _ => []
  }

  /** What a synchronous writer would have written after the first `n` operations. */
  function Sequential(k: Codec, prog: seq<Op>, n: nat): (r: seq<Byte>)
    requires n <= |prog|
  {
    if n == 0 then [] else Sequential(k, prog, n - 1) + OpBytes(k, prog[n - 1])
  }

  /** The uncompressed bytes that the first `n` operations carry. */
  function Input(prog: seq<Op>, n: nat): (r: seq<Byte>)
    requires n <= |prog|
  {
    if n == 0 then [] else Input(prog, n - 1) + OpInput(prog[n - 1])
  }

  /** A direct write happens only before anything but flushes. */
  ghost predicate Valid(prog: seq<Op>) {
    forall i, j {:trigger prog[i], prog[j]} :: 0 <= i < j < |prog| && prog[j].Direct? ==> prog[i].FlushOp?
  }

  /** A goroutine that encodes one block: at work, waiting to hand over `res`, or about to recycle `spare`. */
  datatype Worker = Encoding(inb: Option<Buf>, obuf: Buf) | Sending(res: Buf, rest: Option<Buf>) | Tidying(spare: Buf)

  datatype Result = Raw(b: seq<Byte>) | Pooled(buf: Buf)

  /** The writer goroutine, with the operation it is busy with. */
  datatype Phase = Idle | Waiting(i: nat) | Holding(i: nat, res: Result) | Written(i: nat, res: Result)

  /** The calling goroutine: free, sending a result on its own channel, or waiting for a flush. */
  datatype Caller = Free | SendingResult | Flushing

  datatype State = State(
    pc: nat, caller: Caller, queue: seq<nat>, chans: map<nat, Buf>, workers: map<nat, Worker>,
    writer: Phase, out: seq<Byte>, written: nat, index: seq<(nat, nat)>, closed: nat,
    heap: map<Buf, seq<Byte>>, pool: set<Buf>)

  const START := State(0, Free, [], map[], map[], Idle, [], 0, [], 0, map[], {})

  /**
   The possible steps. `Issue` starts the next operation of the program, with the buffers it gets from
   the pool; `Recycle` says whether the writer goroutine finds the buffer large enough to keep.
   */
  datatype Action = Issue(b1: Buf, b2: Buf) | FlushReturns | Take | Receive | Write | Recycle(keep: bool)
                  | Encode(i: nat) | Tidy(i: nat)

  /** A buffer from the pool, or a new one. */
  predicate Gettable(s: State, b: Buf) { b in s.pool || b !in s.heap }

  function Issued(k: Codec, prog: seq<Op>, capacity: nat, s: State, b1: Buf, b2: Buf): (r: Option<State>)
  {
    if !(s.pc < |prog| && s.caller.Free?) then None
    else
      var i, full := s.pc, |s.queue| >= capacity;
      var q := s.(pc := i + 1, queue := s.queue + [i]);
      match prog[i]
      case Direct(b, u) =>
        Some(s.(pc := i + 1, out := s.out + b + DataChunk(k, u), index := s.index + [(s.written + |b|, 0)],
                written := s.written + |b| + |DataChunk(k, u)|, closed := i + 1))
      case Header(_) => if full then None else Some(q.(caller := SendingResult))
      case FlushOp => if full then None else Some(q.(caller := SendingResult))
      case User(b) =>
        if full || !Gettable(s, b1) then None
        else Some(q.(chans := s.chans[i := b1], heap := s.heap[b1 := b], pool := s.pool - {b1}))
      case Block(u) =>
        if full || !Gettable(s, b1) then None
        else Some(q.(workers := s.workers[i := Encoding(None, b1)], heap := s.heap[b1 := []], pool := s.pool - {b1}))
      case CopyBlock(u) =>
        if full || !Gettable(s, b1) || !Gettable(s, b2) || b1 == b2 then None
        else Some(q.(workers := s.workers[i := Encoding(Some(b1), b2)], heap := Filled2(s.heap, b1, u, b2),
                     pool := s.pool - {b1, b2}))
  }

  /** The two buffers of a copied block: its input, and one for the output. */
  function Filled2(heap: map<Buf, seq<Byte>>, b1: Buf, u: seq<Byte>, b2: Buf): (r: map<Buf, seq<Byte>>) {
    heap[b1 := u][b2 := []]
  }

  /** The writer goroutine receives the result for the operation it waits for, if its sender is ready. */
  function Received(k: Codec, prog: seq<Op>, s: State): (r: Option<State>)
  {
    if !s.writer.Waiting? then None
    else
      var i := s.writer.i;
      if s.caller.SendingResult? && i + 1 == s.pc && i < |prog| then
        Some(s.(writer := Holding(i, Raw(OpBytes(k, prog[i]))),
                caller := if prog[i].FlushOp? then Flushing else Free))
      else if i in s.chans then Some(s.(writer := Holding(i, Pooled(s.chans[i])), chans := s.chans - {i}))
      else if i in s.workers && s.workers[i].Sending? then
        var w := s.workers[i];
        Some(s.(writer := Holding(i, Pooled(w.res)),
                workers := match w.rest case None => s.workers - {i} case Some(b) => s.workers[i := Tidying(b)]))
      else None
  }

  function Contents(s: State, res: Result): (r: seq<Byte>) {
    match res
    case Raw(b) => b
    case Pooled(buf) => if buf in s.heap then s.heap[buf] else []
  }

  /**
   A block goroutine encodes: into its output buffer if that succeeds, otherwise the input buffer, or a
   copy of the caller's slice, becomes the stored chunk.
   */
  function Encoded(k: Codec, prog: seq<Op>, s: State, i: nat): (r: Option<State>)
  {
    if !(i in s.workers && s.workers[i].Encoding? && i < |prog|) then None
    else
      match s.workers[i].inb
      case None =>
        Some(s.(workers := s.workers[i := Sending(s.workers[i].obuf, None)],
                heap := s.heap[s.workers[i].obuf := DataChunk(k, OpInput(prog[i]))]))
      case Some(inb) =>
        var u := if inb in s.heap then s.heap[inb] else [];
        var obuf := s.workers[i].obuf;
        var res, spare := if k.encode(u) != [] then obuf else inb, if k.encode(u) != [] then inb else obuf;
        Some(s.(workers := s.workers[i := Sending(res, Some(spare))], heap := s.heap[res := DataChunk(k, u)]))
  }

  /** The state after a step; `None` if it is not enabled. */
  function Next(k: Codec, prog: seq<Op>, capacity: nat, s: State, a: Action): (r: Option<State>)
  {
    match a
    case Issue(b1, b2) => Issued(k, prog, capacity, s, b1, b2)
    case FlushReturns =>
      if s.caller.Flushing? && s.closed >= s.pc then Some(s.(caller := Free)) else None
    case Take =>
      if s.writer.Idle? && |s.queue| > 0 then Some(s.(writer := Waiting(s.queue[0]), queue := s.queue[1..])) else None
    case Receive => Received(k, prog, s)
    case Write =>
      if !(s.writer.Holding? && s.writer.i < |prog|) then None
      else
        var b := Contents(s, s.writer.res);
        var done := s.(writer := Written(s.writer.i, s.writer.res));
        if |b| == 0 then Some(done)
        else Some(done.(out := s.out + b, written := s.written + |b|,
                        index := s.index + [(s.written, |Input(prog, s.writer.i)|)]))
    case Recycle(keep) =>
      if !s.writer.Written? then None
      else
        var pool := match s.writer.res case Pooled(b) => if keep then s.pool + {b} else s.pool case Raw(_) => s.pool;
        Some(s.(writer := Idle, pool := pool, closed := s.writer.i + 1))
    case Encode(i) => Encoded(k, prog, s, i)
    case Tidy(i) =>
      if i in s.workers && s.workers[i].Tidying? then
        Some(s.(workers := s.workers - {i}, pool := s.pool + {s.workers[i].spare}))
      else None
  }

  // ---------- the invariant ----------

  /** Who may touch a buffer. */
  datatype Owner = Nobody | Goroutine(i: nat) | Channel(i: nat) | TheWriter

  /** Operations that the writer goroutine has taken from the queue. */
  function Taken(s: State): (r: nat) { if s.writer.Idle? then s.closed else s.writer.i + 1 }

  /** Operations whose output is written. */
  function Done(s: State): (r: nat) {
    match s.writer
    case Idle => s.closed
    case Waiting(i) => i
    case Holding(i, _) => i
    case Written(i, _) => i + 1
  }

  /** Operations whose result the writer goroutine has received. */
  function Arrived(s: State): (r: nat) { if s.writer.Holding? then s.writer.i + 1 else Done(s) }

  ghost predicate Control(prog: seq<Op>, s: State) {
    && Taken(s) <= s.pc <= |prog|
    && (!s.writer.Idle? ==> s.closed == s.writer.i)
    && |s.queue| == s.pc - Taken(s) && (forall j :: 0 <= j < |s.queue| ==> s.queue[j] == Taken(s) + j)
    && (s.caller.SendingResult? ==>
          s.pc > Arrived(s) && (prog[s.pc - 1].Header? || prog[s.pc - 1].FlushOp?))
    && (s.caller.Free? && s.pc > 0 && prog[s.pc - 1].FlushOp? ==> s.closed == s.pc)
  }

  /** Each operation still to arrive has exactly the sender its kind calls for. */
  ghost predicate Senders(prog: seq<Op>, s: State)
    requires s.pc <= |prog|
  {
    && (forall i {:trigger prog[i]} :: Arrived(s) <= i < s.pc ==>
          match prog[i]
          case Header(_) => s.caller.SendingResult? && s.pc == i + 1
          case FlushOp => s.caller.SendingResult? && s.pc == i + 1
          case User(_) => i in s.chans
          case Direct(_, _) => false
          case _ => i in s.workers && !s.workers[i].Tidying?)
    && (!s.writer.Idle? ==> s.writer.i < s.pc && !prog[s.writer.i].Direct?)
    && (forall i :: i in s.chans ==> Arrived(s) <= i < s.pc && prog[i].User?)
    && (forall i :: i in s.workers ==>
          i < s.pc && (prog[i].Block? || prog[i].CopyBlock?) && (s.workers[i].Tidying? || Arrived(s) <= i))
  }

  function WorkerBufs(w: Worker): (r: set<Buf>) {
    match w
    case Encoding(inb, obuf) => (match inb case None => {obuf} case Some(b) => {b, obuf})
    case Sending(res, rest) => (match rest case None => {res} case Some(b) => {b, res})
    case Tidying(spare) => {spare}
  }

  /** The pooled buffer that the writer goroutine has in hand. */
  function InHand(s: State): (r: Option<Buf>) {
    if (s.writer.Holding? || s.writer.Written?) && s.writer.res.Pooled? then Some(s.writer.res.buf) else None
  }

  /** No buffer has two users, and one in the pool has none. */
  ghost predicate Owners(workers: map<nat, Worker>, chans: map<nat, Buf>, held: Option<Buf>, pool: set<Buf>,
                         own: map<Buf, Owner>) {
    && (forall b :: b in pool ==> b in own && own[b] == Nobody)
    && (forall i, b :: i in workers && b in WorkerBufs(workers[i]) ==> b in own && own[b] == Goroutine(i))
    && (forall i :: i in chans ==> chans[i] in own && own[chans[i]] == Channel(i))
    && (held.Some? ==> held.value in own && own[held.value] == TheWriter)
  }

  ghost predicate Owned(s: State, own: map<Buf, Owner>) {
    own.Keys == s.heap.Keys && Owners(s.workers, s.chans, InHand(s), s.pool, own)
  }

  /** What a goroutine expects in its buffers. */
  ghost predicate WorkerFilled(k: Codec, op: Op, w: Worker, heap: map<Buf, seq<Byte>>) {
    match w
    case Encoding(inb, obuf) =>
      (match inb
       case None => op.Block?
       case Some(b) => op.CopyBlock? && b in heap && heap[b] == op.u && b != obuf)
    case Sending(res, rest) => res in heap && heap[res] == OpBytes(k, op) && rest != Some(res)
    case Tidying(_) => true
  }

  ghost predicate BufsFilled(k: Codec, prog: seq<Op>, workers: map<nat, Worker>, chans: map<nat, Buf>,
                             heap: map<Buf, seq<Byte>>) {
    && (forall i :: i in chans ==> i < |prog| && chans[i] in heap && heap[chans[i]] == OpBytes(k, prog[i]))
    && (forall i :: i in workers ==> i < |prog| && WorkerFilled(k, prog[i], workers[i], heap))
  }

  ghost predicate HandFilled(k: Codec, prog: seq<Op>, writer: Phase, heap: map<Buf, seq<Byte>>) {
    writer.Holding? ==>
      && writer.i < |prog|
      && match writer.res
         case Raw(b) => b == OpBytes(k, prog[writer.i])
         case Pooled(buf) => buf in heap && heap[buf] == OpBytes(k, prog[writer.i])
  }

  /** Buffers hold what their user expects to find there. */
  ghost predicate Filled(k: Codec, prog: seq<Op>, s: State) {
    BufsFilled(k, prog, s.workers, s.chans, s.heap) && HandFilled(k, prog, s.writer, s.heap)
  }

  /** An index entry points to where a chunk starts, and says how much input precedes it. */
  ghost predicate Truthful(k: Codec, prog: seq<Op>, e: (nat, nat)) {
    exists n: nat :: n < |prog| && e.1 == |Input(prog, n)| && e.0 == |Sequential(k, prog, n)| + HeaderPart(prog[n])
  }

  function HeaderPart(op: Op): (r: nat) { if op.Direct? then |op.b| else 0 }

  /**
   Whether operation `n` gets an index entry. The writer goroutine adds one for `every` result that has bytes;
   without it there is none for the header, nor for user chunks in front of all data.
   */
  predicate Indexed(prog: seq<Op>, n: nat, every: bool)
    requires n < |prog|
  {
    match prog[n]
    case FlushOp => false
    case Header(b) => every && b != []
    case User(b) => b != [] && (every || Input(prog, n) != [])
    case _ => true
  }

  function EntryFor(k: Codec, prog: seq<Op>, n: nat): (r: (nat, nat))
    requires n < |prog|
  {
    (|Sequential(k, prog, n)| + HeaderPart(prog[n]), |Input(prog, n)|)
  }

  /** The entries of the first `n` operations: one for each block among them, in order. */
  function Entries(k: Codec, prog: seq<Op>, n: nat, every: bool): (r: seq<(nat, nat)>)
    requires n <= |prog|
  {
    if n == 0 then []
    else Entries(k, prog, n - 1, every) + if Indexed(prog, n - 1, every) then [EntryFor(k, prog, n - 1)] else []
  }

  lemma {:induction false} EntriesTrue(k: Codec, prog: seq<Op>, n: nat, every: bool, j: nat)
    requires n <= |prog| && j < |Entries(k, prog, n, every)|
    ensures Truthful(k, prog, Entries(k, prog, n, every)[j])
  {
    hide Truthful; hide EntryFor; hide Indexed;
    var before := Entries(k, prog, n - 1, every);
    if j < |before| {
      EntriesTrue(k, prog, n - 1, every, j);
    } else {
      EntryTrue(k, prog, n - 1);
    }
  }

  lemma EntryTrue(k: Codec, prog: seq<Op>, n: nat)
    requires n < |prog|
    ensures Truthful(k, prog, EntryFor(k, prog, n))
  {
    hide Sequential; hide Input;
  }

  ghost predicate OutputIs(k: Codec, prog: seq<Op>, done: nat, out: seq<Byte>, written: nat, index: seq<(nat, nat)>,
                           every: bool)
  {
    && done <= |prog|
    && out == Sequential(k, prog, done) && written == |out|
    && index == Entries(k, prog, done, every)
  }

  ghost predicate Output(k: Codec, prog: seq<Op>, s: State) {
    OutputIs(k, prog, Done(s), s.out, s.written, s.index, true)
  }

  lemma IndexedAll(k: Codec, prog: seq<Op>, n: nat)
    requires n < |prog| && !prog[n].Direct?
    ensures Indexed(prog, n, true) <==> OpBytes(k, prog[n]) != []
  {
  }

  ghost predicate Inv(k: Codec, prog: seq<Op>, s: State, own: map<Buf, Owner>) {
    Control(prog, s) && Senders(prog, s) && Owned(s, own) && Filled(k, prog, s) && Output(k, prog, s)
  }

  lemma StartInv(k: Codec, prog: seq<Op>)
    ensures Inv(k, prog, START, map[])
  {
  }

  lemma {:induction false} OnlyFlushes(k: Codec, prog: seq<Op>, n: nat)
    requires n <= |prog| && forall i :: 0 <= i < n ==> prog[i].FlushOp?
    ensures Sequential(k, prog, n) == [] && Input(prog, n) == []
  {
    if n > 0 { OnlyFlushes(k, prog, n - 1); }
  }

  // ---------- every step keeps it ----------

  /** The direct write is safe: nothing is queued, and the writer goroutine is idle. */
  lemma DirectSafe(prog: seq<Op>, s: State)
    requires Valid(prog) && Control(prog, s) && s.caller.Free? && s.pc < |prog| && prog[s.pc].Direct?
    ensures s.queue == [] && s.writer.Idle? && s.closed == s.pc
    ensures forall j :: 0 <= j < s.pc ==> prog[j].FlushOp?
  {
    var i := s.pc;
    if i > 0 { assert prog[i - 1].FlushOp?; }
  }

  /** Writing out operation `n`: the output grows by its bytes, and the index by its entry, if it has one. */
  lemma OutputGrows(k: Codec, prog: seq<Op>, n: nat, out: seq<Byte>, written: nat, index: seq<(nat, nat)>, every: bool)
    requires OutputIs(k, prog, n, out, written, index, every) && n < |prog|
    ensures Sequential(k, prog, n + 1) == out + OpBytes(k, prog[n])
    ensures var e := (written + HeaderPart(prog[n]), |Input(prog, n)|);
            OutputIs(k, prog, n + 1, out + OpBytes(k, prog[n]), written + |OpBytes(k, prog[n])|,
                     if Indexed(prog, n, every) then index + [e] else index, every)
  {
    hide OpBytes; hide Indexed; hide HeaderPart; hide Input; hide Entries; hide Sequential;
    OneEntry(k, prog, n, every);
    assert index + [] == index;
  }

  lemma OneEntry(k: Codec, prog: seq<Op>, n: nat, every: bool)
    requires n < |prog|
    ensures Sequential(k, prog, n + 1) == Sequential(k, prog, n) + OpBytes(k, prog[n])
    ensures Entries(k, prog, n + 1, every) ==
              Entries(k, prog, n, every) + if Indexed(prog, n, every) then [EntryFor(k, prog, n)] else []
  {
    hide OpBytes; hide Indexed; hide EntryFor;
  }

  lemma DirectKeeps(k: Codec, prog: seq<Op>, capacity: nat, s: State, b1: Buf, b2: Buf, own: map<Buf, Owner>)
    requires Valid(prog) && Inv(k, prog, s, own) && s.pc < |prog| && prog[s.pc].Direct?
    requires Issued(k, prog, capacity, s, b1, b2).Some?
    ensures Inv(k, prog, Issued(k, prog, capacity, s, b1, b2).value, own)
  {
    hide DataChunk; hide OutputIs; hide Owners; hide BufsFilled;
    var i := s.pc;
    DirectSafe(prog, s);
    OnlyFlushes(k, prog, i);
    OutputGrows(k, prog, i, s.out, s.written, s.index, true);
    hide Valid;
    var s' := Issued(k, prog, capacity, s, b1, b2).value;
    assert s'.out == s.out + OpBytes(k, prog[i]);
    assert s'.index == s.index + [(s.written + HeaderPart(prog[i]), |Input(prog, i)|)];
  }

  // ---------- buffers change hands ----------

  lemma GrantWorker(workers: map<nat, Worker>, chans: map<nat, Buf>, held: Option<Buf>, pool: set<Buf>,
                    own: map<Buf, Owner>,
                    i: nat, w: Worker) returns (own': map<Buf, Owner>)
    requires Owners(workers, chans, held, pool, own) && i !in workers
    requires forall b :: b in WorkerBufs(w) ==> b in pool || b !in own
    ensures own'.Keys == own.Keys + WorkerBufs(w)
    ensures forall b :: b in own && b !in WorkerBufs(w) ==> own'[b] == own[b]
    ensures Owners(workers[i := w], chans, held, pool - WorkerBufs(w), own')
  {
    own' := map b | b in own.Keys + WorkerBufs(w) :: if b in WorkerBufs(w) then Goroutine(i) else own[b];
  }

  lemma GrantChannel(workers: map<nat, Worker>, chans: map<nat, Buf>, held: Option<Buf>, pool: set<Buf>,
                     own: map<Buf, Owner>,
                     i: nat, b: Buf)
    requires Owners(workers, chans, held, pool, own) && i !in chans && (b in pool || b !in own)
    ensures Owners(workers, chans[i := b], held, pool - {b}, own[b := Channel(i)])
  {
  }

  lemma KeepWorker(workers: map<nat, Worker>, chans: map<nat, Buf>, held: Option<Buf>, pool: set<Buf>,
                   own: map<Buf, Owner>,
                   i: nat, w: Worker)
    requires Owners(workers, chans, held, pool, own) && i in workers && WorkerBufs(w) <= WorkerBufs(workers[i])
    ensures Owners(workers[i := w], chans, held, pool, own)
  {
  }

  lemma DropWorker(workers: map<nat, Worker>, chans: map<nat, Buf>, held: Option<Buf>, pool: set<Buf>,
                   own: map<Buf, Owner>, i: nat)
    requires Owners(workers, chans, held, pool, own)
    ensures Owners(workers - {i}, chans, held, pool, own)
  {
    var rest := workers - {i};
    forall j, b | j in rest && b in WorkerBufs(rest[j])
      ensures b in own && own[b] == Goroutine(j)
    {
      assert j in workers && b in WorkerBufs(workers[j]);
    }
  }

  /** A buffer without other users goes to the writer goroutine, or back to the pool. */
  lemma Hand(workers: map<nat, Worker>, chans: map<nat, Buf>, pool: set<Buf>, own: map<Buf, Owner>, b: Buf)
    requires Owners(workers, chans, None, pool, own) && b in own && b !in pool
    requires forall j :: j in workers ==> b !in WorkerBufs(workers[j])
    requires forall j :: j in chans ==> chans[j] != b
    ensures Owners(workers, chans, Some(b), pool, own[b := TheWriter])
  {
  }

  lemma PutBack(workers: map<nat, Worker>, chans: map<nat, Buf>, held: Option<Buf>, pool: set<Buf>,
                own: map<Buf, Owner>, b: Buf)
    requires Owners(workers, chans, held, pool, own) && b in own
    requires held != Some(b)
    requires forall j :: j in workers ==> b !in WorkerBufs(workers[j])
    requires forall j :: j in chans ==> chans[j] != b
    ensures Owners(workers, chans, held, pool + {b}, own[b := Nobody])
  {
  }

  /** A buffer that only `owner` may use is in no other hands. */
  lemma OnlyUser(workers: map<nat, Worker>, chans: map<nat, Buf>, held: Option<Buf>, pool: set<Buf>,
                 own: map<Buf, Owner>, b: Buf)
    requires Owners(workers, chans, held, pool, own) && b in own
    ensures b in pool ==> own[b] == Nobody
    ensures forall j :: j in workers && b in WorkerBufs(workers[j]) ==> own[b] == Goroutine(j)
    ensures forall j :: j in chans && chans[j] == b ==> own[b] == Channel(j)
    ensures held == Some(b) ==> own[b] == TheWriter
  {
  }

  /** Contents seen by everyone else stay when only buffers of one user, or of none, change. */
  lemma FilledFrame(k: Codec, prog: seq<Op>, workers: map<nat, Worker>, chans: map<nat, Buf>, held: Option<Buf>,
                    pool: set<Buf>,
                    own: map<Buf, Owner>, heap: map<Buf, seq<Byte>>, heap': map<Buf, seq<Byte>>, user: Owner)
    requires Owners(workers, chans, held, pool, own) && BufsFilled(k, prog, workers, chans, heap)
    requires user == Nobody || user.Goroutine?
    requires forall b :: b in own && own[b] != user ==> b in heap && b in heap' && heap'[b] == heap[b]
    ensures forall j :: j in chans ==> chans[j] in heap' && heap'[chans[j]] == OpBytes(k, prog[j])
    ensures forall j :: j in workers && user != Goroutine(j) ==> WorkerFilled(k, prog[j], workers[j], heap')
    ensures held.Some? ==> held.value in heap && held.value in heap' && heap'[held.value] == heap[held.value]
  {
    hide OpBytes;
    forall j | j in workers && user != Goroutine(j)
      ensures WorkerFilled(k, prog[j], workers[j], heap')
    {
      forall b | b in WorkerBufs(workers[j])
        ensures b in heap && b in heap' && heap'[b] == heap[b]
      {
        assert own[b] == Goroutine(j);
      }
    }
  }

  // ---------- issuing an operation ----------

  lemma IssueControl(k: Codec, prog: seq<Op>, capacity: nat, s: State, b1: Buf, b2: Buf)
    requires s.pc < |prog| && !prog[s.pc].Direct? && Control(prog, s) && Issued(k, prog, capacity, s, b1, b2).Some?
    ensures Control(prog, Issued(k, prog, capacity, s, b1, b2).value)
  {
    hide DataChunk;
  }

  lemma IssueSenders(k: Codec, prog: seq<Op>, capacity: nat, s: State, b1: Buf, b2: Buf)
    requires s.pc < |prog| && !prog[s.pc].Direct? && Control(prog, s) && Senders(prog, s)
    requires Issued(k, prog, capacity, s, b1, b2).Some?
    ensures Senders(prog, Issued(k, prog, capacity, s, b1, b2).value)
  {
    hide DataChunk; hide Filled2; hide Gettable;
    var s' := Issued(k, prog, capacity, s, b1, b2).value;
    assert Arrived(s') == Arrived(s) <= s.pc;
  }

  /** A block goroutine starts with buffers `bufs`, the first of them filled. */
  lemma IssueWorker(k: Codec, prog: seq<Op>, s: State, i: nat, w: Worker, heap': map<Buf, seq<Byte>>,
                    own: map<Buf, Owner>)
    returns (own': map<Buf, Owner>)
    requires Owned(s, own) && Filled(k, prog, s) && i !in s.workers && i < |prog|
    requires forall b :: b in WorkerBufs(w) ==> Gettable(s, b)
    requires heap'.Keys == s.heap.Keys + WorkerBufs(w) && WorkerFilled(k, prog[i], w, heap')
    requires forall b :: b in s.heap && b !in WorkerBufs(w) ==> heap'[b] == s.heap[b]
    ensures own'.Keys == heap'.Keys
    ensures Owners(s.workers[i := w], s.chans, InHand(s), s.pool - WorkerBufs(w), own')
    ensures BufsFilled(k, prog, s.workers[i := w], s.chans, heap') && HandFilled(k, prog, s.writer, heap')
  {
    hide WorkerFilled; hide OpBytes;
    own' := GrantWorker(s.workers, s.chans, InHand(s), s.pool, own, i, w);
    FilledFrame(k, prog, s.workers, s.chans, InHand(s), s.pool, own, s.heap, heap', Nobody);
  }

  lemma IssueBuffers(k: Codec, prog: seq<Op>, capacity: nat, s: State, b1: Buf, b2: Buf, own: map<Buf, Owner>)
    returns (own': map<Buf, Owner>)
    requires s.pc < |prog| && !prog[s.pc].Direct? && Senders(prog, s) && Owned(s, own) && Filled(k, prog, s)
    requires Issued(k, prog, capacity, s, b1, b2).Some?
    ensures Owned(Issued(k, prog, capacity, s, b1, b2).value, own')
    ensures Filled(k, prog, Issued(k, prog, capacity, s, b1, b2).value)
  {
    hide DataChunk; hide BufsFilled; hide HandFilled; hide Owners;
    var i := s.pc;
    var s' := Issued(k, prog, capacity, s, b1, b2).value;
    assert i !in s.workers && i !in s.chans;
    hide Senders;
    own' := own;
    match prog[i] {
      case User(_) => own' := IssueUser(k, prog, s, i, b1, own);
      case Block(_) =>
        var w := Encoding(None, b1);
        assert WorkerBufs(w) == {b1};
        own' := IssueWorker(k, prog, s, i, w, s.heap[b1 := []], own);
      case CopyBlock(u) =>
        var w := Encoding(Some(b1), b2);
        assert WorkerBufs(w) == {b1, b2};
        own' := IssueWorker(k, prog, s, i, w, s.heap[b1 := u][b2 := []], own);
      case _ =>
    }
  }

  lemma IssueUser(k: Codec, prog: seq<Op>, s: State, i: nat, b: Buf, own: map<Buf, Owner>)
      returns (own': map<Buf, Owner>)
    requires Owned(s, own) && Filled(k, prog, s) && i !in s.chans && i < |prog| && prog[i].User? && Gettable(s, b)
    ensures var heap' := s.heap[b := prog[i].b];
            && own'.Keys == heap'.Keys
            && Owners(s.workers, s.chans[i := b], InHand(s), s.pool - {b}, own')
            && BufsFilled(k, prog, s.workers, s.chans[i := b], heap') && HandFilled(k, prog, s.writer, heap')
  {
    hide WorkerFilled; hide DataChunk;
    own' := own[b := Channel(i)];
    GrantChannel(s.workers, s.chans, InHand(s), s.pool, own, i, b);
    FilledFrame(k, prog, s.workers, s.chans, InHand(s), s.pool, own, s.heap, s.heap[b := prog[i].b], Nobody);
  }

  lemma IssueKeeps(k: Codec, prog: seq<Op>, capacity: nat, s: State, b1: Buf, b2: Buf, own: map<Buf, Owner>)
    returns (own': map<Buf, Owner>)
    requires Valid(prog) && Inv(k, prog, s, own) && Issued(k, prog, capacity, s, b1, b2).Some?
    ensures Inv(k, prog, Issued(k, prog, capacity, s, b1, b2).value, own')
  {
    hide DataChunk; hide Senders; hide Owned; hide Filled; hide OutputIs; hide Valid;
    if prog[s.pc].Direct? {
      DirectKeeps(k, prog, capacity, s, b1, b2, own);
      return own;
    }
    IssueControl(k, prog, capacity, s, b1, b2);
    hide Control;
    IssueSenders(k, prog, capacity, s, b1, b2);
    own' := IssueBuffers(k, prog, capacity, s, b1, b2, own);
  }

  // ---------- receiving a result ----------

  lemma ReceiveControl(k: Codec, prog: seq<Op>, s: State)
    requires Control(prog, s) && Senders(prog, s) && Received(k, prog, s).Some?
    ensures Control(prog, Received(k, prog, s).value) && Senders(prog, Received(k, prog, s).value)
  {
    hide OpBytes;
  }

  /** A block goroutine hands its result to the writer goroutine and keeps the other buffer, if any. */
  lemma ReceiveWorker(k: Codec, prog: seq<Op>, s: State, i: nat, own: map<Buf, Owner>) returns (own': map<Buf, Owner>)
    requires Owned(s, own) && Filled(k, prog, s) && s.writer == Waiting(i)
    requires i in s.workers && s.workers[i].Sending?
    ensures var w := s.workers[i];
            var workers' := match w.rest case None => s.workers - {i} case Some(b) => s.workers[i := Tidying(b)];
            && own'.Keys == s.heap.Keys && Owners(workers', s.chans, Some(w.res), s.pool, own')
            && BufsFilled(k, prog, workers', s.chans, s.heap)
            && HandFilled(k, prog, Holding(i, Pooled(w.res)), s.heap)
  {
    hide OpBytes;
    var w := s.workers[i];
    assert w.res in WorkerBufs(w) && own[w.res] == Goroutine(i);
    OnlyUser(s.workers, s.chans, None, s.pool, own, w.res);
    assert WorkerFilled(k, prog[i], w, s.heap);
    match w.rest {
      case None => DropWorker(s.workers, s.chans, None, s.pool, own, i);
      case Some(b) => KeepWorker(s.workers, s.chans, None, s.pool, own, i, Tidying(b));
    }
    var workers' := match w.rest case None => s.workers - {i} case Some(b) => s.workers[i := Tidying(b)];
    Hand(workers', s.chans, s.pool, own, w.res);
    own' := own[w.res := TheWriter];
  }

  lemma ReceiveChannel(k: Codec, prog: seq<Op>, s: State, i: nat, own: map<Buf, Owner>) returns (own': map<Buf, Owner>)
    requires Owned(s, own) && Filled(k, prog, s) && s.writer == Waiting(i) && i in s.chans
    ensures && own'.Keys == s.heap.Keys && Owners(s.workers, s.chans - {i}, Some(s.chans[i]), s.pool, own')
            && BufsFilled(k, prog, s.workers, s.chans - {i}, s.heap)
            && HandFilled(k, prog, Holding(i, Pooled(s.chans[i])), s.heap)
  {
    hide OpBytes; hide WorkerFilled;
    var b := s.chans[i];
    OnlyUser(s.workers, s.chans, None, s.pool, own, b);
    Hand(s.workers, s.chans - {i}, s.pool, own, b);
    own' := own[b := TheWriter];
  }

  lemma ReceiveKeeps(k: Codec, prog: seq<Op>, s: State, own: map<Buf, Owner>) returns (own': map<Buf, Owner>)
    requires Inv(k, prog, s, own) && Received(k, prog, s).Some?
    ensures Inv(k, prog, Received(k, prog, s).value, own')
  {
    hide OpBytes; hide Senders; hide Owners; hide BufsFilled; hide OutputIs;
    ReceiveControl(k, prog, s);
    var i := s.writer.i;
    own' := own;
    if s.caller.SendingResult? && i + 1 == s.pc && i < |prog| {
    } else if i in s.chans {
      own' := ReceiveChannel(k, prog, s, i, own);
    } else {
      own' := ReceiveWorker(k, prog, s, i, own);
    }
  }

  // ---------- encoding, writing, recycling ----------

  lemma EncodeControl(k: Codec, prog: seq<Op>, s: State, i: nat)
    requires Control(prog, s) && Senders(prog, s) && Encoded(k, prog, s, i).Some?
    ensures Control(prog, Encoded(k, prog, s, i).value) && Senders(prog, Encoded(k, prog, s, i).value)
  {
    hide DataChunk;
  }

  /** The encoded block goes into one of the goroutine's own buffers, so nobody else notices. */
  lemma EncodeInto(k: Codec, prog: seq<Op>, s: State, i: nat, res: Buf, rest: Option<Buf>, own: map<Buf, Owner>)
    requires Owned(s, own) && Filled(k, prog, s) && i in s.workers && i < |prog|
    requires WorkerBufs(Sending(res, rest)) <= WorkerBufs(s.workers[i]) && rest != Some(res)
    ensures var w, heap' := Sending(res, rest), s.heap[res := OpBytes(k, prog[i])];
            && heap'.Keys == s.heap.Keys
            && Owners(s.workers[i := w], s.chans, InHand(s), s.pool, own)
            && BufsFilled(k, prog, s.workers[i := w], s.chans, heap') && HandFilled(k, prog, s.writer, heap')
  {
    hide OpBytes;
    var w, heap' := Sending(res, rest), s.heap[res := OpBytes(k, prog[i])];
    assert res in WorkerBufs(w);
    KeepWorker(s.workers, s.chans, InHand(s), s.pool, own, i, w);
    FilledFrame(k, prog, s.workers, s.chans, InHand(s), s.pool, own, s.heap, heap', Goroutine(i));
    assert WorkerFilled(k, prog[i], w, heap');
    hide WorkerFilled;
  }

  lemma EncodeKeeps(k: Codec, prog: seq<Op>, s: State, i: nat, own: map<Buf, Owner>)
    requires Inv(k, prog, s, own) && Encoded(k, prog, s, i).Some?
    ensures Inv(k, prog, Encoded(k, prog, s, i).value, own)
  {
    hide DataChunk; hide Control; hide Senders; hide Owners; hide OutputIs; hide HandFilled;
    EncodeControl(k, prog, s, i);
    assert WorkerFilled(k, prog[i], s.workers[i], s.heap);
    hide BufsFilled;
    var obuf := s.workers[i].obuf;
    match s.workers[i].inb {
      case None => EncodeInto(k, prog, s, i, obuf, None, own);
      case Some(inb) =>
        var u := s.heap[inb];
        if k.encode(u) != [] {
          EncodeInto(k, prog, s, i, obuf, Some(inb), own);
        } else {
          EncodeInto(k, prog, s, i, inb, Some(obuf), own);
        }
    }
  }

  lemma WriteControl(k: Codec, prog: seq<Op>, capacity: nat, s: State)
    requires Control(prog, s) && Senders(prog, s) && Next(k, prog, capacity, s, Write).Some?
    ensures Control(prog, Next(k, prog, capacity, s, Write).value) &&
            Senders(prog, Next(k, prog, capacity, s, Write).value)
  {
    hide Sequential; hide Input;
  }

  lemma WriteKeeps(k: Codec, prog: seq<Op>, capacity: nat, s: State, own: map<Buf, Owner>)
    requires Inv(k, prog, s, own) && Next(k, prog, capacity, s, Write).Some?
    ensures Inv(k, prog, Next(k, prog, capacity, s, Write).value, own)
  {
    hide OpBytes; hide Owners; hide BufsFilled; hide OutputIs; hide Control; hide Indexed;
    WriteControl(k, prog, capacity, s);
    var i := s.writer.i;
    IndexedAll(k, prog, i);
    assert i < s.pc && !prog[i].Direct?;
    hide Senders;
    OutputGrows(k, prog, i, s.out, s.written, s.index, true);
    assert s.out + [] == s.out;
  }

  lemma TakeControl(k: Codec, prog: seq<Op>, capacity: nat, s: State, a: Action)
    requires Control(prog, s) && Senders(prog, s) && Next(k, prog, capacity, s, a).Some?
    requires a.FlushReturns? || a.Take?
    ensures Control(prog, Next(k, prog, capacity, s, a).value) && Senders(prog, Next(k, prog, capacity, s, a).value)
    ensures Done(Next(k, prog, capacity, s, a).value) == Done(s)
  {
    hide Sequential; hide Input; hide Issued; hide Received; hide Encoded; hide Contents;
  }

  lemma RecycleControl(k: Codec, prog: seq<Op>, capacity: nat, s: State, a: Action)
    requires Control(prog, s) && Senders(prog, s) && Next(k, prog, capacity, s, a).Some?
    requires a.Recycle?
    ensures Control(prog, Next(k, prog, capacity, s, a).value) && Senders(prog, Next(k, prog, capacity, s, a).value)
    ensures Done(Next(k, prog, capacity, s, a).value) == Done(s)
  {
    hide Sequential; hide Input; hide Issued; hide Received; hide Encoded; hide Contents;
  }

  lemma TidyControl(k: Codec, prog: seq<Op>, capacity: nat, s: State, a: Action)
    requires Control(prog, s) && Senders(prog, s) && Next(k, prog, capacity, s, a).Some?
    requires a.Tidy?
    ensures Control(prog, Next(k, prog, capacity, s, a).value) && Senders(prog, Next(k, prog, capacity, s, a).value)
    ensures Done(Next(k, prog, capacity, s, a).value) == Done(s)
  {
    hide Sequential; hide Input; hide Issued; hide Received; hide Encoded; hide Contents;
  }

  lemma OtherControl(k: Codec, prog: seq<Op>, capacity: nat, s: State, a: Action)
    requires Control(prog, s) && Senders(prog, s) && Next(k, prog, capacity, s, a).Some?
    requires a.FlushReturns? || a.Take? || a.Recycle? || a.Tidy?
    ensures Control(prog, Next(k, prog, capacity, s, a).value) && Senders(prog, Next(k, prog, capacity, s, a).value)
    ensures Done(Next(k, prog, capacity, s, a).value) == Done(s)
  {
    hide *;
    if a.Recycle? {
      RecycleControl(k, prog, capacity, s, a);
    } else if a.Tidy? {
      TidyControl(k, prog, capacity, s, a);
    } else {
      TakeControl(k, prog, capacity, s, a);
    }
  }

  lemma RecycleOwners(s: State, own: map<Buf, Owner>, keep: bool) returns (own': map<Buf, Owner>)
    requires Owned(s, own) && s.writer.Written?
    ensures own'.Keys == own.Keys
    ensures Owners(s.workers, s.chans, None,
                   (match s.writer.res case Pooled(b) => if keep then s.pool + {b} else s.pool case Raw(_) => s.pool),
                   own')
  {
    own' := own;
    if s.writer.res.Pooled? {
      var b := s.writer.res.buf;
      OnlyUser(s.workers, s.chans, Some(b), s.pool, own, b);
      assert Owners(s.workers, s.chans, None, s.pool, own);
      if keep {
        PutBack(s.workers, s.chans, None, s.pool, own, b);
        own' := own[b := Nobody];
      }
    }
  }

  lemma TidyOwners(s: State, own: map<Buf, Owner>, i: nat)
    requires Owned(s, own) && i in s.workers && s.workers[i].Tidying?
    ensures Owners(s.workers - {i}, s.chans, InHand(s), s.pool + {s.workers[i].spare},
                   own[s.workers[i].spare := Nobody])
    ensures s.workers[i].spare in own
  {
    var b := s.workers[i].spare;
    assert b in WorkerBufs(s.workers[i]);
    OnlyUser(s.workers, s.chans, InHand(s), s.pool, own, b);
    DropWorker(s.workers, s.chans, InHand(s), s.pool, own, i);
    PutBack(s.workers - {i}, s.chans, InHand(s), s.pool, own, b);
  }

  lemma FewerFilled(k: Codec, prog: seq<Op>, workers: map<nat, Worker>, chans: map<nat, Buf>, heap: map<Buf, seq<Byte>>,
                    i: nat)
    requires BufsFilled(k, prog, workers, chans, heap)
    ensures BufsFilled(k, prog, workers - {i}, chans, heap)
  {
    hide WorkerFilled; hide OpBytes;
  }

  /** Taking from the queue, the return of a flush, and recycling. */
  lemma OtherKeeps(k: Codec, prog: seq<Op>, capacity: nat, s: State, a: Action, own: map<Buf, Owner>)
    returns (own': map<Buf, Owner>)
    requires Inv(k, prog, s, own) && Next(k, prog, capacity, s, a).Some?
    requires a.FlushReturns? || a.Take? || a.Recycle? || a.Tidy?
    ensures Inv(k, prog, Next(k, prog, capacity, s, a).value, own')
  {
    hide Control; hide Senders; hide OutputIs; hide Owners; hide BufsFilled; hide Input;
    hide Issued; hide Received; hide Encoded;
    OtherControl(k, prog, capacity, s, a);
    own' := own;
    match a {
      case Recycle(keep) => own' := RecycleOwners(s, own, keep);
      case Tidy(i) =>
        TidyOwners(s, own, i);
        FewerFilled(k, prog, s.workers, s.chans, s.heap, i);
        own' := own[s.workers[i].spare := Nobody];
      case _ =>
    }
  }

  lemma StepKeeps(k: Codec, prog: seq<Op>, capacity: nat, s: State, a: Action, own: map<Buf, Owner>)
    returns (own': map<Buf, Owner>)
    requires Valid(prog) && Inv(k, prog, s, own) && Next(k, prog, capacity, s, a).Some?
    ensures Inv(k, prog, Next(k, prog, capacity, s, a).value, own')
  {
    hide Inv; hide Issued; hide Received; hide Encoded; hide Valid;
    own' := own;
    match a {
      case Issue(b1, b2) => own' := IssueKeeps(k, prog, capacity, s, b1, b2, own);
      case Receive => own' := ReceiveKeeps(k, prog, s, own);
      case Write => WriteKeeps(k, prog, capacity, s, own);
      case Encode(i) => EncodeKeeps(k, prog, s, i, own);
      case _ => own' := OtherKeeps(k, prog, capacity, s, a, own);
    }
  }

  // ---------- whole runs ----------

  /** The state after a sequence of steps; `None` if one of them was not enabled. */
  function Exec(k: Codec, prog: seq<Op>, capacity: nat, s: State, run: seq<Action>): (r: Option<State>)
    decreases |run|
  {
    if run == [] then Some(s)
    else
      match Next(k, prog, capacity, s, run[0])
      case None => None
      case Some(s') => Exec(k, prog, capacity, s', run[1..])
  }

  lemma {:induction false} ExecKeeps(k: Codec, prog: seq<Op>, capacity: nat, s: State, run: seq<Action>,
                                     own: map<Buf, Owner>)
    returns (own': map<Buf, Owner>)
    requires Valid(prog) && Inv(k, prog, s, own) && Exec(k, prog, capacity, s, run).Some?
    ensures Inv(k, prog, Exec(k, prog, capacity, s, run).value, own')
    decreases |run|
  {
    hide Inv; hide Next; hide Valid;
    own' := own;
    if run != [] {
      own' := StepKeeps(k, prog, capacity, s, run[0], own);
      own' := ExecKeeps(k, prog, capacity, Next(k, prog, capacity, s, run[0]).value, run[1..], own');
    }
  }

  /** Nothing is left to do: every operation was issued, and the writer goroutine has drained the queue. */
  ghost predicate Quiet(prog: seq<Op>, s: State) {
    s.pc == |prog| && s.caller.Free? && s.queue == [] && s.writer.Idle?
  }

  /**
   For every interleaving: what was written so far is what a synchronous writer would have written
   after some number of operations, and in the end after all of them. The index has the
   entries of these operations, which are true.
   */
  lemma OutputInOrder(k: Codec, prog: seq<Op>, capacity: nat, run: seq<Action>)
    requires Valid(prog) && Exec(k, prog, capacity, START, run).Some?
    ensures var s := Exec(k, prog, capacity, START, run).value;
            && Done(s) <= s.pc <= |prog| && s.out == Sequential(k, prog, Done(s))
            && (Quiet(prog, s) ==> s.out == Sequential(k, prog, |prog|))
            && s.index == Entries(k, prog, Done(s), true)
            && (forall j :: 0 <= j < |s.index| ==> Truthful(k, prog, s.index[j]))
  {
    hide Owned; hide Filled; hide Exec; hide Valid; hide Sequential; hide Input; hide Truthful; hide Entries;
    StartInv(k, prog);
    var own := ExecKeeps(k, prog, capacity, START, run, map[]);
    var s := Exec(k, prog, capacity, START, run).value;
    forall j | 0 <= j < |s.index|
      ensures Truthful(k, prog, s.index[j])
    {
      EntriesTrue(k, prog, Done(s), true, j);
    }
  }

  /** For every interleaving: when the caller goes on after a flush, all that was issued is written. */
  lemma FlushReturned(k: Codec, prog: seq<Op>, capacity: nat, run: seq<Action>)
    requires Valid(prog) && Exec(k, prog, capacity, START, run).Some?
    requires var s := Exec(k, prog, capacity, START, run).value;
             s.caller.Free? && 0 < s.pc <= |prog| && prog[s.pc - 1].FlushOp?
    ensures var s := Exec(k, prog, capacity, START, run).value;
            s.out == Sequential(k, prog, s.pc) && s.queue == [] && s.writer.Idle?
  {
    hide Owned; hide Filled; hide Exec; hide Valid; hide Sequential; hide Input; hide Entries; hide Senders;
    StartInv(k, prog);
    var own := ExecKeeps(k, prog, capacity, START, run, map[]);
  }

  /**
   For every interleaving: a buffer in the pool is not in the hands of a block goroutine, of a queued
   result or of the writer goroutine, and no two of these share one.
   */
  lemma NoSharedBuffers(k: Codec, prog: seq<Op>, capacity: nat, run: seq<Action>, b: Buf)
    requires Valid(prog) && Exec(k, prog, capacity, START, run).Some?
    ensures var s := Exec(k, prog, capacity, START, run).value;
            && (b in s.pool ==>
                  && (forall i :: i in s.workers ==> b !in WorkerBufs(s.workers[i]))
                  && (forall i :: i in s.chans ==> s.chans[i] != b)
                  && InHand(s) != Some(b))
            && (InHand(s) == Some(b) ==>
                  && (forall i :: i in s.workers ==> b !in WorkerBufs(s.workers[i]))
                  && (forall i :: i in s.chans ==> s.chans[i] != b))
            && (forall i, j :: i in s.workers && j in s.workers && i != j ==>
                  !(b in WorkerBufs(s.workers[i]) && b in WorkerBufs(s.workers[j])))
            && (forall i, j :: i in s.workers && j in s.chans ==> !(b in WorkerBufs(s.workers[i]) && s.chans[j] == b))
  {
    hide Control; hide Senders; hide Filled; hide Output; hide Exec; hide Valid;
    StartInv(k, prog);
    var own := ExecKeeps(k, prog, capacity, START, run, map[]);
    var s := Exec(k, prog, capacity, START, run).value;
    if b in own { OnlyUser(s.workers, s.chans, InHand(s), s.pool, own, b); }
  }

  /** Everything is done, down to the buffers that block goroutines still had to put back. */
  ghost predicate Finished(prog: seq<Op>, s: State) { Quiet(prog, s) && s.workers == map[] }

  lemma FreshBuffers(s: State) returns (b1: Buf, b2: Buf)
    ensures Gettable(s, b1) && Gettable(s, b2) && b1 != b2
  {
    var m := UpperBound(s.heap.Keys);
    b1, b2 := m, m + 1;
  }

  lemma UpperBound(bs: set<Buf>) returns (m: nat)
    ensures forall b :: b in bs ==> b < m
    decreases |bs|
  {
    if bs == {} {
      m := 0;
    } else {
      var b :| b in bs;
      m := UpperBound(bs - {b});
      assert forall c :: c in bs ==> c == b || c in bs - {b};
      if b >= m { m := b + 1; }
    }
  }

  /** No interleaving gets stuck: until everything is done, some step is enabled. */
  lemma Progress(k: Codec, prog: seq<Op>, capacity: nat, s: State, own: map<Buf, Owner>) returns (a: Action)
    requires Inv(k, prog, s, own) && capacity >= 1 && !Finished(prog, s)
    ensures Next(k, prog, capacity, s, a).Some?
  {
    hide Owned; hide Filled; hide Output; hide DataChunk;
    match s.writer {
      case Holding(_, _) => a := Write;
      case Written(_, _) => a := Recycle(true);
      case Waiting(i) =>
        assert Arrived(s) == i < s.pc;
        if i in s.workers && s.workers[i].Encoding? {
          a := Encode(i);
        } else {
          a := Receive;
        }
      case Idle =>
        if |s.queue| > 0 {
          a := Take;
        } else if s.caller.Flushing? {
          a := FlushReturns;
        } else if s.pc < |prog| {
          var b1, b2 := FreshBuffers(s);
          a := Issue(b1, b2);
        } else {
          var i :| i in s.workers;
          a := Tidy(i);
        }
    }
  }

  /** Work left to do: every step uses some of it up. */
  function WorkerWork(w: Worker): (r: nat) {
    match w case Encoding(_, _) => 3 case Sending(_, _) => 2 case Tidying(_) => 1
  }

  function TotalWork(workers: map<nat, Worker>, n: nat): (r: nat) {
    if n == 0 then 0
    else TotalWork(workers, n - 1) + if n - 1 in workers then WorkerWork(workers[n - 1]) else 0
  }

  function Work(prog: seq<Op>, s: State): (r: int) {
    14 * (|prog| - s.pc) + TotalWork(s.workers, |prog|) + 5 * |s.queue|
    + (match s.writer case Idle => 0 case Waiting(_) => 4 case Holding(_, _) => 2 case Written(_, _) => 1)
    + (match s.caller case Free => 0 case Flushing => 1 case SendingResult => 2)
  }

  lemma {:induction false} WorkChanges(workers: map<nat, Worker>, workers': map<nat, Worker>, i: nat, n: nat)
    requires forall j :: j != i ==> (j in workers <==> j in workers') && (j in workers ==> workers[j] == workers'[j])
    ensures TotalWork(workers', n) - TotalWork(workers, n) ==
            if i < n
            then (if i in workers' then WorkerWork(workers'[i]) else 0)
                 - (if i in workers then WorkerWork(workers[i]) else 0)
            else 0
  {
    if n > 0 { WorkChanges(workers, workers', i, n - 1); }
  }

  lemma WorkIssue(k: Codec, prog: seq<Op>, capacity: nat, s: State, b1: Buf, b2: Buf)
    requires s.pc <= |prog| && Senders(prog, s) && Issued(k, prog, capacity, s, b1, b2).Some?
    ensures Work(prog, Issued(k, prog, capacity, s, b1, b2).value) < Work(prog, s)
  {
    hide DataChunk; hide TotalWork;
    var s' := Issued(k, prog, capacity, s, b1, b2).value;
    assert s.pc !in s.workers;
    WorkChanges(s.workers, s'.workers, s.pc, |prog|);
  }

  lemma WorkReceive(k: Codec, prog: seq<Op>, s: State)
    requires s.pc <= |prog| && Senders(prog, s) && Received(k, prog, s).Some?
    ensures Work(prog, Received(k, prog, s).value) < Work(prog, s)
  {
    hide OpBytes; hide TotalWork;
    var s' := Received(k, prog, s).value;
    WorkChanges(s.workers, s'.workers, s.writer.i, |prog|);
  }

  lemma WorkEncode(k: Codec, prog: seq<Op>, s: State, i: nat)
    requires Encoded(k, prog, s, i).Some?
    ensures Work(prog, Encoded(k, prog, s, i).value) < Work(prog, s)
  {
    hide DataChunk; hide TotalWork;
    var s' := Encoded(k, prog, s, i).value;
    WorkChanges(s.workers, s'.workers, i, |prog|);
  }

  /** So every run ends: no step can be taken for ever. */
  lemma WorkDecreases(k: Codec, prog: seq<Op>, capacity: nat, s: State, a: Action, own: map<Buf, Owner>)
    requires Inv(k, prog, s, own) && Next(k, prog, capacity, s, a).Some?
    ensures Work(prog, Next(k, prog, capacity, s, a).value) < Work(prog, s) && Work(prog, s) >= 0
  {
    hide Owned; hide Filled; hide Output; hide Issued; hide Received; hide Encoded; hide Input; hide TotalWork;
    var s' := Next(k, prog, capacity, s, a).value;
    match a {
      case Issue(b1, b2) => WorkIssue(k, prog, capacity, s, b1, b2);
      case Encode(i) => WorkEncode(k, prog, s, i);
      case Tidy(i) => WorkChanges(s.workers, s'.workers, i, |prog|);
      case Receive => WorkReceive(k, prog, s);
      case _ =>
    }
  }
}
