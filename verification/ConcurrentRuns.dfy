/**
 Runs of `DecodeConcurrent` (reader.go) that do not end as `Read` does. A worker returns its source buffer
 before it compares checksums (lines 835-849). If the checksum is one of the compressed data, the reading
 goroutine may have read another chunk over that data by then.
 */
module ConcurrentRuns {
  import opened Bytes
  import opened ConcurrentReader
  import ChunkReader

  /** `run` leads to `s`. */
  ghost predicate Reached(prog: Task, n: nat, run: seq<Action>, s: State, o: Ghost) {
    n >= 2 && Exec(prog, n, Start(n), run) == Some(s) && Inv(prog, n, s, o)
  }

  lemma {:induction false} ExecAppend(prog: Task, n: nat, s: State, run: seq<Action>, a: Action)
    requires Exec(prog, n, s, run).Some?
    ensures Exec(prog, n, s, run + [a]) == Next(prog, n, Exec(prog, n, s, run).value, a)
    decreases |run|
  {
    hide Next;
    if run == [] {
      assert [a][1..] == [];
      assert run + [a] == [a];
    } else {
      assert (run + [a])[1..] == run[1..] + [a];
      ExecAppend(prog, n, Next(prog, n, s, run[0]).value, run[1..], a);
    }
  }

  lemma Go(prog: Task, n: nat, run: seq<Action>, s: State, o: Ghost, a: Action) returns (run': seq<Action>, o': Ghost)
    requires Reached(prog, n, run, s, o) && Next(prog, n, s, a).Some?
    ensures Reached(prog, n, run', Next(prog, n, s, a).value, o')
  {
    hide Inv; hide Next; hide Exec;
    ExecAppend(prog, n, Start(n), run, a);
    run' := run + [a];
    o' := StepKeeps(prog, n, s, a, o);
  }

  lemma FirstState(prog: Task, n: nat) returns (o: Ghost)
    requires n >= 2
    ensures Reached(prog, n, [], Start(n), o)
  {
    hide Inv;
    StartInv(prog, n);
    o := StartGhost(prog, n);
  }

  // ---------- to the end ----------

  lemma ErrStays(prog: Task, n: nat, s: State, a: Action)
    requires Next(prog, n, s, a).Some? && s.err
    ensures Next(prog, n, s, a).value.err
  {
    hide Passes; hide Region;
  }

  lemma Decreasing(prog: Task, n: nat, s: State, o: Ghost, a: Action)
    requires Inv(prog, n, s, o) && Next(prog, n, s, a).Some?
    ensures 0 <= Work(prog, s) && Work(prog, Next(prog, n, s, a).value) < Work(prog, s)
  {
    hide Owned; hide Turns; hide Loaded; hide Written; hide Possible; hide MainFilled; hide WorkerFilled; hide Next;
    hide Work;
    WorkDecreases(prog, n, s, a, o.turn);
  }

  /** Every run can be carried on until all goroutines are done. */
  lemma {:induction false} Finish(prog: Task, n: nat, run: seq<Action>, s: State, o: Ghost)
    returns (run': seq<Action>, s': State, o': Ghost)
    requires Reached(prog, n, run, s, o)
    ensures Reached(prog, n, run', s', o') && Finished(s') && (s.err ==> s'.err)
    decreases Work(prog, s)
  {
    hide Inv; hide Next; hide Exec; hide Work; hide Finished;
    if Finished(s) {
      run', s', o' := run, s, o;
    } else {
      var a := Progress(prog, n, s, o);
      Decreasing(prog, n, s, o, a);
      run', o' := Go(prog, n, run, s, o, a);
      if s.err { ErrStays(prog, n, s, a); }
      run', s', o' := Finish(prog, n, run', Next(prog, n, s, a).value, o');
    }
  }

  // ---------- reading ahead ----------

  predicate CanRead(prog: Task, n: nat, s: State, k: nat) {
    && s.main.Reading? && !s.err && s.pc + k <= |prog.jobs|
    && (forall i :: s.pc <= i < s.pc + k ==> prog.jobs[i].Packed?)
    && k <= |s.toRead| && k <= |s.written| && k <= |s.reUse| && |s.queue| + k <= n
  }

  /** The reading goroutine has read one more chunk and started its worker. */
  function OneRead(prog: Task, s: State): (r: State)
    requires s.pc < |prog.jobs| && prog.jobs[s.pc].Packed? && s.toRead != [] && s.written != [] && s.reUse != []
  {
    var f := Fill(s, s.toRead[0], prog.jobs[s.pc].chunk, prog.jobs[s.pc].room);
    s.(pc := s.pc + 1, toRead := s.toRead[1..], written := s.written[1..], reUse := s.reUse[1..],
       queue := s.queue + [s.reUse[0]],
       workers := s.workers[s.pc + 1 := Decoding(s.toRead[0], s.written[0], s.reUse[0])], memory := f.memory,
       at := f.at)
  }

  lemma ReadOne(prog: Task, n: nat, run: seq<Action>, s: State, o: Ghost) returns (run': seq<Action>, o': Ghost)
    requires Reached(prog, n, run, s, o) && CanRead(prog, n, s, 1)
    ensures Reached(prog, n, run', OneRead(prog, s), o')
  {
    hide Reached; hide Fill;
    var job := prog.jobs[s.pc];
    FillRest(s, s.toRead[0], job.chunk, job.room);
    run', o' := Go(prog, n, run, s, o, Begin);
    var s1 := s.(main := Begun);
    FillMain(s, s1, s.toRead[0], job);
    run', o' := Go(prog, n, run', s1, o', TakeSrc);
    var s2 := Next(prog, n, s1, TakeSrc).value;
    FillRest(s1, s.toRead[0], job.chunk, job.room);
    run', o' := Go(prog, n, run', s2, o', TakeDst);
    var s3 := Next(prog, n, s2, TakeDst).value;
    run', o' := Go(prog, n, run', s3, o', Dispatch);
  }

  lemma FillMain(s: State, s1: State, x: nat, job: Job)
    requires job.Packed? && s1 == s.(main := s1.main)
    ensures Fill(s1, x, job.chunk, job.room).memory == Fill(s, x, job.chunk, job.room).memory
    ensures Fill(s1, x, job.chunk, job.room).at == Fill(s, x, job.chunk, job.room).at
  {
  }

  /** The memory of source buffer `x`, and what is in it, is still the same. */
  predicate Intact(s: State, s': State, x: nat) {
    x in s.at ==> x in s'.at && s'.at[x] == s.at[x] && s.at[x] < |s.memory| && s.at[x] < |s'.memory|
                  && s'.memory[s.at[x]] == s.memory[s.at[x]]
  }

  lemma OneIntact(prog: Task, n: nat, s: State, x: nat)
    requires CanRead(prog, n, s, 1) && Loaded(prog, s) && x != s.toRead[0]
    ensures Intact(s, OneRead(prog, s), x)
  {
    hide WorkerLoaded; hide Holding;
  }

  /** `k` more chunks. */
  ghost predicate Ahead(s: State, s': State, k: nat)
    requires k <= |s.toRead| && k <= |s.written| && k <= |s.reUse|
  {
    && s' == s.(pc := s.pc + k, toRead := s.toRead[k..], written := s.written[k..], reUse := s.reUse[k..],
                queue := s.queue + s.reUse[..k], workers := s'.workers, memory := s'.memory, at := s'.at)
    && Started(s, s', k)
    && (forall x :: x !in s.toRead[..k] ==> Intact(s, s', x))
  }

  ghost predicate Started(s: State, s': State, k: nat)
    requires k <= |s.toRead| && k <= |s.written| && k <= |s.reUse|
  {
    && (forall i :: i <= s.pc ==> (i in s'.workers <==> i in s.workers) &&
                                  (i in s.workers ==> s'.workers[i] == s.workers[i]))
    && (forall i :: s.pc < i <= s.pc + k ==>
          i in s'.workers && s'.workers[i] ==
              Decoding(s.toRead[i - s.pc - 1], s.written[i - s.pc - 1], s.reUse[i - s.pc - 1]))
    && (forall i :: i in s'.workers ==> i <= s.pc + k)
  }

  lemma NothingAhead(prog: Task, n: nat, s: State, o: Ghost)
    requires Inv(prog, n, s, o)
    ensures Ahead(s, s, 0)
  {
    BoundedWorkers(prog, n, s, o);
    AllIntact(prog, n, s, o);
    hide Inv;
    assert s.queue + s.reUse[..0] == s.queue;
  }

  lemma CanReadOn(prog: Task, n: nat, s: State, k: nat)
    requires k > 0 && CanRead(prog, n, s, k)
    ensures CanRead(prog, n, s, 1) && CanRead(prog, n, OneRead(prog, s), k - 1)
  {
    hide Fill;
  }

  lemma {:induction false} ReadAhead(prog: Task, n: nat, run: seq<Action>, s: State, o: Ghost, k: nat)
    returns (run': seq<Action>, s': State, o': Ghost)
    requires Reached(prog, n, run, s, o) && CanRead(prog, n, s, k)
    ensures Reached(prog, n, run', s', o') && Ahead(s, s', k)
    decreases k
  {
    hide Inv; hide Exec; hide Fill; hide Ahead; hide Loaded;
    if k == 0 {
      run', s', o' := run, s, o;
      NothingAhead(prog, n, s, o);
    } else {
      CanReadOn(prog, n, s, k);
      IsLoaded(prog, n, s, o);
      hide OneRead; hide Reached;
      var run1, o1 := ReadOne(prog, n, run, s, o);
      run', s', o' := ReadAhead(prog, n, run1, OneRead(prog, s), o1, k - 1);
      OneMore(prog, n, s, s', k);
    }
  }

  lemma BoundedWorkers(prog: Task, n: nat, s: State, o: Ghost)
    requires Inv(prog, n, s, o)
    ensures forall i :: i in s.workers ==> i <= s.pc
  {
  }

  lemma IsLoaded(prog: Task, n: nat, s: State, o: Ghost)
    requires Inv(prog, n, s, o)
    ensures Loaded(prog, s)
  {
    hide Loaded;
  }

  lemma AllIntact(prog: Task, n: nat, s: State, o: Ghost)
    requires Inv(prog, n, s, o)
    ensures forall x :: Intact(s, s, x)
  {
    hide Owned; hide Turns; hide Filled; hide Written; hide WorkerLoaded; hide Holding;
  }

  lemma OneMoreStarted(prog: Task, n: nat, s: State, s': State, k: nat)
    requires k > 0 && CanRead(prog, n, s, k) && Started(OneRead(prog, s), s', k - 1)
    ensures Started(s, s', k)
  {
    hide Fill;
    var s1 := OneRead(prog, s);
    assert s.pc + 1 in s1.workers && s'.workers[s.pc + 1] == s1.workers[s.pc + 1];
  }

  lemma OneMoreIntact(prog: Task, n: nat, s: State, s': State, k: nat, x: nat)
    requires k > 0 && CanRead(prog, n, s, k) && Loaded(prog, s) && x !in s.toRead[..k]
    requires x !in s.toRead[1..][..k - 1] ==> Intact(OneRead(prog, s), s', x)
    ensures Intact(s, s', x)
  {
    hide Loaded; hide Fill;
    assert s.toRead[..k][0] == s.toRead[0];
    OneIntact(prog, n, s, x);
    assert s.toRead[1..][..k - 1] == s.toRead[..k][1..];
  }

  lemma OneMore(prog: Task, n: nat, s: State, s': State, k: nat)
    requires k > 0 && CanRead(prog, n, s, k) && Loaded(prog, s) && Ahead(OneRead(prog, s), s', k - 1)
    ensures Ahead(s, s', k)
  {
    hide Loaded; hide Fill; hide Started; hide Intact;
    assert s.toRead[1..][k - 1..] == s.toRead[k..] && s.written[1..][k - 1..] == s.written[k..];
    assert s.reUse[1..][k - 1..] == s.reUse[k..];
    assert s.queue + [s.reUse[0]] + s.reUse[1..][..k - 1] == s.queue + s.reUse[..k];
    OneMoreStarted(prog, n, s, s', k);
    forall x | x !in s.toRead[..k]
      ensures Intact(s, s', x)
    {
      OneMoreIntact(prog, n, s, s', k, x);
    }
  }

  // ---------- a chunk over another ----------

  /** The worker that seeds the writer has done so, and has its entry given back. */
  function Seeded(n: nat): (r: State)
    requires n >= 2
  {
    Start(n).(reUse := UpTo(n)[1..] + [0], inbox := multiset{}, workers := map[0 := Passing])
  }

  lemma Seed(prog: Task, n: nat) returns (run: seq<Action>, o: Ghost)
    requires n >= 2
    ensures Reached(prog, n, run, Seeded(n), o)
  {
    hide Reached; hide MainStep; hide EarlyStep;
    o := FirstState(prog, n);
    run, o := Go(prog, n, [], Start(n), o, GetTurn(0));
    var s1 := Start(n).(inbox := multiset{}, workers := map[0 := Writing(None, 0)]);
    assert Next(prog, n, Start(n), GetTurn(0)).value == s1;
    run, o := Go(prog, n, run, s1, o, Write(0));
    var s2 := s1.(workers := map[0 := Wrote(None, 0)]);
    assert Next(prog, n, s1, Write(0)).value == s2;
    run, o := Go(prog, n, run, s2, o, GiveBack(0));
    var s3 := s2.(workers := map[0 := Freeing(0)]);
    assert Next(prog, n, s2, GiveBack(0)).value == s3;
    run, o := Go(prog, n, run, s3, o, FreeEntry(0));
    assert Next(prog, n, s3, FreeEntry(0)).value == Seeded(n);
  }

  /** A worker has decoded its block, given its source buffer back and remembers the memory. */
  function Unpack(prog: Task, s: State, i: nat): (r: State)
    requires i in s.workers && s.workers[i].Decoding? && s.workers[i].src in s.at
    requires 0 < i <= |prog.jobs| && Raw(prog.jobs[i - 1]).Some?
  {
    var p := s.workers[i];
    s.(workers := s.workers[i := Checking(s.at[p.src], p.dst, p.entry, true)], toRead := s.toRead + [p.src],
       heap := s.heap[p.dst := Raw(prog.jobs[i - 1]).value])
  }

  ghost predicate CanUnpack(prog: Task, n: nat, s: State, i: nat) {
    && i in s.workers && s.workers[i].Decoding? && |s.toRead| <= n && 0 < i <= |prog.jobs|
    && Raw(prog.jobs[i - 1]).Some?
    && s.workers[i].src in s.at
  }

  lemma SourceRead(prog: Task, n: nat, run: seq<Action>, s: State, o: Ghost, i: nat)
    requires Reached(prog, n, run, s, o) && CanUnpack(prog, n, s, i)
    ensures prog.jobs[i - 1].Packed? && Holding(s.memory, s.at, s.workers[i].src, prog.jobs[i - 1])
  {
    hide Owned; hide Turns; hide Filled; hide Written; hide Exec; hide Holding; hide Raw;
    LoadedAt(prog, s, i);
    HoldingMeans(s, s.workers[i].src, prog.jobs[i - 1]);
  }

  /** After decoding, before the source is returned. */
  function Halfway(prog: Task, s: State, i: nat): (r: State)
    requires i in s.workers && s.workers[i].Decoding? && 0 < i <= |prog.jobs| && Raw(prog.jobs[i - 1]).Some?
  {
    var p := s.workers[i];
    s.(workers := s.workers[i := Decoded(p.src, p.dst, p.entry, true)],
       heap := s.heap[p.dst := Raw(prog.jobs[i - 1]).value])
  }

  lemma DecodeStep(prog: Task, n: nat, s: State, i: nat)
    requires CanUnpack(prog, n, s, i) && prog.jobs[i - 1].Packed?
    requires Holding(s.memory, s.at, s.workers[i].src, prog.jobs[i - 1])
    ensures Next(prog, n, s, Decode(i)) == Some(Halfway(prog, s, i))
  {
    Same(s.memory, s.at, s.workers[i].src, prog.jobs[i - 1]);
    hide Holding; hide Region; hide Body;
  }

  lemma ReturnStep(prog: Task, n: nat, s: State, i: nat)
    requires CanUnpack(prog, n, s, i)
    ensures Next(prog, n, Halfway(prog, s, i), Return(i)) == Some(Unpack(prog, s, i))
  {
    hide Raw;
    var p := s.workers[i];
    assert Halfway(prog, s, i).workers[i := Checking(s.at[p.src], p.dst, p.entry, true)] == Unpack(prog, s, i).workers;
  }

  lemma UnpackBlock(prog: Task, n: nat, run: seq<Action>, s: State, o: Ghost, i: nat)
      returns (run': seq<Action>, o': Ghost)
    requires Reached(prog, n, run, s, o) && CanUnpack(prog, n, s, i)
    ensures Reached(prog, n, run', Unpack(prog, s, i), o')
  {
    SourceRead(prog, n, run, s, o, i);
    hide Reached; hide Holding; hide Next; hide Raw;
    DecodeStep(prog, n, s, i);
    ReturnStep(prog, n, s, i);
    run', o' := Go(prog, n, run, s, o, Decode(i));
    run', o' := Go(prog, n, run', Halfway(prog, s, i), o', Return(i));
  }

  // ---------- the run ----------

  /** Two chunks are read, and the second is decoded. */
  ghost predicate TwoRead(prog: Task, n: nat, s: State) {
    && n >= 2 && |prog.jobs| >= 2 && prog.jobs[0].Packed? && prog.jobs[1].Packed?
    && s.pc == 2 && s.main.Reading? && !s.err && s.out == [] && s.toRead == UpTo(n + 1)[2..] + [1]
    && s.written == UpTo(n + 1)[2..]
    && |s.reUse| == n - 2 && s.inbox == multiset{} && |s.queue| == 2
    && s.workers.Keys == {0, 1, 2} && s.workers[0] == Passing && s.workers[1] == Decoding(0, 0, s.queue[0])
    && 0 in s.at && 1 in s.at && s.workers[2] == Checking(s.at[1], 1, s.queue[1], true)
    && 1 in s.heap && Raw(prog.jobs[1]) == Some(s.heap[1])
    && Holding(s.memory, s.at, 0, prog.jobs[0]) && Holding(s.memory, s.at, 1, prog.jobs[1])
  }

  lemma ReadTwo(prog: Task, n: nat) returns (run: seq<Action>, s: State, o: Ghost)
    requires n >= 2 && |prog.jobs| >= 2 && prog.jobs[0].Packed? && prog.jobs[1].Packed? && Raw(prog.jobs[1]).Some?
    ensures Reached(prog, n, run, s, o) && TwoRead(prog, n, s)
  {
    hide Reached; hide Intact; hide Raw; hide Holding;
    run, o := Seed(prog, n);
    run, s, o := ReadAhead(prog, n, run, Seeded(n), o, 2);
    LoadedTwo(prog, n, run, s, o);
    HoldingMeans(s, 0, prog.jobs[0]);
    HoldingMeans(s, 1, prog.jobs[1]);
    AheadOfSeed(n, s);
    var s1 := s;
    run, o := UnpackBlock(prog, n, run, s, o, 2);
    s := Unpack(prog, s1, 2);
    assert s.workers.Keys == s1.workers.Keys;
  }

  lemma AheadOfSeed(n: nat, s: State)
    requires n >= 2 && Ahead(Seeded(n), s, 2)
    ensures s.pc == 2 && s.main.Reading? && !s.err && s.out == [] && s.toRead == UpTo(n + 1)[2..] &&
            s.written == UpTo(n + 1)[2..]
    ensures |s.reUse| == n - 2 && s.inbox == multiset{} && |s.queue| == 2
    ensures s.workers.Keys == {0, 1, 2} && s.workers[0] == Passing
    ensures s.workers[1] == Decoding(0, 0, s.queue[0]) && s.workers[2] == Decoding(1, 1, s.queue[1])
  {
    hide Intact;
    assert 1 in s.workers && 2 in s.workers && 0 in s.workers;
    assert s.workers.Keys == {0, 1, 2};
  }

  lemma HoldingMeans(s: State, x: nat, job: Job)
    requires Holding(s.memory, s.at, x, job)
    ensures x in s.at && s.at[x] < |s.memory| && job.Packed? && job.chunk <= s.memory[s.at[x]]
  {
  }

  lemma LoadedTwo(prog: Task, n: nat, run: seq<Action>, s: State, o: Ghost)
    requires Reached(prog, n, run, s, o) && |prog.jobs| >= 2 && Ahead(Seeded(n), s, 2)
    ensures Holding(s.memory, s.at, 0, prog.jobs[0]) && Holding(s.memory, s.at, 1, prog.jobs[1])
  {
    hide Owned; hide Turns; hide Filled; hide Written; hide Exec; hide Holding; hide Intact;
    LoadedAt(prog, s, 1);
    LoadedAt(prog, s, 2);
  }

  /** A worker that accepts its block gets the writer. */
  lemma Accept(prog: Task, n: nat, run: seq<Action>, s: State, o: Ghost, i: nat, dst: nat, e: nat)
    returns (run': seq<Action>, o': Ghost)
    requires Reached(prog, n, run, s, o) && i in s.workers && s.workers[i].Checking? && 0 < i <= |prog.jobs| &&
             prog.jobs[i - 1].Packed?
    requires Passes(prog, s, i) && s.workers[i].dst == dst && s.workers[i].entry == e && s.inbox == multiset{e}
    ensures Reached(prog, n, run', s.(workers := s.workers[i := Writing(Some(dst), e)], inbox := multiset{}), o')
  {
    hide Reached; hide Passes; hide MainStep;
    run', o' := Go(prog, n, run, s, o, Check(i));
    var s1 := s.(workers := s.workers[i := Waiting(Some(dst), e)]);
    run', o' := Go(prog, n, run', s1, o', GetTurn(i));
    assert s1.workers[i := Writing(Some(dst), e)] == s.workers[i := Writing(Some(dst), e)];
  }

  /** It writes its block and gives everything back. */
  lemma Deliver(prog: Task, n: nat, run: seq<Action>, s: State, o: Ghost, i: nat, dst: nat, e: nat)
    returns (run': seq<Action>, o': Ghost)
    requires Reached(prog, n, run, s, o) && i in s.workers && s.workers[i] == Writing(Some(dst), e) && dst in s.heap
    requires |s.written| <= n && |s.reUse| < n
    ensures Reached(prog, n, run', s.(workers := s.workers[i := Passing], out := s.out + s.heap[dst],
                                      written := s.written + [dst],
                                      reUse := s.reUse + [e]), o')
  {
    hide Reached; hide MainStep; hide EarlyStep;
    run', o' := Go(prog, n, run, s, o, Write(i));
    var s1 := s.(workers := s.workers[i := Wrote(Some(dst), e)], out := s.out + s.heap[dst]);
    run', o' := Go(prog, n, run', s1, o', GiveBack(i));
    var s2 := s1.(workers := s.workers[i := Freeing(e)], written := s.written + [dst]);
    assert s1.workers[i := Freeing(e)] == s2.workers;
    run', o' := Go(prog, n, run', s2, o', FreeEntry(i));
    assert s2.workers[i := Passing] == s.workers[i := Passing];
  }

  lemma HandOn(prog: Task, n: nat, run: seq<Action>, s: State, o: Ghost, i: nat) returns (run': seq<Action>, o': Ghost)
    requires Reached(prog, n, run, s, o) && i in s.workers && s.workers[i] == Passing && s.queue != [] &&
             s.inbox == multiset{}
    ensures Reached(prog, n, run', s.(workers := s.workers - {i}, queue := s.queue[1..], inbox := multiset{s.queue[0]}),
                    o')
  {
    hide Reached; hide MainStep; hide EarlyStep;
    run', o' := Go(prog, n, run, s, o, PassOn(i));
    assert multiset{} + multiset{s.queue[0]} == multiset{s.queue[0]};
  }

  /** Only worker 2 is left, and about to check its block. */
  ghost predicate OneLeft(prog: Task, n: nat, s: State) {
    && n >= 2 && |prog.jobs| >= 2 && prog.jobs[1].Packed?
    && s.pc == 2 && s.main.Reading? && !s.err && s.toRead == UpTo(n + 1)[2..] + [1, 0]
    && s.written == UpTo(n + 1)[2..] + [0]
    && |s.reUse| == n - 1 && s.queue == [] && s.workers.Keys == {2} && s.workers[2].Checking? && s.workers[2].ok
    && 1 in s.at && s.workers[2].mem == s.at[1] && s.workers[2].dst == 1
    && 1 in s.heap && Raw(prog.jobs[1]) == Some(s.heap[1])
    && Holding(s.memory, s.at, 1, prog.jobs[1])
  }

  lemma PassesHonest(prog: Task, s: State, i: nat, x: nat)
    requires i in s.workers && s.workers[i].Checking? && 0 < i <= |prog.jobs| &&
             Holding(s.memory, s.at, x, prog.jobs[i - 1])
    requires s.workers[i].mem == s.at[x] && s.workers[i].ok && s.workers[i].dst in s.heap
    requires Honest(prog.c, prog.jobs[i - 1]) == Some(s.heap[s.workers[i].dst])
    ensures Passes(prog, s, i)
  {
    Same(s.memory, s.at, x, prog.jobs[i - 1]);
    hide Region; hide Body;
  }

  /** Workers 1 and 2 are about to check their blocks, and worker 1 is about to get the writer. */
  ghost predicate TwoChecking(prog: Task, n: nat, s: State, e: nat) {
    && n >= 2 && |prog.jobs| >= 2 && prog.jobs[0].Packed? && prog.jobs[1].Packed?
    && s.pc == 2 && s.main.Reading? && !s.err && s.out == [] && s.toRead == UpTo(n + 1)[2..] + [1, 0]
    && s.written == UpTo(n + 1)[2..]
    && |s.reUse| == n - 2 && s.inbox == multiset{e} && |s.queue| == 1 && s.workers.Keys == {1, 2}
    && 0 in s.at && s.workers[1] == Checking(s.at[0], 0, e, true)
    && 1 in s.at && s.workers[2] == Checking(s.at[1], 1, s.queue[0], true)
    && 0 in s.heap && Raw(prog.jobs[0]) == Some(s.heap[0]) && 1 in s.heap && Raw(prog.jobs[1]) == Some(s.heap[1])
    && Holding(s.memory, s.at, 0, prog.jobs[0]) && Holding(s.memory, s.at, 1, prog.jobs[1])
  }

  lemma UnpackFirst(prog: Task, n: nat, run: seq<Action>, s: State, o: Ghost)
    returns (run': seq<Action>, s': State, o': Ghost)
    requires Reached(prog, n, run, s, o) && TwoRead(prog, n, s) && Raw(prog.jobs[0]).Some?
    ensures Reached(prog, n, run', s', o') && TwoChecking(prog, n, s', s.queue[0])
  {
    hide Reached; hide Holding; hide Raw;
    run', o' := HandOn(prog, n, run, s, o, 0);
    var s1 := s.(workers := s.workers - {0}, queue := s.queue[1..], inbox := multiset{s.queue[0]});
    assert s1.workers.Keys == {1, 2};
    run', o' := UnpackBlock(prog, n, run', s1, o', 1);
    s' := Unpack(prog, s1, 1);
    assert s'.workers.Keys == s1.workers.Keys;
    assert s'.toRead == UpTo(n + 1)[2..] + [1, 0];
  }

  lemma WriteFirst(prog: Task, n: nat, run: seq<Action>, s: State, o: Ghost, e: nat)
    returns (run': seq<Action>, s': State, o': Ghost)
    requires Reached(prog, n, run, s, o) && TwoChecking(prog, n, s, e) && Passes(prog, s, 1)
    ensures Reached(prog, n, run', s', o') && OneLeft(prog, n, s')
  {
    hide Reached; hide Holding; hide Raw; hide Passes;
    run', o' := Accept(prog, n, run, s, o, 1, 0, e);
    var s1 := s.(workers := s.workers[1 := Writing(Some(0), e)], inbox := multiset{});
    run', o' := Deliver(prog, n, run', s1, o', 1, 0, e);
    var s2 := s1.(workers := s1.workers[1 := Passing], out := s1.out + s1.heap[0], written := s1.written + [0],
                  reUse := s1.reUse + [e]);
    run', o' := HandOn(prog, n, run', s2, o', 1);
    s' := s2.(workers := s2.workers - {1}, queue := s2.queue[1..], inbox := multiset{s2.queue[0]});
    assert s'.workers.Keys == {2};
  }

  lemma FirstPasses(prog: Task, n: nat, s: State, e: nat)
    requires TwoChecking(prog, n, s, e) && Honest(prog.c, prog.jobs[0]).Some?
    ensures Passes(prog, s, 1)
  {
    assert Honest(prog.c, prog.jobs[0]) == Raw(prog.jobs[0]);
    hide Raw; hide Honest; hide Holding; hide Passes;
    PassesHonest(prog, s, 1, 0);
  }

  /** What the checksum of worker 2's block is taken of, if the chunk of block `k` was read over it. */
  function Overwritten(prog: Task, k: nat): (r: seq<Byte>)
    requires |prog.jobs| >= 2 && prog.jobs[1].Packed? && k < |prog.jobs| && prog.jobs[k].Packed?
    requires |prog.jobs[k].chunk| <= |prog.jobs[1].chunk|
  {
    Body(prog.jobs[1], prog.jobs[k].chunk + prog.jobs[1].chunk[|prog.jobs[k].chunk|..])
  }

  lemma OverwrittenRegion(prog: Task, k: nat, s: State, m: nat)
    requires |prog.jobs| >= 2 && prog.jobs[1].Packed? && k < |prog.jobs| && prog.jobs[k].Packed?
    requires |prog.jobs[k].chunk| <= |prog.jobs[1].chunk|
    requires 1 in s.at && s.at[1] == m < |s.memory| && prog.jobs[1].chunk <= s.memory[m]
    ensures var s' := Fill(s, 1, prog.jobs[k].chunk, prog.jobs[k].room);
            m < |s'.memory| && Region(s'.memory, m, prog.jobs[1]) == Overwritten(prog, k)
  {
    var job, chunk, was := prog.jobs[1], prog.jobs[k].chunk, s.memory[m];
    var now := chunk + was[|chunk|..];
    if job.from <= |job.chunk| {
      assert now[..|job.chunk|] == chunk + job.chunk[|chunk|..];
      assert now[job.from..|job.chunk|] == now[..|job.chunk|][job.from..];
    }
  }

  /**
   The failing run: with `n` goroutines, block `n + 2` is read over block 2, which has been decoded, before
   the checksum of block 2 is compared.
   */
  lemma Clobbered(prog: Task, n: nat) returns (run: seq<Action>)
    requires n >= 2 && |prog.jobs| >= n + 2 && forall i :: 0 <= i < n + 2 ==> prog.jobs[i].Packed?
    requires Honest(prog.c, prog.jobs[0]).Some? && Raw(prog.jobs[1]).Some? && ChecksOwn(prog.c, prog.jobs[1])
    requires |prog.jobs[n + 1].chunk| <= |prog.jobs[1].chunk| &&
             prog.c.crc(Overwritten(prog, n + 1)) != prog.jobs[1].sum
    ensures Exec(prog, n, Start(n), run).Some?
    ensures var s := Exec(prog, n, Start(n), run).value; Finished(s) && s.err
  {
    var s, o;
    run, s, o := ReadTwo(prog, n);
    assert Raw(prog.jobs[0]).Some?;
    hide Reached; hide TwoRead; hide TwoChecking; hide OneLeft; hide Clobber; hide Raw; hide Honest; hide Overwritten;
    var e := s.queue[0];
    run, s, o := UnpackFirst(prog, n, run, s, o);
    FirstPasses(prog, n, s, e);
    run, s, o := WriteFirst(prog, n, run, s, o, e);
    run, s, o := Overwrite(prog, n, run, s, o);
    CannotPass(prog, n, s);
    var dst, entry := CheckedBy(prog, n, s);
    run, o := Refuse(prog, n, run, s, o, 2, dst, entry);
    s := s.(workers := s.workers[2 := Waiting(None, entry)], written := s.written + [dst], err := true);
    run, s, o := Finish(prog, n, run, s, o);
    Reaches(prog, n, run, s, o);
  }

  lemma Reaches(prog: Task, n: nat, run: seq<Action>, s: State, o: Ghost)
    requires Reached(prog, n, run, s, o)
    ensures n >= 2 && Exec(prog, n, Start(n), run) == Some(s)
  {
    hide Exec; hide Inv;
  }

  /** The chunk of block `n + 2` is in the memory that worker 2 checks. */
  ghost predicate Clobber(prog: Task, n: nat, s: State) {
    && |prog.jobs| >= n + 2 && prog.jobs[1].Packed? && prog.jobs[n + 1].Packed?
    && |prog.jobs[n + 1].chunk| <= |prog.jobs[1].chunk|
    && 2 in s.workers && s.workers[2].Checking? && |s.written| <= n
    && Region(s.memory, s.workers[2].mem, prog.jobs[1]) == Overwritten(prog, n + 1)
  }

  lemma Overwrite(prog: Task, n: nat, run: seq<Action>, s: State, o: Ghost)
      returns (run': seq<Action>, s': State, o': Ghost)
    requires Reached(prog, n, run, s, o) && OneLeft(prog, n, s)
    requires |prog.jobs| >= n + 2 && forall i :: 0 <= i < n + 2 ==> prog.jobs[i].Packed?
    requires |prog.jobs[n + 1].chunk| <= |prog.jobs[1].chunk|
    ensures Reached(prog, n, run', s', o') && Clobber(prog, n, s')
  {
    hide Reached; hide Raw; hide Holding; hide Ahead;
    var s1;
    run', s1, o' := ReadAhead(prog, n, run, s, o, n - 1);
    UpToHere(prog, n, s, s1);
    run', s', o' := ReadOver(prog, n, run', s1, o');
  }

  /** Source buffer 1 is next, and its memory is what worker 2 is about to check. */
  ghost predicate AboutToRead(prog: Task, n: nat, s: State) {
    && n >= 2 && |prog.jobs| >= n + 2 && prog.jobs[1].Packed? && prog.jobs[n + 1].Packed?
    && s.main.Reading? && !s.err && s.pc == n + 1 && |s.written| == 1 && |s.toRead| > 0 && s.toRead[0] == 1 && 1 in s.at
    && 2 in s.workers && s.workers[2].Checking? && s.workers[2].mem == s.at[1] < |s.memory|
    && prog.jobs[1].chunk <= s.memory[s.at[1]]
  }

  lemma UpToHere(prog: Task, n: nat, s: State, s': State)
    requires OneLeft(prog, n, s) && Ahead(s, s', n - 1)
    requires |prog.jobs| >= n + 2 && prog.jobs[n + 1].Packed?
    ensures AboutToRead(prog, n, s')
  {
    HoldingMeans(s, 1, prog.jobs[1]);
    hide Holding; hide Raw;
    assert s'.toRead[0] == s.toRead[n - 1] == 1;
    assert 1 !in s.toRead[..n - 1];
    assert Intact(s, s', 1);
    assert s'.workers[2] == s.workers[2];
  }

  lemma ReadOver(prog: Task, n: nat, run: seq<Action>, s: State, o: Ghost)
      returns (run': seq<Action>, s': State, o': Ghost)
    requires Reached(prog, n, run, s, o) && AboutToRead(prog, n, s) && |prog.jobs[n + 1].chunk| <= |prog.jobs[1].chunk|
    ensures Reached(prog, n, run', s', o') && Clobber(prog, n, s')
  {
    hide Reached; hide Fill; hide Region; hide Overwritten; hide WorkerStep;
    run', o' := Go(prog, n, run, s, o, Begin);
    var s1 := s.(main := Begun);
    FillRest(s1, 1, prog.jobs[n + 1].chunk, prog.jobs[n + 1].room);
    OverwrittenRegion(prog, n + 1, s1, s.at[1]);
    run', o' := Go(prog, n, run', s1, o', TakeSrc);
    s' := Next(prog, n, s1, TakeSrc).value;
  }

  lemma CheckedBy(prog: Task, n: nat, s: State) returns (dst: nat, e: nat)
    requires Clobber(prog, n, s)
    ensures |s.written| <= n && |prog.jobs| >= 2 && prog.jobs[1].Packed?
    ensures 2 in s.workers && s.workers[2].Checking? && s.workers[2].dst == dst && s.workers[2].entry == e
  {
    hide Region; hide Overwritten;
    dst, e := s.workers[2].dst, s.workers[2].entry;
  }

  lemma CannotPass(prog: Task, n: nat, s: State)
    requires Clobber(prog, n, s) && ChecksOwn(prog.c, prog.jobs[1]) &&
             prog.c.crc(Overwritten(prog, n + 1)) != prog.jobs[1].sum
    ensures 2 in s.workers && s.workers[2].Checking? && |prog.jobs| >= 2 && prog.jobs[1].Packed? && !Passes(prog, s, 2)
  {
    hide Region; hide Overwritten;
  }

  lemma CheckStep(prog: Task, n: nat, s: State, i: nat)
    requires i in s.workers && s.workers[i].Checking? && 0 < i <= |prog.jobs| && prog.jobs[i - 1].Packed? &&
             !Passes(prog, s, i)
    ensures Next(prog, n, s, Check(i)) ==
              Some(s.(workers := s.workers[i := Failing(s.workers[i].dst, s.workers[i].entry)]))
  {
    hide Passes;
  }

  lemma FailStep(prog: Task, n: nat, s: State, i: nat)
    requires i in s.workers && s.workers[i].Failing? && |s.written| <= n
    ensures Next(prog, n, s, Fail(i)) ==
            Some(s.(workers := s.workers[i := Erring(s.workers[i].entry)], written := s.written + [s.workers[i].dst]))
  {
  }

  lemma SetErrStep(prog: Task, n: nat, s: State, i: nat)
    requires i in s.workers && s.workers[i].Erring?
    ensures Next(prog, n, s, SetErr(i)) ==
              Some(s.(workers := s.workers[i := Waiting(None, s.workers[i].entry)], err := true))
  {
  }

  /** A worker that refuses its block. */
  lemma Refuse(prog: Task, n: nat, run: seq<Action>, s: State, o: Ghost, i: nat, dst: nat, e: nat)
    returns (run': seq<Action>, o': Ghost)
    requires Reached(prog, n, run, s, o) && i in s.workers && s.workers[i].Checking? && 0 < i <= |prog.jobs| &&
             prog.jobs[i - 1].Packed?
    requires !Passes(prog, s, i) && s.workers[i].dst == dst && s.workers[i].entry == e && |s.written| <= n
    ensures Reached(prog, n, run', s.(workers := s.workers[i := Waiting(None, e)], written := s.written + [dst],
                                      err := true), o')
  {
    hide Reached; hide Passes; hide Next;
    CheckStep(prog, n, s, i);
    run', o' := Go(prog, n, run, s, o, Check(i));
    var s1 := s.(workers := s.workers[i := Failing(dst, e)]);
    FailStep(prog, n, s1, i);
    run', o' := Go(prog, n, run', s1, o', Fail(i));
    var s2 := s1.(workers := s1.workers[i := Erring(e)], written := s1.written + [dst]);
    SetErrStep(prog, n, s2, i);
    run', o' := Go(prog, n, run', s2, o', SetErr(i));
    assert s2.workers[i := Waiting(None, e)] == s.workers[i := Waiting(None, e)];
  }

  // ---------- behind a bad block ----------

  lemma WriteNothing(prog: Task, n: nat, run: seq<Action>, s: State, o: Ghost, i: nat, e: nat)
    returns (run': seq<Action>, o': Ghost)
    requires Reached(prog, n, run, s, o) && i in s.workers && s.workers[i] == Waiting(None, e) && s.inbox == multiset{e}
    ensures Reached(prog, n, run', s.(workers := s.workers[i := Wrote(None, e)], inbox := multiset{}), o')
  {
    hide Reached; hide MainStep; hide EarlyStep;
    run', o' := Go(prog, n, run, s, o, GetTurn(i));
    var s1 := s.(workers := s.workers[i := Writing(None, e)], inbox := multiset{});
    run', o' := Go(prog, n, run', s1, o', Write(i));
    assert s1.workers[i := Wrote(None, e)] == s.workers[i := Wrote(None, e)] && s1.out + [] == s1.out;
  }

  /** A worker that has nothing to write passes the writer on. */
  lemma SkipTurn(prog: Task, n: nat, run: seq<Action>, s: State, o: Ghost, i: nat, e: nat)
    returns (run': seq<Action>, o': Ghost)
    requires Reached(prog, n, run, s, o) && i in s.workers && s.workers[i] == Waiting(None, e) && s.inbox == multiset{e}
    requires |s.reUse| < n && s.queue != []
    ensures Reached(prog, n, run', s.(workers := s.workers - {i}, reUse := s.reUse + [e], queue := s.queue[1..],
                                      inbox := multiset{s.queue[0]}), o')
  {
    hide Reached; hide MainStep; hide EarlyStep;
    run', o' := WriteNothing(prog, n, run, s, o, i, e);
    var s1 := s.(workers := s.workers[i := Wrote(None, e)], inbox := multiset{});
    run', o' := Go(prog, n, run', s1, o', GiveBack(i));
    var s2 := s1.(workers := s1.workers[i := Freeing(e)]);
    run', o' := Go(prog, n, run', s2, o', FreeEntry(i));
    var s3 := s2.(workers := s2.workers[i := Passing], reUse := s.reUse + [e]);
    run', o' := HandOn(prog, n, run', s3, o', i);
    assert s3.workers - {i} == s.workers - {i};
  }

  lemma HonestChecks(prog: Task, n: nat, s: State, e: nat)
    requires TwoChecking(prog, n, s, e)
    ensures Passes(prog, s, 1) == Honest(prog.c, prog.jobs[0]).Some? &&
            Passes(prog, s, 2) == Honest(prog.c, prog.jobs[1]).Some?
    ensures Honest(prog.c, prog.jobs[1]).Some? ==> Honest(prog.c, prog.jobs[1]) == Some(s.heap[1])
  {
    Same(s.memory, s.at, 0, prog.jobs[0]);
    Same(s.memory, s.at, 1, prog.jobs[1]);
    hide Region; hide Body; hide Raw; hide Holding;
  }

  /** Worker 1 has passed the writer on without writing, and worker 2 still has its block to check. */
  ghost predicate Skipped(prog: Task, n: nat, s: State, e: nat, data: seq<Byte>) {
    && s.err && s.out == [] && s.inbox == multiset{e} && |prog.jobs| >= 2 && prog.jobs[1].Packed?
    && 2 in s.workers && s.workers[2].Checking? && s.workers[2].entry == e && s.workers[2].dst == 1
    && Passes(prog, s, 2)
    && 1 in s.heap && s.heap[1] == data
  }

  lemma SkipBad(prog: Task, n: nat, run: seq<Action>, s: State, o: Ghost, e: nat, data: seq<Byte>)
    returns (run': seq<Action>, s': State, o': Ghost)
    requires Reached(prog, n, run, s, o) && TwoChecking(prog, n, s, e)
    requires Honest(prog.c, prog.jobs[0]).None? && Honest(prog.c, prog.jobs[1]) == Some(data)
    ensures Reached(prog, n, run', s', o') && Skipped(prog, n, s', s.queue[0], data)
  {
    hide Reached; hide Raw; hide Honest; hide Holding; hide Passes;
    HonestChecks(prog, n, s, e);
    run', o' := Refuse(prog, n, run, s, o, 1, 0, e);
    var s1 := s.(workers := s.workers[1 := Waiting(None, e)], written := s.written + [0], err := true);
    run', o' := SkipTurn(prog, n, run', s1, o', 1, e);
    s' := s1.(workers := s1.workers - {1}, reUse := s1.reUse + [e], queue := s1.queue[1..],
              inbox := multiset{s1.queue[0]});
    assert 2 in s.workers.Keys;
    StillPasses(prog, s, s', 2);
  }

  lemma StillPasses(prog: Task, s: State, s': State, i: nat)
    requires i in s.workers && s.workers[i].Checking? && 0 < i <= |prog.jobs| && prog.jobs[i - 1].Packed? &&
             Passes(prog, s, i)
    requires i in s'.workers && s'.workers[i] == s.workers[i] && s'.memory == s.memory && s'.heap == s.heap
    ensures Passes(prog, s', i)
  {
  }

  /** A block is written although the one before it was refused. */
  lemma BehindBad(prog: Task, n: nat) returns (run: seq<Action>)
    requires n >= 2 && |prog.jobs| >= 2 && prog.jobs[0].Packed? && prog.jobs[1].Packed?
    requires Raw(prog.jobs[0]).Some? && Honest(prog.c, prog.jobs[0]).None? && Honest(prog.c, prog.jobs[1]).Some?
    ensures Exec(prog, n, Start(n), run).Some?
    ensures var s := Exec(prog, n, Start(n), run).value; s.err && s.out == Honest(prog.c, prog.jobs[1]).value
  {
    assert Raw(prog.jobs[1]).Some?;
    hide Reached; hide TwoRead; hide TwoChecking; hide Raw; hide Honest; hide Exec;
    var data := Honest(prog.c, prog.jobs[1]).value;
    var s, o;
    run, s, o := ReadTwo(prog, n);
    var e := s.queue[0];
    run, s, o := UnpackFirst(prog, n, run, s, o);
    var e2 := s.queue[0];
    run, s, o := SkipBad(prog, n, run, s, o, e, data);
    run, o := Accept(prog, n, run, s, o, 2, 1, e2);
    s := s.(workers := s.workers[2 := Writing(Some(1), e2)], inbox := multiset{});
    run, s, o := WriteIt(prog, n, run, s, o, 2, 1, e2);
    Reaches(prog, n, run, s, o);
  }

  lemma WriteIt(prog: Task, n: nat, run: seq<Action>, s: State, o: Ghost, i: nat, dst: nat, e: nat)
    returns (run': seq<Action>, s': State, o': Ghost)
    requires Reached(prog, n, run, s, o) && i in s.workers && s.workers[i] == Writing(Some(dst), e) && dst in s.heap
    ensures Reached(prog, n, run', s', o') && s'.err == s.err && s'.out == s.out + s.heap[dst]
  {
    hide Reached; hide MainStep; hide EarlyStep;
    run', o' := Go(prog, n, run, s, o, Write(i));
    s' := Next(prog, n, s, Write(i)).value;
  }
}
