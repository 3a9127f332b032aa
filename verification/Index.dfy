/** index.go: the seek index of a stream, without its serialised form. */
module Index {
  import opened Bytes

  const MAX_INDEX_ENTRIES: nat := 65536
  const MIN_INDEX_DIST: nat := 0x10_0000

  datatype OffsetPair = OffsetPair(c: int, u: int)

  // ---------- what the reductions keep ----------

  /** The first position from `idx` on that is at least `est` uncompressed bytes after `base`. */
  function Skip(offs: seq<OffsetPair>, est: int, base: int, idx: nat): (r: nat)
    requires idx <= |offs|
    ensures idx <= r <= |offs|
    ensures r < |offs| ==> offs[r].u - base >= est
    ensures idx < r ==> offs[r - 1].u - base < est
    decreases |offs| - idx
  {
    if idx < |offs| && offs[idx].u - base < est then Skip(offs, est, base, idx + 1) else idx
  }

  /**
   What `reduceLight` keeps from `idx` on: an entry, and then nothing up to and including the first
   entry far enough from it, because the outer loop steps over that one.
   */
  function Light(offs: seq<OffsetPair>, est: int, idx: nat): (r: seq<OffsetPair>)
    decreases |offs| - idx
  {
    if idx >= |offs| then []
    else [offs[idx]] + Light(offs, est, Skip(offs, est, offs[idx].u, idx) + 1)
  }

  /** What `reduce` keeps: one entry out of `step`. */
  function Every(offs: seq<OffsetPair>, step: nat, idx: nat): (r: seq<OffsetPair>)
    requires step >= 1
    decreases |offs| - idx
  {
    if idx >= |offs| then [] else [offs[idx]] + Every(offs, step, idx + step)
  }

  // ---------- the invariant of an index ----------

  /** Neighbours are at least `est` uncompressed bytes apart, and compressed offsets do not go back. */
  ghost predicate Spaced(offs: seq<OffsetPair>, est: int) {
    && (forall i {:trigger offs[i].u} :: 0 < i < |offs| ==> offs[i].u - offs[i - 1].u >= est)
    && (forall i {:trigger offs[i].c} :: 0 < i < |offs| ==> offs[i].c >= offs[i - 1].c)
  }

  /** `a` is what remains of `b` when some entries are removed; the first is not among them. */
  ghost predicate Thinned(a: seq<OffsetPair>, b: seq<OffsetPair>) {
    && (forall p :: p in a ==> p in b)
    && (b == [] <==> a == [])
    && (b != [] ==> a[0] == b[0])
  }

  lemma {:induction false} Apart(offs: seq<OffsetPair>, est: nat, i: nat, j: nat)
    requires Spaced(offs, est) && i <= j < |offs|
    ensures offs[j].u - offs[i].u >= est * (j - i) && offs[j].c >= offs[i].c
    decreases j
  {
    if i < j {
      Apart(offs, est, i, j - 1);
      assert offs[j].u - offs[j - 1].u >= est && offs[j].c >= offs[j - 1].c;
      assert est * (j - i) == est * (j - 1 - i) + est;
    }
  }

  lemma {:induction false} LightThins(offs: seq<OffsetPair>, est: nat, est2: int, idx: nat)
    requires Spaced(offs, est)
    ensures Spaced(Light(offs, est2, idx), est2)
    ensures forall p :: p in Light(offs, est2, idx) ==> p in offs
    ensures idx < |offs| <==> Light(offs, est2, idx) != []
    ensures idx < |offs| ==> Light(offs, est2, idx)[0] == offs[idx]
    ensures est2 > 0 && idx <= |offs| ==> 2 * |Light(offs, est2, idx)| <= |offs| - idx + 1
    decreases |offs| - idx
  {
    if idx < |offs| {
      hide Spaced;
      var k := Skip(offs, est2, offs[idx].u, idx);
      var rest := Light(offs, est2, k + 1);
      LightThins(offs, est, est2, k + 1);
      if k + 1 < |offs| {
        Apart(offs, est, k, k + 1);
        Apart(offs, est, idx, k + 1);
        assert rest[0] == offs[k + 1] && rest[0].u - offs[idx].u >= est2;
      }
      SpacedPrepend(offs[idx], rest, est2);
    }
  }

  lemma SpacedPrepend(p: OffsetPair, rest: seq<OffsetPair>, est: int)
    requires Spaced(rest, est) && (rest != [] ==> rest[0].u - p.u >= est && rest[0].c >= p.c)
    ensures Spaced([p] + rest, est)
  {
    var all := [p] + rest;
    forall i | 0 < i < |all|
      ensures all[i].u - all[i - 1].u >= est && all[i].c >= all[i - 1].c
    {
      assert all[i] == rest[i - 1];
      if i > 1 { assert all[i - 1] == rest[i - 2]; }
    }
  }

  lemma {:induction false} EveryThins(offs: seq<OffsetPair>, est: nat, step: nat, idx: nat)
    requires Spaced(offs, est) && step >= 1
    ensures Spaced(Every(offs, step, idx), est * step)
    ensures forall p :: p in Every(offs, step, idx) ==> p in offs
    ensures idx < |offs| <==> Every(offs, step, idx) != []
    ensures idx < |offs| ==> Every(offs, step, idx)[0] == offs[idx]
    ensures idx <= |offs| ==> step * |Every(offs, step, idx)| <= |offs| - idx + step - 1
    decreases |offs| - idx
  {
    if idx < |offs| {
      hide Spaced;
      var rest := Every(offs, step, idx + step);
      EveryThins(offs, est, step, idx + step);
      if idx + step < |offs| {
        Apart(offs, est, idx, idx + step);
      }
      assert step * (|rest| + 1) == step * |rest| + step;
      SpacedPrepend(offs[idx], rest, est * step);
    }
  }

  // ---------- operations on values ----------

  datatype State = State(offs: seq<OffsetPair>, est: int)

  /** `reset`: the block size is doubled until it is at least 1 MiB. */
  function StartEstimate(maxBlock: nat): (r: nat)
    requires maxBlock > 0
    ensures r >= MIN_INDEX_DIST && r >= maxBlock && (r == maxBlock || r < 2 * MIN_INDEX_DIST)
    decreases MIN_INDEX_DIST - maxBlock
  {
    if maxBlock < MIN_INDEX_DIST then StartEstimate(maxBlock * 2) else maxBlock
  }

  datatype Added = Added(st: State) | Refused

  function AddState(st: State, c: int, u: int): (r: Added)
  {
    if st.offs != [] && u - st.offs[|st.offs| - 1].u < st.est then Added(st)
    else if st.offs != [] && (st.offs[|st.offs| - 1].u > u || st.offs[|st.offs| - 1].c > c) then Refused
    else
      var offs := st.offs + [OffsetPair(c, u)];
      if |offs| > MAX_INDEX_ENTRIES then Added(State(Light(offs, st.est * 2, 0), st.est * 2))
      else Added(State(offs, st.est))
  }

  /** How many entries `reduce` drops after each one it keeps. */
  function RemoveN(count: nat, est: nat, start: nat): (r: nat)
    ensures r >= start
    decreases count - start
  {
    if est * (start + 1) < MIN_INDEX_DIST && count / (start + 1) > 1000 && start < count
    then RemoveN(count, est, start + 1)
    else start
  }

  function ReduceState(st: State): (r: State)
    requires st.est >= 0
  {
    if |st.offs| < MAX_INDEX_ENTRIES then st
    else
      var n := RemoveN(|st.offs|, st.est, (|st.offs| + 1) / MAX_INDEX_ENTRIES);
      State(Every(st.offs, n + 1, 0), st.est + st.est * n)
  }

  /** What holds of every index built with a positive estimate. */
  ghost predicate Sound(st: State) {
    st.est > 0 && Spaced(st.offs, st.est) && |st.offs| <= MAX_INDEX_ENTRIES
  }

  /**
   An add in order keeps the spacing and the bound on the number of entries. It is refused only when
   compressed offsets go back, and it never drops the first entry.
   */
  lemma AddKeeps(st: State, c: int, u: int)
    requires Sound(st)
    ensures AddState(st, c, u).Refused? ==> st.offs != [] && st.offs[|st.offs| - 1].c > c
    ensures AddState(st, c, u).Added? ==>
              && Sound(AddState(st, c, u).st) && AddState(st, c, u).st.est >= st.est
              && (AddState(st, c, u).st == st || Thinned(AddState(st, c, u).st.offs, st.offs + [OffsetPair(c, u)]))
  {
    hide Spaced; hide Light;
    var offs := st.offs + [OffsetPair(c, u)];
    if AddState(st, c, u).Added? && AddState(st, c, u).st != st {
      SpacedAppend(st.offs, st.est, OffsetPair(c, u));
      LightThins(offs, st.est, st.est * 2, 0);
    }
  }

  lemma SpacedAppend(offs: seq<OffsetPair>, est: int, p: OffsetPair)
    requires Spaced(offs, est) && (offs != [] ==> p.u - offs[|offs| - 1].u >= est && p.c >= offs[|offs| - 1].c)
    ensures Spaced(offs + [p], est)
  {
    var all := offs + [p];
    forall i | 0 < i < |all|
      ensures all[i].u - all[i - 1].u >= est && all[i].c >= all[i - 1].c
    {
      if i < |offs| { assert all[i] == offs[i] && all[i - 1] == offs[i - 1]; }
    }
  }

  lemma KeptBelow(step: nat, k: nat, count: nat, max: nat)
    requires step >= 2 && count <= max && max >= 1 && step * k <= count + step - 1
    ensures k < max || max == 1
  {
    if k >= max {
      var more := k - max;
      assert step * k == step * max + step * more;
      assert step * max == step + step * (max - 1);
      assert step * (max - 1) >= 2 * (max - 1);
      assert step * more >= 0;
    }
  }

  lemma ReduceKeeps(st: State)
    requires Sound(st)
    ensures Sound(ReduceState(st)) && Thinned(ReduceState(st).offs, st.offs)
    ensures |ReduceState(st).offs| < MAX_INDEX_ENTRIES && ReduceState(st).est >= st.est
  {
    if |st.offs| >= MAX_INDEX_ENTRIES {
      var n := RemoveN(|st.offs|, st.est, (|st.offs| + 1) / MAX_INDEX_ENTRIES);
      EveryThins(st.offs, st.est, n + 1, 0);
      KeptBelow(n + 1, |Every(st.offs, n + 1, 0)|, |st.offs|, MAX_INDEX_ENTRIES);
      NewEstimate(st.est, n);
    }
  }

  lemma NewEstimate(est: nat, n: nat)
    ensures est + est * n == est * (n + 1) >= est
  {
  }

  // ---------- whole runs ----------

  datatype Op = Add(c: int, u: int) | Reduce

  /** One operation of a run; a refused add leaves the index as it was. */
  function Apply(st: State, op: Op): (r: State)
    requires st.est > 0
    ensures r.est > 0
  {
    match op
    case Add(c, u) => (match AddState(st, c, u) case Added(x) => x case Refused => st)
    case Reduce =>
      NewEstimate(st.est, RemoveN(|st.offs|, st.est, (|st.offs| + 1) / MAX_INDEX_ENTRIES));
      ReduceState(st)
  }

  function Run(st: State, ops: seq<Op>): (r: State)
    requires st.est > 0
    ensures r.est > 0
    decreases |ops|
  {
    if ops == [] then st else Run(Apply(st, ops[0]), ops[1..])
  }

  lemma ApplySound(st: State, op: Op)
    requires Sound(st)
    ensures Sound(Apply(st, op)) && Apply(st, op).est >= st.est
    ensures st.offs != [] ==> Apply(st, op).offs != [] && Apply(st, op).offs[0] == st.offs[0]
    ensures forall p :: p in Apply(st, op).offs ==> p in st.offs || op == Add(p.c, p.u)
  {
    hide AddState; hide ReduceState; hide Spaced;
    match op {
      case Add(c, u) => AddKeeps(st, c, u);
      case Reduce => ReduceKeeps(st);
    }
  }

  /**
   Over any run the index stays spaced and bounded, holds nothing but pairs that were added, and keeps
   the first entry it ever had.
   */
  lemma {:induction false} RunSound(st: State, ops: seq<Op>)
    requires Sound(st)
    ensures Sound(Run(st, ops)) && Run(st, ops).est >= st.est
    ensures st.offs != [] ==> Run(st, ops).offs != [] && Run(st, ops).offs[0] == st.offs[0]
    ensures forall p :: p in Run(st, ops).offs ==> p in st.offs || Add(p.c, p.u) in ops
    decreases |ops|
  {
    if ops != [] {
      hide Sound; hide Apply;
      ApplySound(st, ops[0]);
      RunSound(Apply(st, ops[0]), ops[1..]);
      forall p | p in Run(st, ops).offs
        ensures p in st.offs || Add(p.c, p.u) in ops
      {
        assert p in Apply(st, ops[0]).offs || Add(p.c, p.u) in ops[1..];
      }
    }
  }

  // ---------- the class ----------

  datatype Found = At(c: int, u: int) | ErrCorrupt | ErrUnexpectedEOF

  /** The number of entries at or before `offset`. */
  ghost predicate Before(offs: seq<OffsetPair>, offset: int, n: nat) {
    && n <= |offs|
    && (forall i {:trigger offs[i].u} :: 0 <= i < n ==> offs[i].u <= offset)
    && (forall i {:trigger offs[i].u} :: n <= i < |offs| ==> offs[i].u > offset)
  }

  ghost predicate Increasing(offs: seq<OffsetPair>) {
    forall i, j {:trigger offs[i].u, offs[j].u} :: 0 <= i < j < |offs| ==> offs[i].u < offs[j].u
  }

  class SeekIndex {
    var totalUncompressed: int
    var totalCompressed: int
    var offsets: seq<OffsetPair>
    var estBlockUncomp: int

    function Value(): (r: State)
      reads this
    {
      State(offsets, estBlockUncomp)
    }

    method Reset(maxBlock0: nat)
      requires maxBlock0 > 0
      modifies this
      ensures Value() == State([], StartEstimate(maxBlock0)) && totalCompressed == totalUncompressed == -1
    {
      var maxBlock := maxBlock0;
      while maxBlock < MIN_INDEX_DIST
        invariant maxBlock > 0 && StartEstimate(maxBlock) == StartEstimate(maxBlock0)
        decreases MIN_INDEX_DIST - maxBlock
      {
        maxBlock := maxBlock * 2;
      }
      estBlockUncomp := maxBlock;
      totalCompressed, totalUncompressed := -1, -1;
      offsets := [];
    }

    /** One step of a compaction in place: slot `idx` is still intact, and moving it down keeps the rest. */
    static lemma MoveDown(offs: seq<OffsetPair>, was: seq<OffsetPair>, j: nat, idx: nat)
      requires j <= idx < |offs| == |was| && offs[j..] == was[j..]
      ensures offs[idx] == was[idx]
      ensures offs[j := offs[idx]][..j + 1] == offs[..j] + [was[idx]]
      ensures offs[j := offs[idx]][j + 1..] == was[j + 1..]
    {
      assert offs[idx] == offs[j..][idx - j] == was[j..][idx - j];
      assert offs[j + 1..] == offs[j..][1..] == was[j..][1..] == was[j + 1..];
    }

    /** The inner loop of `reduceLight`, reading the slice after `base` was stored at `j - 1`. */
    method SkipClose(base: OffsetPair, start: nat, ghost j: nat, ghost was: seq<OffsetPair>) returns (idx: nat)
      requires 1 <= j <= start + 1 && start < |offsets| == |was|
      requires offsets[j..] == was[j..] && was[start] == base && offsets[j - 1] == base
      ensures idx == Skip(was, estBlockUncomp, base.u, start)
    {
      idx := start;
      while idx < |offsets| && offsets[idx].u - base.u < estBlockUncomp
        invariant start <= idx <= |was|
        invariant idx < |was| ==> offsets[idx] == was[idx]
        invariant Skip(was, estBlockUncomp, base.u, start) == Skip(was, estBlockUncomp, base.u, idx)
      {
        idx := idx + 1;
        assert idx < |was| ==> offsets[idx] == offsets[j..][idx - j] == was[j..][idx - j];
      }
    }

    /**
     The compaction works in the slice it reads from: `offsets` is both. What it reads at `idx` has not
     been overwritten, since it writes behind `idx`.
     */
    method ReduceLight()
      modifies `offsets, `estBlockUncomp
      ensures Value() == State(Light(old(offsets), old(estBlockUncomp) * 2, 0), old(estBlockUncomp) * 2)
    {
      estBlockUncomp := estBlockUncomp * 2;
      ghost var was := offsets;
      var j, idx := 0, 0;
      while idx < |offsets|
        invariant 0 <= j <= idx && |offsets| == |was| && j <= |was|
        invariant offsets[j..] == was[j..]
        invariant estBlockUncomp == old(estBlockUncomp) * 2
        invariant offsets[..j] + Light(was, estBlockUncomp, idx) == Light(was, estBlockUncomp, 0)
      {
        var base := offsets[idx];
        MoveDown(offsets, was, j, idx);
        offsets := offsets[j := base];
        j := j + 1;
        idx := SkipClose(base, idx, j, was);
        idx := idx + 1;
      }
      offsets := offsets[..j];
    }

    method Add(compressedOffset: int, uncompressedOffset: int) returns (ok: bool)
      modifies `offsets, `estBlockUncomp
      ensures ok == AddState(old(Value()), compressedOffset, uncompressedOffset).Added?
      ensures Value() == if ok then AddState(old(Value()), compressedOffset, uncompressedOffset).st else old(Value())
    {
      var lastIdx := |offsets| - 1;
      if lastIdx >= 0 {
        var latest := offsets[lastIdx];
        if uncompressedOffset - latest.u < estBlockUncomp { return true; }
        if latest.u > uncompressedOffset { return false; }
        if latest.c > compressedOffset { return false; }
      }
      offsets := offsets + [OffsetPair(compressedOffset, uncompressedOffset)];
      if |offsets| > MAX_INDEX_ENTRIES { ReduceLight(); }
      return true;
    }

    /** How many entries to drop after each one kept. */
    method ChooseRemoveN() returns (removeN: nat)
      requires estBlockUncomp >= 0
      ensures removeN == RemoveN(|offsets|, estBlockUncomp, (|offsets| + 1) / MAX_INDEX_ENTRIES)
    {
      removeN := (|offsets| + 1) / MAX_INDEX_ENTRIES;
      while estBlockUncomp * (removeN + 1) < MIN_INDEX_DIST && |offsets| / (removeN + 1) > 1000
        invariant RemoveN(|offsets|, estBlockUncomp, removeN)
               == RemoveN(|offsets|, estBlockUncomp, (|offsets| + 1) / MAX_INDEX_ENTRIES)
        decreases |offsets| - removeN
      {
        StepBelowCount(|offsets|, removeN);
        removeN := removeN + 1;
      }
    }

    /** The compaction of `reduce`, again in the slice it reads from. */
    method KeepEvery(removeN: nat)
      modifies `offsets
      ensures offsets == Every(old(offsets), removeN + 1, 0)
    {
      ghost var was := offsets;
      var j, idx := 0, 0;
      while idx < |offsets|
        invariant 0 <= j <= idx && |offsets| == |was| && j <= |was|
        invariant offsets[j..] == was[j..]
        invariant offsets[..j] + Every(was, removeN + 1, idx) == Every(was, removeN + 1, 0)
      {
        MoveDown(offsets, was, j, idx);
        offsets := offsets[j := offsets[idx]];
        j := j + 1;
        idx := idx + removeN;
        idx := idx + 1;
      }
      offsets := offsets[..j];
    }

    method Reduce()
      requires estBlockUncomp >= 0
      modifies `offsets, `estBlockUncomp
      ensures Value() == ReduceState(old(Value()))
    {
      hide Every; hide RemoveN;
      if |offsets| < MAX_INDEX_ENTRIES { return; }
      var removeN := ChooseRemoveN();
      KeepEvery(removeN);
      estBlockUncomp := estBlockUncomp + estBlockUncomp * removeN;
    }

    static lemma StepBelowCount(count: nat, removeN: nat)
      requires count / (removeN + 1) > 1000
      ensures removeN < count
    {
      if removeN >= count {
        UniqueQuotient(count, removeN + 1, 0, count);
        assert false;
      }
    }

    /** `sort.Search` for the first entry after `offset`. */
    method SearchAfter(offset: int) returns (n: nat)
      requires Increasing(offsets)
      ensures Before(offsets, offset, n)
    {
      var i: nat, j := 0, |offsets|;
      while i < j
        invariant i <= j <= |offsets|
        invariant forall k {:trigger offsets[k].u} :: 0 <= k < i ==> offsets[k].u <= offset
        invariant forall k {:trigger offsets[k].u} :: j <= k < |offsets| ==> offsets[k].u > offset
      {
        var h := (i + j) / 2;
        if offsets[h].u > offset { j := h; } else { i := h + 1; }
      }
      n := i;
    }

    /**
     `Find`: the last entry at or before the offset, found by a scan or, above 200 entries, by binary
     search. When there is none the scan gives the start of the stream, the search the first entry.
     */
    method Find(offset0: int) returns (r: Found)
      requires Increasing(offsets)
      ensures r == ErrCorrupt <==> totalUncompressed < 0
      ensures totalUncompressed >= 0 ==>
                (r == ErrUnexpectedEOF <==>
                 offset0 > totalUncompressed || (offset0 < 0 && totalUncompressed + offset0 < 0))
      ensures r.At? ==>
                var offset := if offset0 < 0 then totalUncompressed + offset0 else offset0;
                exists n: nat :: Before(offsets, offset, n) &&
                  r == (if n > 0 then At(offsets[n - 1].c, offsets[n - 1].u)
                        else if |offsets| > 200 then At(offsets[0].c, offsets[0].u)
                        else At(0, 0))
    {
      var offset := offset0;
      if totalUncompressed < 0 { return ErrCorrupt; }
      if offset < 0 {
        offset := totalUncompressed + offset;
        if offset < 0 { return ErrUnexpectedEOF; }
      }
      if offset > totalUncompressed { return ErrUnexpectedEOF; }
      if |offsets| > 200 {
        var n := SearchAfter(offset);
        ghost var first := n;
        if n == 0 { n := 1; }
        assert Before(offsets, offset, first);
        return At(offsets[n - 1].c, offsets[n - 1].u);
      }
      var compressedOff, uncompressedOff := 0, 0;
      var k := 0;
      while k < |offsets|
        invariant k <= |offsets|
        invariant forall i {:trigger offsets[i].u} :: 0 <= i < k ==> offsets[i].u <= offset
        invariant if k == 0 then compressedOff == uncompressedOff == 0
                  else compressedOff == offsets[k - 1].c && uncompressedOff == offsets[k - 1].u
      {
        if offsets[k].u > offset { break; }
        compressedOff, uncompressedOff := offsets[k].c, offsets[k].u;
        k := k + 1;
      }
      assert Before(offsets, offset, k);
      return At(compressedOff, uncompressedOff);
    }
  }

  lemma {:induction false} StrictlyApart(offs: seq<OffsetPair>, est: int, i: nat, j: nat)
    requires Spaced(offs, est) && est > 0 && i < j < |offs|
    ensures offs[i].u < offs[j].u
    decreases j
  {
    assert offs[j].u - offs[j - 1].u >= est;
    if i < j - 1 { StrictlyApart(offs, est, i, j - 1); }
  }

  /** The index of a stream has strictly increasing offsets, so `Find` may be called on it. */
  lemma SoundIncreasing(st: State)
    requires Sound(st)
    ensures Increasing(st.offs)
  {
    hide Spaced;
    forall i, j | 0 <= i < j < |st.offs|
      ensures st.offs[i].u < st.offs[j].u
    {
      StrictlyApart(st.offs, st.est, i, j);
    }
  }
}
