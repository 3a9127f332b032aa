/**
 What a seek index must hold: how far behind an added offset the nearest entry can be, after any number
 of adds and reductions (index.go).

 `reduceLight` keeps an entry, then drops all that are closer than the new estimate and the one behind
 them, however far that is. So nothing can be said about adds that are far apart.
 */
module IndexCover {
  import opened Index

  // ---------- single operations ----------

  /** An add that is far enough from the last entry is taken, as long as there is room. */
  lemma AddTaken(st: State, c: int, u: int)
    requires |st.offs| < MAX_INDEX_ENTRIES && st.est >= 0
    requires st.offs != [] ==> u - st.offs[|st.offs| - 1].u >= st.est && st.offs[|st.offs| - 1].c <= c
    ensures AddState(st, c, u) == Added(State(st.offs + [OffsetPair(c, u)], st.est))
  {
  }

  /** The estimate is doubled only when the index is full, and then at least a third of it is kept. */
  lemma AddEnough(st: State, c: int, u: int)
    requires Sound(st) && AddState(st, c, u).Added?
    ensures var r := AddState(st, c, u).st;
            && (|st.offs| < MAX_INDEX_ENTRIES ==> r.est == st.est && st.offs <= r.offs)
            && (r.est == st.est ==> st.offs <= r.offs)
            && (r.est != st.est ==> r.est == 2 * st.est && 3 * |r.offs| > |st.offs|)
  {
    hide Spaced; hide Light;
    var offs := st.offs + [OffsetPair(c, u)];
    if AddState(st, c, u).st != st && |offs| > MAX_INDEX_ENTRIES {
      SpacedAppend(st.offs, st.est, OffsetPair(c, u));
      LightEnough(offs, st.est, 0);
    }
  }

  lemma {:induction false} LightEnough(offs: seq<OffsetPair>, est: nat, idx: nat)
    requires Spaced(offs, est) && est > 0
    ensures 3 * |Light(offs, est * 2, idx)| >= |offs| - idx
    decreases |offs| - idx
  {
    if idx < |offs| {
      hide Spaced;
      SkipsTwo(offs, est, idx);
      hide Skip;
      LightEnough(offs, est, Skip(offs, est * 2, offs[idx].u, idx) + 1);
    }
  }

  lemma SkipsTwo(offs: seq<OffsetPair>, est: nat, idx: nat)
    requires Spaced(offs, est) && idx < |offs|
    ensures Skip(offs, est * 2, offs[idx].u, idx) <= idx + 2
  {
    hide Spaced;
    var k := Skip(offs, est * 2, offs[idx].u, idx);
    if k > idx + 2 {
      TwoOn(offs, est, idx);
      NotBack(offs, est, idx + 2, k - 1);
    }
  }

  lemma TwoOn(offs: seq<OffsetPair>, est: nat, i: nat)
    requires Spaced(offs, est) && i + 2 < |offs|
    ensures offs[i + 2].u - offs[i].u >= est * 2
  {
    assert offs[i + 1].u - offs[i].u >= est;
  }

  lemma NotBack(offs: seq<OffsetPair>, est: nat, i: nat, j: nat)
    requires Spaced(offs, est) && i <= j < |offs|
    ensures offs[i].u <= offs[j].u && offs[i].c <= offs[j].c
  {
    hide Spaced;
    Apart(offs, est, i, j);
    Times(est, 0, j - i);
  }

  lemma Times(x: nat, a: nat, b: nat)
    requires a <= b
    ensures x * a <= x * b
  {
    assert x * b == x * a + x * (b - a);
  }

  /** A reduction of a full index keeps at least 993 entries, and does not raise the estimate more than it must. */
  lemma ReduceEnough(st: State)
    requires Sound(st)
    ensures |st.offs| < MAX_INDEX_ENTRIES ==> ReduceState(st) == st
    ensures |st.offs| == MAX_INDEX_ENTRIES ==>
              && |ReduceState(st).offs| >= 993
              && (ReduceState(st).est == 2 * st.est || ReduceState(st).est < MIN_INDEX_DIST + st.est)
  {
    hide Spaced; hide RemoveN; hide Every;
    if |st.offs| == MAX_INDEX_ENTRIES {
      RemoveEnough(|st.offs|, st.est, 1);
      var n := RemoveN(|st.offs|, st.est, 1);
      EveryCount(st.offs, n + 1, 0);
      ManyKept(n, |Every(st.offs, n + 1, 0)|);
      NewEstimateBound(st.est, n);
    }
  }

  lemma NewEstimateBound(est: nat, n: nat)
    requires n == 1 || est * n < MIN_INDEX_DIST
    ensures est + est * n == 2 * est || est + est * n < MIN_INDEX_DIST + est
  {
  }

  lemma ManyKept(n: nat, kept: nat)
    requires 1 <= n <= 65 && (n + 1) * kept >= MAX_INDEX_ENTRIES
    ensures kept >= 993
  {
    Times(kept, n + 1, 66);
  }

  lemma {:induction false} RemoveEnough(count: nat, est: nat, start: nat)
    requires start >= 1 && count == MAX_INDEX_ENTRIES
    requires start == 1 || (est * start < MIN_INDEX_DIST && count / start > 1000)
    ensures var n := RemoveN(count, est, start); 1 <= n <= 65 && (n == 1 || est * n < MIN_INDEX_DIST)
    decreases count - start
  {
    if est * (start + 1) < MIN_INDEX_DIST && count / (start + 1) > 1000 && start < count {
      RemoveEnough(count, est, start + 1);
    }
  }

  lemma {:induction false} EveryCount(offs: seq<OffsetPair>, step: nat, idx: nat)
    requires step >= 1
    ensures step * |Every(offs, step, idx)| >= |offs| - idx
    decreases |offs| - idx
  {
    if idx < |offs| {
      EveryCount(offs, step, idx + step);
      assert step * (|Every(offs, step, idx + step)| + 1) == step * |Every(offs, step, idx + step)| + step;
    }
  }

  // ---------- gaps ----------

  /**
   How many estimates the `i`-th gap may have. A reduction in `Add` makes it of gaps whose numbers are at least
   twice as large, or of one of less than two estimates and two of those; so it can have one estimate more than
   they, and there are not more than 65536 of them.
   */
  function Bound(i: nat): (r: nat)
    requires i >= 1
    ensures r >= 2
    decreases 2 * MAX_INDEX_ENTRIES - i
  {
    if i > MAX_INDEX_ENTRIES then 2 else 1 + Bound(2 * i)
  }

  const MOST: nat := 19

  lemma {:induction false} BoundFalls(i: nat, j: nat)
    requires 1 <= i <= j
    ensures Bound(j) <= Bound(i)
    decreases 2 * MAX_INDEX_ENTRIES - i
  {
    if j <= MAX_INDEX_ENTRIES { BoundFalls(2 * i, 2 * j); }
  }

  lemma {:induction false} BoundAt(i: nat, k: nat)
    requires 1 <= i && k <= 17 && i * Power2(k) == 2 * MAX_INDEX_ENTRIES
    ensures Bound(i) == k + 2
    decreases k
  {
    if k > 0 {
      assert i * Power2(k) == (2 * i) * Power2(k - 1);
      BoundAt(2 * i, k - 1);
      AtLeastTwo(i, k);
    }
  }

  lemma AtLeastTwo(i: nat, k: nat)
    requires k >= 1 && i * Power2(k) == 2 * MAX_INDEX_ENTRIES
    ensures i <= MAX_INDEX_ENTRIES
  {
    Times(i, 2, Power2(k));
  }

  lemma BoundMost(i: nat)
    requires i >= 1
    ensures Bound(i) <= MOST
  {
    BoundFalls(1, i);
    assert Power2(4) == 16 && Power2(8) == 16 * Power2(4) && Power2(12) == 16 * Power2(8);
    assert Power2(16) == 16 * Power2(12) && Power2(17) == 2 * Power2(16);
    BoundAt(1, 17);
  }

  function Power2(k: nat): (r: nat)
    ensures r >= 1
  {
    if k == 0 then 1 else 2 * Power2(k - 1)
  }

  /** What the `i`-th gap may have with estimate `est`. */
  function Allow(i: nat, est: nat): (r: nat)
    requires i >= 1
  {
    Bound(i) * est
  }

  lemma AllowFalls(i: nat, j: nat, est: nat)
    requires 1 <= i <= j
    ensures Allow(j, est) <= Allow(i, est)
  {
    BoundFalls(i, j);
    Times(est, Bound(j), Bound(i));
  }

  lemma AllowTwice(i: nat, est: nat)
    requires 1 <= i <= MAX_INDEX_ENTRIES
    ensures Allow(i, 2 * est) == 2 * est + 2 * Allow(2 * i, est)
  {
    var k := Bound(2 * i);
    assert (1 + k) * (2 * est) == 2 * est + 2 * (k * est);
  }

  lemma AllowRange(i: nat, est: nat)
    requires i >= 1
    ensures 2 * est <= Allow(i, est) <= MOST * est && Allow(i, 2 * est) == 2 * Allow(i, est)
  {
    BoundMost(i);
    Times(est, 2, Bound(i));
    Times(est, Bound(i), MOST);
    assert Bound(i) * (2 * est) == 2 * (Bound(i) * est);
  }

  lemma AllowProduct(i: nat, est: nat, n: nat)
    requires i >= 1
    ensures Allow(i, est + est * n) == Allow(i, est) * (n + 1) == Allow(i, est) + Allow(i, est) * n
  {
    assert est + est * n == est * (n + 1);
    assert Bound(i) * est * (n + 1) == Bound(i) * (est * (n + 1));
  }

  /** The gaps between the entries of `offs`, the first of which is entry `j` of an index, are allowed. */
  ghost predicate Gaps(offs: seq<OffsetPair>, est: nat, j: nat) {
    forall i {:trigger offs[i].u} :: 0 < i < |offs| ==> offs[i].u - offs[i - 1].u <= Allow(j + i, est)
  }

  lemma GapsPrepend(p: OffsetPair, rest: seq<OffsetPair>, est: nat, j: nat)
    requires Gaps(rest, est, j + 1) && (rest != [] ==> rest[0].u - p.u <= Allow(j + 1, est))
    ensures Gaps([p] + rest, est, j)
  {
    hide Allow;
    var all := [p] + rest;
    forall i | 0 < i < |all|
      ensures all[i].u - all[i - 1].u <= Allow(j + i, est)
    {
      assert all[i] == rest[i - 1];
      if i > 1 {
        assert all[i - 1] == rest[i - 2];
        GapAt(rest, est, j + 1, i - 1);
      }
    }
  }

  lemma GapsAppend(offs: seq<OffsetPair>, p: OffsetPair, est: nat)
    requires Gaps(offs, est, 0) && (offs != [] ==> p.u - offs[|offs| - 1].u <= Allow(|offs|, est))
    ensures Gaps(offs + [p], est, 0)
  {
    hide Allow;
    var all := offs + [p];
    forall i | 0 < i < |all|
      ensures all[i].u - all[i - 1].u <= Allow(i, est)
    {
      if i < |offs| {
        assert all[i] == offs[i] && all[i - 1] == offs[i - 1];
        GapAt(offs, est, 0, i);
      }
    }
  }

  lemma GapAt(offs: seq<OffsetPair>, est: nat, j: nat, i: nat)
    requires Gaps(offs, est, j) && 0 < i < |offs|
    ensures offs[i].u - offs[i - 1].u <= Allow(j + i, est)
  {
    hide Allow;
  }

  /**
   What is kept of a list, as entries from `j` on of an index: gaps that are allowed, and after the last entry,
   which is at `last` otherwise, room for a gap that is.
   */
  ghost predicate Kept(r: seq<OffsetPair>, first: OffsetPair, last: int, est: nat, j: nat) {
    r != [] && r[0] == first && Gaps(r, est, j) && last - r[|r| - 1].u <= Allow(j + |r|, est)
  }

  lemma KeptOne(p: OffsetPair, last: int, est: nat, j: nat)
    requires last - p.u <= Allow(j + 1, est)
    ensures Kept([p] + [], p, last, est, j)
  {
  }

  lemma KeptMore(p: OffsetPair, rest: seq<OffsetPair>, first: OffsetPair, last: int, est: nat, j: nat)
    requires Kept(rest, first, last, est, j + 1) && first.u - p.u <= Allow(j + 1, est)
    ensures Kept([p] + rest, p, last, est, j)
  {
    GapsPrepend(p, rest, est, j);
    hide Gaps; hide Allow;
    assert j + 1 + |rest| == j + |[p] + rest|;
  }

  lemma LightOnce(offs: seq<OffsetPair>, est: int, idx: nat)
    requires idx < |offs|
    ensures var k := Skip(offs, est, offs[idx].u, idx);
            && Light(offs, est, idx) == [offs[idx]] + Light(offs, est, k + 1)
            && (k + 1 >= |offs| ==> Light(offs, est, k + 1) == [])
  {
  }

  /** No entry is behind the last one. */
  lemma InOrder(offs: seq<OffsetPair>, est: nat, p: OffsetPair)
    requires Spaced(offs, est) && p in offs
    ensures p.u <= offs[|offs| - 1].u && p.c <= offs[|offs| - 1].c
  {
    var j :| 0 <= j < |offs| && offs[j] == p;
    NotBack(offs, est, j, |offs| - 1);
  }

  /** The next entry that is kept after entry `idx`, in place `j`, is no farther away than it may be. */
  lemma NextKept(offs: seq<OffsetPair>, est: nat, b: nat, idx: nat, j: nat)
    requires Spaced(offs, est) && Gaps(offs, est, 0) && 0 < b <= est && |offs| <= MAX_INDEX_ENTRIES + 1
    requires 2 * j <= idx < |offs|
    ensures var k, u := Skip(offs, 2 * est, offs[idx].u, idx), offs[idx].u;
            && idx < k && (k + 1 < |offs| ==> offs[k + 1].u - u <= Allow(j + 1, 2 * est))
            && (k + 1 >= |offs| ==> offs[|offs| - 1].u + b - u <= Allow(j + 1, 2 * est))
  {
    SkipsTwo(offs, est, idx);
    hide Spaced; hide Gaps; hide Allow;
    var k := Skip(offs, 2 * est, offs[idx].u, idx);
    hide Skip;
    AllowTwice(j + 1, est);
    AllowRange(j + 1, est);
    AllowRange(2 * (j + 1), est);
    if idx + 1 < |offs| {
      GapAt(offs, est, 0, idx + 1);
      AllowFalls(j + 1, idx + 1, est);
    }
    if idx + 2 < |offs| {
      GapAt(offs, est, 0, idx + 2);
      AllowFalls(j + 1, idx + 2, est);
      AllowFalls(2 * (j + 1), idx + 2, est);
    }
    if idx + 3 < |offs| {
      GapAt(offs, est, 0, idx + 3);
      AllowFalls(2 * (j + 1), idx + 3, est);
    }
  }

  /** After the reduction that `Add` makes the gaps are still allowed, with the new estimate. */
  lemma {:induction false} LightGaps(offs: seq<OffsetPair>, est: nat, b: nat, idx: nat, j: nat)
    requires Spaced(offs, est) && Gaps(offs, est, 0) && 0 < b <= est && |offs| <= MAX_INDEX_ENTRIES + 1
    requires 2 * j <= idx < |offs|
    ensures Kept(Light(offs, 2 * est, idx), offs[idx], offs[|offs| - 1].u + b, 2 * est, j)
    decreases |offs| - idx
  {
    hide *;
    var k, last := Skip(offs, 2 * est, offs[idx].u, idx), offs[|offs| - 1].u + b;
    NextKept(offs, est, b, idx, j);
    LightOnce(offs, 2 * est, idx);
    if k + 1 < |offs| {
      LightGaps(offs, est, b, k + 1, j + 1);
      KeptMore(offs[idx], Light(offs, 2 * est, k + 1), offs[k + 1], last, 2 * est, j);
    } else {
      KeptOne(offs[idx], last, 2 * est, j);
    }
  }

  /** `j - i` gaps from entry `i` on, which is not before place `p`. */
  lemma {:induction false} Near(offs: seq<OffsetPair>, est: nat, i: nat, j: nat, p: nat)
    requires Gaps(offs, est, 0) && p <= i <= j < |offs|
    ensures offs[j].u - offs[i].u <= Allow(p + 1, est) * (j - i)
    decreases j
  {
    hide Gaps; hide Allow;
    if i < j {
      Near(offs, est, i, j - 1, p);
      GapAt(offs, est, 0, j);
      AllowFalls(p + 1, j, est);
      OneMoreTime(Allow(p + 1, est), j - i);
    }
  }

  lemma OneMoreTime(m: nat, k: nat)
    requires k >= 1
    ensures m * k == m * (k - 1) + m
  {
  }

  /** So they are after a reduction to one entry in `n + 1`. `top` is where the last add was. */
  lemma {:induction false} EveryGaps(offs: seq<OffsetPair>, est: nat, n: nat, idx: nat, j: nat, top: int)
    requires Gaps(offs, est, 0) && j <= idx < |offs| && top - offs[|offs| - 1].u <= Allow(|offs|, est)
    ensures Kept(Every(offs, n + 1, idx), offs[idx], top, est + est * n, j)
    decreases |offs| - idx
  {
    hide Gaps; hide Kept; hide Allow;
    var a := Allow(j + 1, est);
    AllowProduct(j + 1, est, n);
    if idx + n + 1 < |offs| {
      Near(offs, est, idx, idx + n + 1, j);
      EveryGaps(offs, est, n, idx + n + 1, j + 1, top);
      KeptMore(offs[idx], Every(offs, n + 1, idx + n + 1), offs[idx + n + 1], top, est + est * n, j);
    } else {
      Near(offs, est, idx, |offs| - 1, j);
      Times(a, |offs| - 1 - idx, n);
      AllowFalls(j + 1, |offs|, est);
      KeptOne(offs[idx], top, est + est * n, j);
    }
  }

  // ---------- what is kept over a run ----------

  /** Gaps are allowed, and so is the next one, if the next add is no more than `b` behind the last one, at `top`. */
  ghost predicate Covers(st: State, top: int, b: nat) {
    && 0 < b <= st.est && Kept(st.offs, if st.offs != [] then st.offs[0] else OffsetPair(0, 0), top + b, st.est, 0)
    && st.offs[|st.offs| - 1].u <= top
  }

  /** Adds that go forward, by no more than `b` uncompressed bytes from one to the next. */
  ghost predicate Steady(ops: seq<Op>, c: int, u: int, b: nat)
    decreases |ops|
  {
    ops != [] ==>
      match ops[0]
      case Add(c', u') => c <= c' && u <= u' <= u + b && Steady(ops[1..], c', u', b)
      case Reduce => Steady(ops[1..], c, u, b)
  }

  /** The pairs that are added, whatever reductions there are in between. */
  function AddsOf(ops: seq<Op>): (r: seq<OffsetPair>)
    decreases |ops|
  {
    if ops == [] then []
    else (match ops[0] case Add(c, u) => [OffsetPair(c, u)] case Reduce => []) + AddsOf(ops[1..])
  }

  /** One more add. */
  lemma AddCovers(st: State, c: int, u: int, top: int, b: nat)
    requires Sound(st) && Covers(st, top, b) && top <= u <= top + b && st.offs[|st.offs| - 1].c <= c
    ensures AddState(st, c, u).Added?
    ensures var r := AddState(st, c, u).st; Covers(r, u, b) && r.offs[|r.offs| - 1].c <= c
  {
    hide Spaced; hide Gaps; hide Light; hide Allow;
    var offs := st.offs + [OffsetPair(c, u)];
    AllowRange(|st.offs|, st.est);
    if u - st.offs[|st.offs| - 1].u >= st.est {
      GapsAppend(st.offs, OffsetPair(c, u), st.est);
      AllowRange(|offs|, st.est);
      if |offs| > MAX_INDEX_ENTRIES {
        SpacedAppend(st.offs, st.est, OffsetPair(c, u));
        LightGaps(offs, st.est, b, 0, 0);
        LightOrder(st, c, u);
      }
    }
  }

  lemma LightOrder(st: State, c: int, u: int)
    requires Sound(st) && st.offs != [] && st.offs[|st.offs| - 1].c <= c && u - st.offs[|st.offs| - 1].u >= st.est
    ensures var r := Light(st.offs + [OffsetPair(c, u)], st.est * 2, 0);
            r != [] && r[|r| - 1].c <= c && r[|r| - 1].u <= u
  {
    hide Spaced; hide Light;
    var offs := st.offs + [OffsetPair(c, u)];
    SpacedAppend(st.offs, st.est, OffsetPair(c, u));
    LightThins(offs, st.est, st.est * 2, 0);
    var r := Light(offs, st.est * 2, 0);
    InOrder(offs, st.est, r[|r| - 1]);
  }

  lemma ReduceCovers(st: State, top: int, b: nat, c: int)
    requires Sound(st) && Covers(st, top, b) && st.offs[|st.offs| - 1].c <= c
    ensures Covers(ReduceState(st), top, b)
    ensures var r := ReduceState(st); r.offs[|r.offs| - 1].c <= c
  {
    hide Spaced; hide RemoveN; hide Every; hide Covers;
    if |st.offs| >= MAX_INDEX_ENTRIES {
      EveryCovers(st, top, b, c, RemoveN(|st.offs|, st.est, (|st.offs| + 1) / MAX_INDEX_ENTRIES));
    }
  }

  lemma EveryCovers(st: State, top: int, b: nat, c: int, n: nat)
    requires Sound(st) && Covers(st, top, b) && st.offs[|st.offs| - 1].c <= c
    ensures var r := Every(st.offs, n + 1, 0);
            Covers(State(r, st.est + st.est * n), top, b) && r[|r| - 1].c <= c
  {
    hide Spaced; hide Every; hide Gaps; hide Allow;
    EveryGaps(st.offs, st.est, n, 0, 0, top + b);
    EveryThins(st.offs, st.est, n + 1, 0);
    var r := Every(st.offs, n + 1, 0);
    InOrder(st.offs, st.est, r[|r| - 1]);
    Times(st.est, 0, n);
  }

  /** Where the last add was. */
  function LastAdd(ops: seq<Op>, u: int): (r: int)
    decreases |ops|
  {
    if ops == [] then u else LastAdd(ops[1..], match ops[0] case Add(_, u') => u' case Reduce => u)
  }

  lemma {:induction false} RunCovers(st: State, ops: seq<Op>, c: int, u: int, b: nat)
    requires Sound(st) && Covers(st, u, b) && st.offs[|st.offs| - 1].c <= c && Steady(ops, c, u, b)
    ensures Covers(Run(st, ops), LastAdd(ops, u), b)
    decreases |ops|
  {
    hide Spaced; hide Covers; hide AddState; hide ReduceState;
    if ops != [] {
      var st' := Apply(st, ops[0]);
      ApplySound(st, ops[0]);
      LastEntry(st, u, b);
      match ops[0] {
        case Add(c', u') =>
          AddCovers(st, c', u', u, b);
          LastEntry(st', u', b);
          RunCovers(st', ops[1..], c', u', b);
        case Reduce =>
          ReduceCovers(st, u, b, c);
          LastEntry(st', u, b);
          RunCovers(st', ops[1..], c, u, b);
      }
    }
  }

  lemma LastEntry(st: State, u: int, b: nat)
    requires Covers(st, u, b)
    ensures st.offs != []
  {
  }

  // ---------- the result ----------

  /** The entry that a search for `v` finds is less than `d` in front of it. */
  ghost predicate FoundNear(offs: seq<OffsetPair>, v: int, d: int) {
    forall n {:trigger Before(offs, v, n)} :: Before(offs, v, n) ==> n > 0 && 0 <= v - offs[n - 1].u < d
  }

  lemma SomeBefore(offs: seq<OffsetPair>, v: int, n: nat)
    requires Before(offs, v, n) && offs != [] && offs[0].u <= v
    ensures n > 0
  {
  }

  lemma CoversNear(st: State, top: int, b: nat, v: int)
    requires Covers(st, top, b) && st.offs[0].u <= v < top + b
    ensures FoundNear(st.offs, v, MOST * st.est)
  {
    hide Allow;
    forall n: nat | Before(st.offs, v, n)
      ensures n > 0 && 0 <= v - st.offs[n - 1].u < MOST * st.est
    {
      SomeBefore(st.offs, v, n);
      AllowRange(n, st.est);
      if n < |st.offs| {
        assert st.offs[n].u > v;
        GapAt(st.offs, st.est, 0, n);
      }
    }
  }

  lemma {:induction false} AddsBefore(ops: seq<Op>, c: int, u: int, b: nat)
    requires Steady(ops, c, u, b)
    ensures u <= LastAdd(ops, u)
    ensures forall op :: op in ops && op.Add? ==> u <= op.u <= LastAdd(ops, u)
    decreases |ops|
  {
    if ops != [] {
      match ops[0] {
        case Add(c', u') => AddsBefore(ops[1..], c', u', b);
        case Reduce => AddsBefore(ops[1..], c, u, b);
      }
      assert forall op :: op in ops ==> op == ops[0] || op in ops[1..];
    }
  }

  /**
   An index that was built with adds no farther apart than the first estimate: a search for any offset from the
   first add to one estimate behind the last one finds an entry that is closer than 19 final estimates.
   */
  lemma {:induction false} Covered(est: nat, ops: seq<Op>, c: int, u: int, v: int)
    requires est > 0 && Steady(ops, c, u, est)
    ensures var r := Run(State([], est), ops);
            && (forall op :: op in ops && op.Add? ==> r.offs != [] && r.offs[0].u <= op.u <= LastAdd(ops, u))
            && (AddsOf(ops) != [] ==> r.offs != [] && r.offs[0] == AddsOf(ops)[0])
            && (r.offs != [] && r.offs[0].u <= v < LastAdd(ops, u) + est ==> FoundNear(r.offs, v, MOST * r.est))
    decreases |ops|
  {
    hide FoundNear; hide AddState; hide ReduceState; hide Covers;
    var st := State([], est);
    assert Sound(st);
    if ops != [] {
      match ops[0] {
        case Reduce =>
          assert Apply(st, ops[0]) == st by { ReduceEnough(st); }
          Covered(est, ops[1..], c, u, v);
          assert forall op :: op in ops && op.Add? ==> op in ops[1..];
        case Add(c', u') =>
          FirstAdd(est, ops, c', u', v);
          assert forall op :: op in ops ==> op == ops[0] || op in ops[1..];
      }
    }
  }

  lemma FirstRun(est: nat, ops: seq<Op>, c: int, u: int)
    requires est > 0 && ops != [] && ops[0] == Add(c, u)
    ensures Run(State([], est), ops) == Run(State([OffsetPair(c, u)], est), ops[1..])
  {
    var st := State([], est);
    AddTaken(st, c, u);
    assert Apply(st, ops[0]) == State([OffsetPair(c, u)], est);
    hide Apply;
  }

  lemma FirstCovers(est: nat, c: int, u: int)
    requires est > 0
    ensures var st := State([OffsetPair(c, u)], est); Covers(st, u, est) && Sound(st)
  {
    AllowRange(1, est);
    hide Allow;
  }

  lemma FirstAdd(est: nat, ops: seq<Op>, c: int, u: int, v: int)
    requires est > 0 && ops != [] && ops[0] == Add(c, u) && Steady(ops[1..], c, u, est)
    ensures var r := Run(State([], est), ops);
            && r.offs != [] && r.offs[0] == OffsetPair(c, u) && u <= LastAdd(ops[1..], u)
            && (forall op :: op in ops[1..] && op.Add? ==> u <= op.u <= LastAdd(ops[1..], u))
            && (u <= v < LastAdd(ops[1..], u) + est ==> FoundNear(r.offs, v, MOST * r.est))
  {
    hide *;
    var st' := State([OffsetPair(c, u)], est);
    FirstRun(est, ops, c, u);
    FirstCovers(est, c, u);
    RunCovers(st', ops[1..], c, u, est);
    RunSound(st', ops[1..]);
    AddsBefore(ops[1..], c, u, est);
    var r := Run(st', ops[1..]);
    if u <= v < LastAdd(ops[1..], u) + est { CoversNear(r, LastAdd(ops[1..], u), est, v); }
  }

  // ---------- adds that are far apart ----------

  /** Adds at the multiples of `gap`. */
  function Sparse(gap: nat, n: nat): (r: seq<Op>)
    ensures |r| == n && forall i :: 0 <= i < n ==> r[i] == Add(i, i * gap)
  {
    seq(n, i => Add(i, i * gap))
  }

  function SparseEntries(gap: nat, n: nat): (r: seq<OffsetPair>)
    ensures |r| == n && forall i :: 0 <= i < n ==> r[i] == OffsetPair(i, i * gap)
  {
    seq(n, i => OffsetPair(i, i * gap))
  }

  lemma SparseAdd(est: nat, gap: nat, n: nat)
    requires 0 < est <= gap && n <= MAX_INDEX_ENTRIES
    ensures AddState(State(SparseEntries(gap, n), est), n, n * gap) ==
            Added(if n < MAX_INDEX_ENTRIES then State(SparseEntries(gap, n + 1), est)
                  else State(Light(SparseEntries(gap, n + 1), est * 2, 0), est * 2))
  {
    hide Light;
    assert SparseEntries(gap, n) + [OffsetPair(n, n * gap)] == SparseEntries(gap, n + 1);
    if n > 0 { assert n * gap - (n - 1) * gap == gap; }
  }

  lemma {:induction false} SparseRun(est: nat, gap: nat, n: nat)
    requires 0 < est <= gap && n <= MAX_INDEX_ENTRIES
    ensures var all := MAX_INDEX_ENTRIES + 1;
            Run(State(SparseEntries(gap, n), est), Sparse(gap, all)[n..]) ==
            State(Light(SparseEntries(gap, all), est * 2, 0), est * 2)
    decreases MAX_INDEX_ENTRIES - n
  {
    hide AddState; hide Light; hide Sparse; hide SparseEntries;
    var all := MAX_INDEX_ENTRIES + 1;
    var ops := Sparse(gap, all)[n..];
    SparseAdd(est, gap, n);
    assert ops[0] == Add(n, n * gap) && ops[1..] == Sparse(gap, all)[n + 1..];
    if n < MAX_INDEX_ENTRIES {
      SparseRun(est, gap, n + 1);
    } else {
      assert ops[1..] == [];
    }
  }

  lemma {:induction false} LightFrom(offs: seq<OffsetPair>, est: int, idx: nat)
    ensures forall p :: p in Light(offs, est, idx) ==> exists j :: idx <= j < |offs| && offs[j] == p
    decreases |offs| - idx
  {
    if idx < |offs| { LightFrom(offs, est, Skip(offs, est, offs[idx].u, idx) + 1); }
  }

  /**
   Without a bound on the way from one add to the next there is none on the way to the nearest entry: after
   65537 adds that are `2 * k` estimates apart the second one has its nearest entry `k` final estimates in front.
   */
  lemma SparseLost(est: nat, k: nat)
    requires est > 0 && k > 0
    ensures var gap := 2 * k * est;
            var ops := Sparse(gap, MAX_INDEX_ENTRIES + 1);
            var r := Run(State([], est), ops);
            && ops[1] == Add(1, gap) && r.est == 2 * est && gap == k * r.est
            && forall p :: p in r.offs && p.u <= gap ==> p.u == 0
  {
    hide Light; hide Sparse; hide SparseEntries; hide Skip;
    var gap := 2 * k * est;
    Times(est, 2, 2 * k);
    assert gap == est * (2 * k) && gap == k * (2 * est);
    var all := MAX_INDEX_ENTRIES + 1;
    assert SparseEntries(gap, 0) == [] && Sparse(gap, all)[0..] == Sparse(gap, all);
    SparseRun(est, gap, 0);
    var e := SparseEntries(gap, all);
    assert e[1].u == gap;
    FirstDropped(e, est * 2);
    LightFrom(e, est * 2, 2);
    forall p | p in Light(e, est * 2, 0) && p.u <= gap
      ensures p.u == 0
    {
      if p != e[0] {
        var j :| 2 <= j < |e| && e[j] == p;
        FarEntry(gap, j, p);
      }
    }
  }

  lemma FarEntry(gap: nat, j: nat, p: OffsetPair)
    requires gap > 0 && j >= 2 && p == OffsetPair(j, j * gap)
    ensures p.u > gap
  {
    Times(gap, 2, j);
  }

  lemma FirstDropped(offs: seq<OffsetPair>, est: int)
    requires |offs| >= 2 && offs[1].u - offs[0].u >= est > 0
    ensures Light(offs, est, 0) == [offs[0]] + Light(offs, est, 2)
  {
    assert Skip(offs, est, offs[0].u, 0) == Skip(offs, est, offs[0].u, 1) == 1;
  }
}
