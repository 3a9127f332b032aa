/** How far a seek has to skip: an index that was built from the entries of a writer, and its blocks. */
module SeekDistance {
  import opened Bytes
  import opened Stream
  import opened Index
  import opened IndexCover
  import C = ConcurrentWriter

  function Pairs(es: seq<(nat, nat)>): (r: seq<OffsetPair>)
    ensures |r| == |es| && forall i :: 0 <= i < |es| ==> r[i] == OffsetPair(es[i].0, es[i].1)
  {
    seq(|es|, i requires 0 <= i < |es| => OffsetPair(es[i].0, es[i].1))
  }

  /** Pairs that go forward, by no more than `b` uncompressed bytes, from `c` and `u` on. */
  ghost predicate Forward(ps: seq<OffsetPair>, c: int, u: int, b: nat) {
    ps != [] ==> c <= ps[0].c && u <= ps[0].u <= u + b && Forward(ps[1..], ps[0].c, ps[0].u, b)
  }

  function LastOf(ps: seq<OffsetPair>, p: OffsetPair): (r: OffsetPair) {
    if ps == [] then p else ps[|ps| - 1]
  }

  lemma {:induction false} ForwardAppend(ps: seq<OffsetPair>, c: int, u: int, b: nat, p: OffsetPair)
    requires Forward(ps, c, u, b)
    requires var l := LastOf(ps, OffsetPair(c, u)); l.c <= p.c && l.u <= p.u <= l.u + b
    ensures Forward(ps + [p], c, u, b)
  {
    if ps == [] {
      assert [p][1..] == [];
    } else {
      assert (ps + [p])[1..] == ps[1..] + [p];
      ForwardAppend(ps[1..], ps[0].c, ps[0].u, b, p);
    }
  }

  /** Reductions in between change neither that nor where it ends. */
  lemma {:induction false} ForwardSteady(ops: seq<Op>, c: int, u: int, b: nat)
    requires Forward(AddsOf(ops), c, u, b)
    ensures Steady(ops, c, u, b) && LastAdd(ops, u) == LastOf(AddsOf(ops), OffsetPair(c, u)).u
    decreases |ops|
  {
    if ops != [] {
      match ops[0] {
        case Add(c', u') =>
          assert AddsOf(ops)[1..] == AddsOf(ops[1..]);
          ForwardSteady(ops[1..], c', u', b);
        case Reduce =>
          assert AddsOf(ops) == AddsOf(ops[1..]);
          ForwardSteady(ops[1..], c, u, b);
      }
    }
  }

  /** What the entries of the first `n` operations are like. */
  ghost predicate Regular(ps: seq<OffsetPair>, bytes: nat, input: nat, b: nat) {
    && Forward(ps, 0, 0, b) && (ps != [] ==> ps[0].u == 0) && (ps == [] ==> input == 0)
    && var l := LastOf(ps, OffsetPair(0, 0)); l.c <= bytes && l.u <= input <= l.u + b
  }

  lemma RegularAppend(ps: seq<OffsetPair>, bytes: nat, input: nat, b: nat, p: OffsetPair, bytes': nat, input': nat)
    requires Regular(ps, bytes, input, b) && p.u == input
    requires bytes <= p.c <= bytes' && input <= input' <= input + b
    ensures Regular(ps + [p], bytes', input', b)
  {
    ForwardAppend(ps, 0, 0, b, p);
  }

  lemma {:induction false} EntriesRegular(k: Codec, prog: seq<C.Op>, n: nat, every: bool, b: nat)
    requires n <= |prog| && forall i :: 0 <= i < |prog| ==> |C.OpInput(prog[i])| <= b
    ensures Regular(Pairs(C.Entries(k, prog, n, every)), |C.Sequential(k, prog, n)|, |C.Input(prog, n)|, b)
  {
    hide C.OpBytes; hide C.OpInput; hide C.Indexed; hide C.EntryFor;
    if n > 0 {
      hide *;
      EntriesRegular(k, prog, n - 1, every, b);
      OneMore(k, prog, n - 1, every, b);
    }
  }

  lemma OneMore(k: Codec, prog: seq<C.Op>, n: nat, every: bool, b: nat)
    requires n < |prog| && |C.OpInput(prog[n])| <= b
    requires Regular(Pairs(C.Entries(k, prog, n, every)), |C.Sequential(k, prog, n)|, |C.Input(prog, n)|, b)
    ensures Regular(Pairs(C.Entries(k, prog, n + 1, every)), |C.Sequential(k, prog, n + 1)|, |C.Input(prog, n + 1)|, b)
  {
    hide *;
    C.OneEntry(k, prog, n, every);
    InputOnce(k, prog, n, every);
    var es := C.Entries(k, prog, n, every);
    var bytes, input := |C.Sequential(k, prog, n)|, |C.Input(prog, n)|;
    var bytes', input' := |C.Sequential(k, prog, n + 1)|, |C.Input(prog, n + 1)|;
    if C.Indexed(prog, n, every) {
      var e := C.EntryFor(k, prog, n);
      assert Pairs(es + [e]) == Pairs(es) + [OffsetPair(e.0, e.1)];
      RegularAppend(Pairs(es), bytes, input, b, OffsetPair(e.0, e.1), bytes', input');
    } else {
      assert es + [] == es;
      RegularMore(Pairs(es), bytes, input, b, bytes');
    }
  }

  lemma InputOnce(k: Codec, prog: seq<C.Op>, n: nat, every: bool)
    requires n < |prog|
    ensures C.Input(prog, n + 1) == C.Input(prog, n) + C.OpInput(prog[n])
    ensures !C.Indexed(prog, n, every) ==> C.OpInput(prog[n]) == []
    ensures C.EntryFor(k, prog, n) == (|C.Sequential(k, prog, n)| + C.HeaderPart(prog[n]), |C.Input(prog, n)|)
    ensures C.HeaderPart(prog[n]) <= |C.OpBytes(k, prog[n])|
  {
    hide DataChunk; hide C.Sequential;
  }

  lemma RegularMore(ps: seq<OffsetPair>, bytes: nat, input: nat, b: nat, bytes': nat)
    requires Regular(ps, bytes, input, b) && bytes <= bytes'
    ensures Regular(ps, bytes', input, b)
  {
  }

  /**
   Whatever a writer has written, in blocks that are not larger than the first estimate, and however often its
   index was reduced: a search for any offset of the data finds an entry, and that is less than 19 final
   estimates in front of it.
   */
  lemma SearchNear(k: Codec, prog: seq<C.Op>, every: bool, est: nat, ops: seq<Op>, v: nat)
    requires est > 0 && forall i :: 0 <= i < |prog| ==> |C.OpInput(prog[i])| <= est
    requires AddsOf(ops) == Pairs(C.Entries(k, prog, |prog|, every)) && v < |C.Input(prog, |prog|)|
    ensures var r := Run(State([], est), ops); r.offs != [] && FoundNear(r.offs, v, MOST * r.est)
  {
    EntriesRegular(k, prog, |prog|, every, est);
    ForwardSteady(ops, 0, 0, est);
    Covered(est, ops, 0, 0, v);
    hide Run; hide FoundNear; hide Steady;
    assert AddsOf(ops) != [];
  }
}
