/**
 encode_l1.go: `encodeBlockGo` and `encodeBlockGo64K`.

 The two Go functions share every statement but three: the table and its hash, the distance check,
 which the 64K form does not need, and the choice of a fused form. Here they are one method and
 `small` says which of them runs. A `goto emitRemainder`, a `return 0` and a `break` out of a nested
 loop are the values of `Outcome`.
 */
module EncodeL1 {
  import opened Bytes
  import opened Format
  import opened Encoding
  import opened Emission
  import opened Emitters
  import opened OutputBound
  import opened Matching
  import opened FarMatch
  import opened FarInput

  datatype Outcome = Bail | Remainder | Proceed

  const INPUT_MARGIN := 8

  /** What holds whenever level 1 looks for a match at `s`. */
  ghost predicate Searching(src: seq<Byte>, out: seq<Byte>, s: int, nextEmit: int, repeat: int, far: seq<Far>,
                            checked: bool)
  {
    && nextEmit <= s && 1 <= repeat <= s && s + INPUT_MARGIN <= |src| <= MAX_BLOCK_SIZE
    && Ahead(|src|, |out|, nextEmit, checked)
    && Kept(src, far, out, nextEmit, repeat)
  }

  /** The search is at the start of an input of equal bytes. */
  ghost predicate Starting(src: seq<Byte>, s: nat, nextEmit: nat, repeat: nat, d: nat) {
    Uniform(src) && |src| >= 16 && s == 1 && nextEmit == 0 && repeat == 1 && d == 0
  }

  /** All but the last few bytes of such an input are one repeat. */
  predicate OneRepeat(src: seq<Byte>, nextEmit: nat, d: nat) {
    |src| - INPUT_MARGIN < nextEmit <= |src| && nextEmit >= 6 && d == 2 + HeaderSize(nextEmit - 1)
  }

  lemma StartingRepeat(src: seq<Byte>, s: nat, nextEmit: nat, repeat: nat, d: nat)
    requires Starting(src, s, nextEmit, repeat, d)
    ensures s == 1 && nextEmit == 0 && repeat == 1 && d == 0 && |src| >= 16 && DstLimit(|src|) >= 10 && Uniform(src)
    ensures src[s + 1..s + 5] == src[s - repeat + 1..s - repeat + 5]
  {
    UniformWords(src, 2, 1, 4);
  }

  lemma RepeatEnds(src: seq<Byte>, base: nat, s: nat)
    requires Uniform(src) && 1 <= base <= s <= |src|
    requires s > |src| - INPUT_MARGIN || src[s] != src[s - 1]
    requires base == 1 || src[base - 1] != src[base - 2]
    ensures s > |src| - INPUT_MARGIN && base == 1
  {
  }

  lemma OneRepeatFits(src: seq<Byte>, nextEmit: nat, d: nat)
    requires OneRepeat(src, nextEmit, d) && |src| >= 16
    ensures d + |src| - nextEmit <= DstLimit(|src|) && 3 <= d && d + LitSize(|src| - nextEmit) <= 14
  {
  }

  /** The repeat branch of the search: literals, then a repeat that may start before `s + 1`. */
  method TakeRepeat(dst: array<Byte>, src: seq<Byte>, s0: nat, nextEmit: nat, repeat: nat, d0: nat,
                    ghost far0: seq<Far>, ghost checked: bool)
    returns (bail: bool, s: nat, d: nat, ghost far: seq<Far>)
    requires d0 <= Room(|src|) <= dst.Length
    requires Searching(src, dst[..d0], s0, nextEmit, repeat, far0, checked)
    requires src[s0 + 1..s0 + 5] == src[s0 + 1 - repeat..s0 + 5 - repeat]
    modifies dst
    ensures d0 + (s0 + 1 - nextEmit) <= DstLimit(|src|) ==> !bail
    ensures !bail ==> s0 + 5 <= s <= |src| && d <= Room(|src|) && d <= d0 + (s0 + 1 - nextEmit) + 8
    ensures !bail ==> IsMatch(src, s0 + 1, repeat, s - (s0 + 1)) &&
                      (s > |src| - INPUT_MARGIN || src[s] != src[s - repeat])
    ensures !bail ==> Ahead(|src|, d, s, false) && Kept(src, far, dst[..d], s, repeat)
    ensures repeat <= MAX_COPY3_OFFSET ==> far == far0
    ensures Starting(src, s0, nextEmit, repeat, d0) ==> !bail && OneRepeat(src, s, d)
  {
    hide Kept; hide LiteralBytes; hide RepeatBytes; hide Ahead; hide IsMatch; hide DstLimit; hide Starting;
    hide Uniform;
    if Starting(src, s0, nextEmit, repeat, d0) { StartingRepeat(src, s0, nextEmit, repeat, d0); }
    s, d, far := s0, d0, far0;
    WordsMatch(src, s + 1, s + 1 - repeat, 4);
    var base := ExtendBack(src, s + 1, s + 1 - repeat, nextEmit);
    if d + (base - nextEmit) > DstLimit(|src|) { return true, s, d, far; }
    s := ExtendWords(src, s + 5, s + 5 - repeat, |src| - INPUT_MARGIN);
    MatchJoin(src, s0 + 1, repeat, 4, s0 + 5, s - (s0 + 5));
    MatchJoin(src, base, repeat, s0 + 1 - base, s0 + 1, s - (s0 + 1));
    if Starting(src, s0, nextEmit, repeat, d0) { RepeatEnds(src, base, s); }
    d := EmitRepeated(dst, src, nextEmit, base, s, repeat, d, far, checked);
    far := Noted(far, base, repeat, s - base);
    bail := false;
  }

  /** Literals and a repeat up to `s`, once there is room for the literals. */
  method EmitRepeated(dst: array<Byte>, src: seq<Byte>, nextEmit: nat, base: nat, s: nat, repeat: nat, d0: nat,
                      ghost far: seq<Far>, ghost checked: bool)
    returns (d: nat)
    requires nextEmit <= base && base + 4 <= s <= |src| <= MAX_BLOCK_SIZE && IsMatch(src, base, repeat, s - base)
    requires d0 + (base - nextEmit) <= DstLimit(|src|) && d0 <= Room(|src|) <= dst.Length
    requires Ahead(|src|, d0, nextEmit, checked) && Kept(src, far, dst[..d0], nextEmit, repeat)
    modifies dst
    ensures d <= Room(|src|) && d == d0 + LitSize(base - nextEmit) + HeaderSize(s - base)
    ensures Ahead(|src|, d, s, false) && Kept(src, Noted(far, base, repeat, s - base), dst[..d], s, repeat)
  {
    hide Kept; hide LiteralBytes; hide RepeatBytes; hide Ahead; hide IsMatch; hide DstLimit;
    Sizes(src[nextEmit..base], 1, s - base);
    AheadRepeat(|src|, d0, nextEmit, checked, base - nextEmit, s - base);
    ghost var b0 := dst[..d0];
    var n := EmitLiteral(dst, d0, src[nextEmit..base]);
    d := d0 + n;
    ghost var b1 := dst[..d];
    n := EmitRepeat(dst, d, s - base);
    d := d + n;
    KeptLiteral(src, far, b0, nextEmit, base, repeat);
    KeptRepeat(src, far, b1, base, repeat, s - base);
  }

  /** The three probes at `s`, `s + 1` and `s + 2`, once the first two table slots were read and set. */
  method Probe(src: seq<Byte>, table: array<nat>, hash: Word -> nat, small: bool, s0: nat, candidate0: nat,
               candidate2: nat)
    returns (hit: bool, s: nat, candidate: nat)
    requires HashInto(hash, table.Length) && s0 + 12 <= |src|
    requires candidate0 < s0 && candidate2 < s0 && Below(table, s0 + 2)
    modifies table
    ensures Below(table, if hit then s + 2 else s0 + 3)
    ensures forall i :: 0 <= i < table.Length && i != hash(src[s0 + 2..s0 + 8]) ==> table[i] == old(table[i])
    ensures hit ==> s0 <= s <= s0 + 2 && candidate < s && src[s..s + 4] == src[candidate..candidate + 4]
    ensures hit && !small && s - candidate > MAX_COPY3_OFFSET ==> TooFar(s - candidate) && |src| > MAX_COPY3_OFFSET + 10
    ensures hash(src[s0 + 2..s0 + 8]) < table.Length
    ensures Finds(src, small, s0, candidate0, candidate2, old(table[hash(src[s0 + 2..s0 + 8])]), hit, s, candidate)
  {
    hide Finds;
    var cv: Word := src[s0..s0 + 8];
    var minSrcPos := s0 - MAX_COPY3_OFFSET;
    var hash2 := hash(cv[2..]);
    ProbeWords(src, s0);
    ghost var third := table[hash2];
    FindsWhich(src, small, s0, candidate0, candidate2, third);
    hit, s, candidate := true, s0, candidate0;
    if (small || candidate >= minSrcPos) && cv[..4] == src[candidate..candidate + 4] { return; }
    candidate := table[hash2];
    if (small || candidate2 >= minSrcPos) && cv[1..5] == src[candidate2..candidate2 + 4] {
      table[hash2] := s + 2;
      candidate := candidate2;
      s := s + 1;
      return;
    }
    table[hash2] := s + 2;
    if (small || candidate >= minSrcPos) && cv[2..6] == src[candidate..candidate + 4] {
      s := s + 2;
      return;
    }
    hit := false;
  }

  lemma ProbeWords(src: seq<Byte>, s: nat)
    requires s + 8 <= |src|
    ensures var cv := src[s..s + 8];
            && cv[..4] == src[s..s + 4] && cv[1..5] == src[s + 1..s + 5] && cv[2..6] == src[s + 2..s + 6]
            && cv[2..] == src[s + 2..s + 8]
  {
    Shifted(src, s, 0);
    Shifted(src, s, 1);
    Shifted(src, s, 2);
  }

  /** What a search that found something knows. */
  ghost predicate Candidate(src: seq<Byte>, s: nat, candidate: nat, nextEmit: nat) {
    && s + 10 <= |src| && candidate < s && nextEmit <= s
    && src[s..s + 4] == src[candidate..candidate + 4]
    && (s - candidate > MAX_COPY3_OFFSET ==> TooFar(s - candidate) && |src| > MAX_COPY3_OFFSET + 10)
  }

  /** The first two slots of a position are read and set. */
  method Mark(src: seq<Byte>, table: array<nat>, hash: Word -> nat, s: nat) returns (candidate: nat, candidate2: nat)
    requires HashInto(hash, table.Length) && s + 8 <= |src| && Below(table, s)
    modifies table
    ensures SlotsIn(src, hash, table.Length, s) && table[..] == Marked(src, hash, old(table[..]), s) &&
            Below(table, s + 2)
    ensures candidate == old(table[hash(src[s..s + 8])]) && candidate2 == old(table[hash(src[s + 1..s + 8])])
  {
    var cv: Word := src[s..s + 8];
    assert cv[1..] == src[s + 1..s + 8];
    var hash0, hash1 := hash(cv), hash(cv[1..]);
    candidate, candidate2 := table[hash0], table[hash1];
    table[hash0] := s;
    table[hash1] := s + 1;
  }

  /** The three probes, and where the search goes on. */
  method ProbeStep(src: seq<Byte>, table: array<nat>, hash: Word -> nat, small: bool, s: nat, nextEmit: nat, d: nat,
                   candidate0: nat, candidate2: nat)
    returns (q: StepResult)
    requires HashInto(hash, table.Length) && s + 12 <= |src| && nextEmit <= s && NextS(s, nextEmit, small) + 8 <= |src|
    requires candidate0 < s && candidate2 < s && Below(table, s + 2) && small == (|src| <= 65536)
    modifies table
    ensures SlotsIn(src, hash, table.Length, s) && OnlyThird(src, hash, old(table[..]), table[..], s)
    ensures Finds(src, small, s, candidate0, candidate2, old(table[hash(src[s + 2..s + 8])]), q.kind == FarInput.Found,
                  q.s, q.candidate)
    ensures q.nextEmit == nextEmit && q.d == d && s <= q.s <= |src|
    ensures q.kind == FarInput.Found || (q.kind == Again && q.s == NextS(s, nextEmit, small))
    ensures if q.kind == FarInput.Found then Candidate(src, q.s, q.candidate, nextEmit) && Below(table, q.s + 2)
            else Below(table, s + 3)
  {
    hide Finds; hide Hits;
    ghost var c2 := table[hash(src[s + 2..s + 8])];
    var hit, s', candidate := Probe(src, table, hash, small, s, candidate0, candidate2);
    var nextS := s + (s - nextEmit) / (if small then 32 else 64) + 4;
    if !hit { FindsNothing(src, small, s, candidate0, candidate2, c2, s', candidate, nextS); }
    q := if hit then StepResult(FarInput.Found, s', candidate, nextEmit, d)
         else StepResult(Again, nextS, 0, nextEmit, d);
  }

  /** One position of the search loop: the repeat probe and three table probes. */
  method SearchStep(dst: array<Byte>, src: seq<Byte>, table: array<nat>, hash: Word -> nat, small: bool,
                    s: nat, nextEmit: nat, repeat: nat, d0: nat, ghost far0: seq<Far>, ghost checked0: bool)
    returns (q: StepResult, ghost far: seq<Far>, ghost checked: bool)
    requires HashInto(hash, table.Length)
    requires d0 <= Room(|src|) <= dst.Length && small == (|src| <= 65536)
    requires Searching(src, dst[..d0], s, nextEmit, repeat, far0, checked0) && Below(table, s)
    modifies dst, table
    ensures q.kind != GaveUp ==> s <= q.s <= |src| && q.d <= Room(|src|) && q.nextEmit <= |src|
    ensures q.kind != GaveUp ==> Ahead(|src|, q.d, q.nextEmit, checked) &&
                                 Kept(src, far, dst[..q.d], q.nextEmit, repeat)
    ensures q.kind == Again ==> s < q.s && Searching(src, dst[..q.d], q.s, q.nextEmit, repeat, far, checked) &&
                                Below(table, q.s)
    ensures q.kind == FarInput.Found ==> Candidate(src, q.s, q.candidate, q.nextEmit) && Below(table, q.s + 2)
    ensures SlotsIn(src, hash, table.Length, s) && (repeat <= MAX_COPY3_OFFSET ==> far == far0)
    ensures SearchStepped(src, hash, small, old(table[..]), s, nextEmit, repeat, d0, q, table[..])
    ensures Starting(src, s, nextEmit, repeat, d0) ==> q.kind == AtEnd && OneRepeat(src, q.nextEmit, q.d)
  {
    hide Kept; hide Ahead; hide DstLimit; hide Finds; hide IsMatch; hide Candidate; hide Marked; hide HashInto;
    hide Starting; hide HeaderSize;
    if Starting(src, s, nextEmit, repeat, d0) { StartingRepeat(src, s, nextEmit, repeat, d0); }
    far, checked := far0, checked0;
    InSlots(src, hash, table.Length, s);
    if s + (s - nextEmit) / (if small then 32 else 64) + 4 > |src| - INPUT_MARGIN {
      return StepResult(AtEnd, s, 0, nextEmit, d0), far, checked;
    }
    var candidate, candidate2 := Mark(src, table, hash, s);
    Shifted(src, s, 1);
    if src[s..s + 8][1..5] == src[s - repeat + 1..s - repeat + 5] {
      var bail, s', d;
      bail, s', d, far := TakeRepeat(dst, src, s, nextEmit, repeat, d0, far, checked);
      checked := false;
      q := StepResult(if bail then GaveUp else if s' >= |src| - INPUT_MARGIN then AtEnd else Again, s', 0, s', d);
    } else {
      q := ProbeStep(src, table, hash, small, s, nextEmit, d0, candidate, candidate2);
    }
  }

  lemma InSlots(src: seq<Byte>, hash: Word -> nat, n: nat, s: nat)
    requires HashInto(hash, n) && s + 8 <= |src|
    ensures SlotsIn(src, hash, n, s)
  {
    Slot(hash, n, src[s..s + 8]);
    Slot(hash, n, src[s + 1..s + 8]);
    Slot(hash, n, src[s + 2..s + 8]);
  }

  /** The inner search loop; `first` if this is the start of `FarExample`. */
  method Search(dst: array<Byte>, src: seq<Byte>, table: array<nat>, hash: Word -> nat, small: bool,
                s0: nat, nextEmit0: nat, repeat: nat, d0: nat, ghost far0: seq<Far>, ghost checked0: bool,
                ghost first: bool)
    returns (r: Outcome, s: nat, candidate: nat, nextEmit: nat, d: nat, ghost far: seq<Far>, ghost checked: bool)
    requires HashInto(hash, table.Length)
    requires d0 <= Room(|src|) <= dst.Length && small == (|src| <= 65536)
    requires Searching(src, dst[..d0], s0, nextEmit0, repeat, far0, checked0)
    requires Below(table, s0) && (first ==> Stage(1, src, hash, table[..], s0, nextEmit0, repeat, d0))
    modifies dst, table
    ensures !r.Bail? ==> s0 <= s <= |src| && d <= Room(|src|) && nextEmit <= |src|
    ensures !r.Bail? ==> Ahead(|src|, d, nextEmit, checked) && Kept(src, far, dst[..d], nextEmit, repeat)
    ensures r.Proceed? ==> Candidate(src, s, candidate, nextEmit) && Below(table, s + 2)
    ensures first ==> r.Proceed? && s == FAR && candidate == 0 && nextEmit == FAR - 2 && d <= 20
    ensures repeat <= MAX_COPY3_OFFSET ==> far == far0
    ensures Starting(src, s0, nextEmit0, repeat, d0) ==> r.Remainder? && OneRepeat(src, nextEmit, d)
  {
    hide Searching; hide Stage; hide Kept; hide Ahead; hide SearchStepped; hide SlotsIn; hide Candidate;
    hide Starting; hide OneRepeat;
    s, nextEmit, d, far, checked, candidate := s0, nextEmit0, d0, far0, checked0, 0;
    ghost var stage: nat := 1;
    SearchingBound(src, dst[..d], s, nextEmit, repeat, far, checked);
    while true
      invariant s0 <= s <= |src| && nextEmit <= s && 1 <= repeat <= s && d <= Room(|src|)
      invariant Searching(src, dst[..d], s, nextEmit, repeat, far, checked) && Below(table, s)
      invariant repeat <= MAX_COPY3_OFFSET ==> far == far0
      invariant first ==> stage > 0 && Stage(stage, src, hash, table[..], s, nextEmit, repeat, d)
      invariant Starting(src, s0, nextEmit0, repeat, d0) ==> Starting(src, s, nextEmit, repeat, d)
      decreases |src| - s
    {
      ghost var was := table[..];
      var q;
      q, far, checked := SearchStep(dst, src, table, hash, small, s, nextEmit, repeat, d, far, checked);
      if first { StageStep(stage, src, hash, small, was, s, nextEmit, repeat, d, q, table[..]); }
      s, candidate, nextEmit, d, stage := q.s, q.candidate, q.nextEmit, q.d, stage + 1;
      match q.kind {
        case GaveUp => return Bail, s, candidate, nextEmit, d, far, checked;
        case AtEnd => return Remainder, s, candidate, nextEmit, d, far, checked;
        case Found => return Proceed, s, candidate, nextEmit, d, far, checked;
        case Again => SearchingBound(src, dst[..d], s, nextEmit, repeat, far, checked);
      }
    }
  }

  lemma SearchingBound(src: seq<Byte>, out: seq<Byte>, s: int, nextEmit: int, repeat: int, far: seq<Far>, checked: bool)
    requires Searching(src, out, s, nextEmit, repeat, far, checked)
    ensures nextEmit <= s <= |src| && 1 <= repeat <= s
  {
  }

  /** Pending literals, if any, and a copy, as two operations. */
  method EmitSeparately(dst: array<Byte>, src: seq<Byte>, nextEmit: nat, base: nat, s: nat, offset: nat, d0: nat,
                        ghost repeat: nat, ghost far0: seq<Far>, ghost checked: bool)
    returns (d: nat, ghost far: seq<Far>)
    requires d0 <= Room(|src|) <= dst.Length && |src| <= MAX_BLOCK_SIZE
    requires Ahead(|src|, d0, nextEmit, checked) && Kept(src, far0, dst[..d0], nextEmit, repeat)
    requires nextEmit <= base && base + 4 <= s && IsMatch(src, base, offset, s - base)
    requires offset > MAX_COPY3_OFFSET ==> TooFar(offset) && |src| > MAX_COPY3_OFFSET + 10
    requires base == nextEmit || d0 + (s - nextEmit) <= DstLimit(|src|)
    modifies dst
    ensures d <= Room(|src|) && (d <= DstLimit(|src|) ==> Ahead(|src|, d, s, true))
    ensures Kept(src, far, dst[..d], s, offset)
  {
    hide Kept; hide LiteralBytes; hide CopyBytes; hide Ahead; hide Noted;
    var lits := src[nextEmit..base];
    Sizes(lits, offset, s - base);
    AheadCopy(|src|, d0, nextEmit, checked, |lits|, offset, s - base);
    ghost var b0 := dst[..d0];
    var k := EmitLiteral(dst, d0, lits);
    d := d0 + k;
    ghost var b1 := dst[..d];
    k := EmitCopy(dst, d, offset, s - base);
    d := d + k;
    KeptLiteral(src, far0, b0, nextEmit, base, repeat);
    KeptCopy(src, far0, b1, base, repeat, offset, s - base);
    far := Noted(far0, base, offset, s - base);
  }

  /** The decision tree that writes pending literals and the match. */
  method EmitMatch(dst: array<Byte>, src: seq<Byte>, small: bool, nextEmit: nat, base: nat, s: nat, offset: nat,
                   d0: nat, ghost repeat: nat, ghost far0: seq<Far>, ghost checked: bool)
    returns (bail: bool, d: nat, ghost far: seq<Far>)
    requires d0 <= Room(|src|) <= dst.Length && |src| <= MAX_BLOCK_SIZE
    requires small == (|src| <= 65536)
    requires Ahead(|src|, d0, nextEmit, checked) && Kept(src, far0, dst[..d0], nextEmit, repeat)
    requires nextEmit <= base && base + 4 <= s && IsMatch(src, base, offset, s - base)
    requires offset > MAX_COPY3_OFFSET ==> TooFar(offset) && |src| > MAX_COPY3_OFFSET + 10
    modifies dst
    ensures !bail ==> d <= Room(|src|) && (d <= DstLimit(|src|) ==> Ahead(|src|, d, s, true))
    ensures !bail ==> Kept(src, far, dst[..d], s, offset)
    ensures offset > MAX_COPY3_OFFSET && nextEmit < base <= nextEmit + 3 ==>
              !bail && d <= d0 + 10 && far == far0 + [Far(base, offset, s - base)]
  {
    hide Kept; hide Lits2Bytes; hide Lits3Bytes; hide Ahead; hide IsMatch;
    bail, d, far := false, d0, far0;
    ghost var b0 := dst[..d];
    MatchBounds(src, base, offset, s - base);
    var lits := src[nextEmit..base];
    Sizes(lits, offset, s - base);
    if nextEmit != base {
      if base - nextEmit > (if small then 4 else 3) || offset < MIN_COPY2_OFFSET {
        if d + (s - nextEmit) > DstLimit(|src|) { return true, d, far; }
        d, far := EmitSeparately(dst, src, nextEmit, base, s, offset, d, repeat, far, checked);
      } else if small || offset <= MAX_COPY2_OFFSET {
        AheadFused2(|src|, d, nextEmit, checked, |lits|, s - base);
        var k := EmitCopyLits2(dst, d, lits, offset, s - base);
        d := d + k;
        KeptFused2(src, far, b0, nextEmit, base, repeat, offset, s - base);
        far := Noted(far, base, offset, s - base);
      } else {
        AheadFused3(|src|, d, nextEmit, checked, |lits|, s - base);
        var k := EmitCopyLits3(dst, d, lits, offset, s - base);
        d := d + k;
        KeptFused3(src, far, b0, nextEmit, base, repeat, offset, s - base);
        far := Noted(far, base, offset, s - base);
      }
    } else {
      d, far := EmitSeparately(dst, src, nextEmit, base, s, offset, d, repeat, far, checked);
    }
  }

  /** The loop after a match that takes further matches starting right at its end. */
  method ImmediateMatches(dst: array<Byte>, src: seq<Byte>, table: array<nat>, hash: Word -> nat, small: bool,
                          s0: nat, repeat0: nat, d0: nat, ghost far0: seq<Far>)
    returns (r: Outcome, s: nat, nextEmit: nat, repeat: nat, d: nat, ghost far: seq<Far>)
    requires HashInto(hash, table.Length)
    requires d0 <= Room(|src|) <= dst.Length && small == (|src| <= 65536) && |src| <= MAX_BLOCK_SIZE
    requires 4 <= s0 <= |src| && 1 <= repeat0 <= s0 && Below(table, s0)
    requires d0 <= DstLimit(|src|) ==> Ahead(|src|, d0, s0, true)
    requires Kept(src, far0, dst[..d0], s0, repeat0)
    modifies dst, table
    ensures d <= Room(|src|) && s0 <= s <= |src| && repeat >= 1
    ensures r.Remainder? ==> repeat >= 1 && nextEmit <= |src| && Kept(src, far, dst[..d], nextEmit, repeat)
    ensures r.Proceed? ==> s0 < s && Searching(src, dst[..d], s, nextEmit, repeat, far, true) && Below(table, s)
    ensures s0 >= |src| - INPUT_MARGIN ==> r.Remainder? && s == nextEmit == s0 && d == d0 && far == far0
  {
    hide Kept; hide Ahead; hide CopyBytes;
    var sLimit := |src| - INPUT_MARGIN;
    s, repeat, d, far := s0, repeat0, d0, far0;
    while true
      invariant s0 <= s <= |src| && 1 <= repeat <= s && d <= Room(|src|)
      invariant d <= DstLimit(|src|) ==> Ahead(|src|, d, s, true)
      invariant Kept(src, far, dst[..d], s, repeat)
      invariant Below(table, s)
      invariant s0 >= sLimit ==> s == s0 && d == d0 && far == far0
      decreases |src| - s
    {
      nextEmit := s;
      if s >= sLimit { return Remainder, s, nextEmit, repeat, d, far; }
      var x: Word := src[s - 2..s + 6];
      if d > DstLimit(|src|) { return Bail, s, nextEmit, repeat, d, far; }
      var m2Hash, currHash := hash(x), hash(x[2..]);
      var candidate := table[currHash];
      table[m2Hash] := s - 2;
      table[currHash] := s;
      if (!small && s - candidate > MAX_COPY3_OFFSET) || x[2..6] != src[candidate..candidate + 4] {
        s := s + 1;
        return Proceed, s, nextEmit, repeat, d, far;
      }
      Shifted(src, s - 2, 2);
      WordsMatch(src, s, candidate, 4);
      ghost var was := repeat;
      repeat := s - candidate;
      var base := s;
      s := ExtendWords(src, s + 4, candidate + 4, |src| - 8);
      MatchJoin(src, base, repeat, 4, base + 4, s - (base + 4));
      d, far := EmitSeparately(dst, src, base, base, s, repeat, d, was, far, true);
    }
  }

  /** One round of the outer loop: search, extend, emit, then the immediate matches. */
  method Round(dst: array<Byte>, src: seq<Byte>, table: array<nat>, hash: Word -> nat, small: bool,
               s0: nat, nextEmit0: nat, repeat0: nat, d0: nat, ghost far0: seq<Far>, ghost checked: bool,
               ghost first: bool)
    returns (r: Outcome, s: nat, nextEmit: nat, repeat: nat, d: nat, ghost far: seq<Far>)
    requires HashInto(hash, table.Length) && Below(table, s0)
    requires d0 <= Room(|src|) <= dst.Length && small == (|src| <= 65536)
    requires Searching(src, dst[..d0], s0, nextEmit0, repeat0, far0, checked)
    requires first ==> far0 == [] && repeat0 == 1 && Stage(1, src, hash, table[..], s0, nextEmit0, repeat0, d0)
    modifies dst, table
    ensures !r.Bail? ==> d <= Room(|src|) && nextEmit <= |src| && s <= |src| && repeat >= 1
    ensures r.Remainder? ==> Kept(src, far, dst[..d], nextEmit, repeat)
    ensures r.Proceed? ==> s0 < s && Searching(src, dst[..d], s, nextEmit, repeat, far, true) && Below(table, s)
    ensures first ==> r.Remainder? && nextEmit == FAR + 4 && d <= 30 && far == [Far(FAR, FAR, 4)]
    ensures Starting(src, s0, nextEmit0, repeat0, d0) ==> r.Remainder? && OneRepeat(src, nextEmit, d)
  {
    hide Kept; hide Ahead; hide Stage; hide FarExample; hide Starting; hide OneRepeat;
    var candidate;
    ghost var checked1;
    repeat := repeat0;
    StageInput(first, src, hash, table[..], s0, nextEmit0, repeat, d0);
    r, s, candidate, nextEmit, d, far, checked1 :=
      Search(dst, src, table, hash, small, s0, nextEmit0, repeat, d0, far0, checked, first);
    if !r.Proceed? { return; }
    var found, offset := s, s - candidate;
    WordsMatch(src, s, candidate, 4);
    var base := ExtendBack(src, s, candidate, nextEmit);
    s := ExtendWords(src, base + 4, base + 4 - offset, |src| - 8);
    WholeMatch(src, base, found, offset, 4, s);
    if first { FourOnes(s); }
    var bail;
    bail, d, far := EmitMatch(dst, src, small, nextEmit, base, s, offset, d, repeat, far, checked1);
    if bail { return Bail, s, nextEmit, repeat, d, far; }
    repeat := offset;
    r, s, nextEmit, repeat, d, far := ImmediateMatches(dst, src, table, hash, small, s, repeat, d, far);
  }

  /** `emitRemainder`: the last literals, and the end. */
  method EmitRemainder(dst: array<Byte>, src: seq<Byte>, nextEmit: nat, d0: nat, ghost repeat: nat, ghost far: seq<Far>)
    returns (d: nat)
    requires d0 <= Room(|src|) <= dst.Length && nextEmit <= |src| <= MAX_BLOCK_SIZE
    requires Kept(src, far, dst[..d0], nextEmit, repeat) && repeat >= 1
    modifies dst
    ensures d <= Room(|src|) && FarMatches(src, far)
    ensures d > 0 ==> (DecodeBody(dst[..d], |src|) == Some(src) <==> Harmless(src, far))
    ensures nextEmit == |src| ==> d == d0
    ensures nextEmit < |src| && d0 + |src| - nextEmit <= DstLimit(|src|) ==> 0 < d == d0 + LitSize(|src| - nextEmit)
  {
    hide Kept; hide LiteralBytes;
    d := d0;
    if nextEmit < |src| {
      if d + |src| - nextEmit > DstLimit(|src|) {
        KeptFar(src, far, dst[..d], nextEmit, repeat);
        return 0;
      }
      RemainderFits(|src|, d, |src| - nextEmit);
      Sizes(src[nextEmit..], 1, 4);
      KeptLiteral(src, far, dst[..d], nextEmit, |src|, repeat);
      assert src[nextEmit..|src|] == src[nextEmit..];
      var k := EmitLiteral(dst, d, src[nextEmit..]);
      d := d + k;
    }
    KeptDecodes(src, far, dst[..d], repeat);
  }

  lemma KeptFar(src: seq<Byte>, far: seq<Far>, b: seq<Byte>, pos: int, repeat: int)
    requires Kept(src, far, b, pos, repeat)
    ensures FarMatches(src, far)
  {
  }

  lemma StartSearching(src: seq<Byte>)
    requires 16 <= |src| <= MAX_BLOCK_SIZE
    ensures Searching(src, [], 1, 0, 1, [], true)
  {
    StartKept(src);
    hide Kept;
  }

  /**
   `encodeBlockGo` for `len(src) > 65536`, `encodeBlockGo64K` otherwise. Whatever the hash: no write
   leaves `dst`, and a positive result decodes to `src`, if and only if the input also repeats 2 MiB closer
   wherever the search took a match that was further back than a copy3 can say. There is none in inputs of
   up to `maxCopy3Offset + 10` bytes; in one that is a byte longer there is, and the result is wrong.
   */
  method EncodeBlock(dst: array<Byte>, src: seq<Byte>, hash: Word -> nat) returns (d: nat, ghost far: seq<Far>)
    requires 16 <= |src| <= MAX_BLOCK_SIZE && dst.Length >= Room(|src|)
    requires HashInto(hash, if |src| <= 65536 then 8192 else 32768)
    modifies dst
    ensures d <= Room(|src|)
    ensures d > 0 ==> FarMatches(src, far) && (DecodeBody(dst[..d], |src|) == Some(src) <==> Harmless(src, far))
    ensures d > 0 && |src| <= MAX_COPY3_OFFSET + 10 ==> DecodeBody(dst[..d], |src|) == Some(src)
    ensures src == FarExample() && Apart(hash) ==> d > 0 && DecodeBody(dst[..d], |src|) != Some(src)
    ensures Uniform(src) ==> 3 <= d <= 14
  {
    hide Uniform; hide OneRepeat; hide LitSize;
    hide Kept; hide Ahead; hide Searching; hide DecodeBody; hide FarExample; hide Apart;
    var small := |src| <= 65536;
    var table := new nat[if small then 8192 else 32768](_ => 0);
    var nextEmit: nat, s: nat, repeat: nat := 0, 1, 1;
    ghost var first := src == FarExample() && Apart(hash);
    d, far := 0, [];
    StartSearching(src);
    assert dst[..0] == [];
    if first { StageOne(hash, table[..]); }
    while true
      invariant d <= Room(|src|) && Searching(src, dst[..d], s, nextEmit, repeat, far, true)
      invariant s <= |src| && Below(table, s)
      invariant first ==> far == [] && repeat == 1 && Stage(1, src, hash, table[..], s, nextEmit, repeat, d)
      invariant Uniform(src) ==> Starting(src, s, nextEmit, repeat, d)
      decreases |src| - s
    {
      var r;
      r, s, nextEmit, repeat, d, far := Round(dst, src, table, hash, small, s, nextEmit, repeat, d, far, true, first);
      if r.Bail? { return 0, far; }
      if r.Remainder? { break; }
    }
    if Uniform(src) { OneRepeatFits(src, nextEmit, d); }
    d := EmitRemainder(dst, src, nextEmit, d, repeat, far);
    if first { OnesSpoil(far); }
  }
}
