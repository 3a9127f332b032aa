/**
 encode_l3.go: `encodeBlockBest` without a dictionary.

 Table slots keep the last two positions of a hash. Matches may be found at `s`, `s + 1`, `s + 2` or
 from the end of the best match backwards, so a chosen match can end before the search position, and
 the tables can hold positions at or after it; `matchAt` refuses those.

 The bail-out before a match charges its literals but not the headers, so a write may leave `dst`.
 Go then panics or cuts the literals off; here the outcome is `Overflow`.
 */
module EncodeL3 {
  import opened Bytes
  import opened Format
  import opened Encoding
  import opened Emission
  import opened Emitters
  import opened OutputBound
  import opened Matching
  import opened SpaceInput

  datatype Outcome = Bail | Remainder | Proceed | Overflow

  datatype Slot = Slot(cur: nat, prev: nat)

  datatype Match = Match(offset: int, s: int, length: int, score: int, rep: bool, nextrep: bool)

  const INPUT_MARGIN := 10

  function SLimit(src: seq<Byte>): (r: int) { |src| - INPUT_MARGIN }

  // ---------- sizes and scores ----------

  function EmitLiteralSizeN(n: int): (r: int) {
    if n == 0 then 0 else if n <= 29 then 1 else if n < 29 + 256 then 2 else if n < 29 + 65536 then 3 else 4
  }

  function EmitRepeatSize(length: int): (r: int) {
    if length <= 0 then 0
    else if length <= 29 then 1
    else if length - 29 <= 256 then 2
    else if length - 29 <= 65536 then 3
    else 4
  }

  function EmitCopy2Size(length: int): (r: int) {
    if length - 4 <= 60 then 3 else if length - 64 < 256 then 4 else if length - 64 < 65536 then 5 else 6
  }

  /** `(bits.Len(x)+7)/8`. */
  function ByteLen(x: nat): (r: nat) {
    if x == 0 then 0 else 1 + ByteLen(x / 256)
  }

  function EmitCopySize(offset: int, length: int): (r: int) {
    if offset > 65536 + 63 then (if length - 64 <= 0 then 4 else 4 + ByteLen(length - 64))
    else if offset <= 1024 then
      if length <= 18 then 2 else if length < 18 + 256 then 3 else 2 + EmitRepeatSize(length - 18)
    else EmitCopy2Size(length)
  }

  function Score(m: Match, nextEmit: int): (r: int) {
    var ll := m.s - nextEmit;
    var score := m.length - EmitLiteralSizeN(ll) - m.s;
    var offset := m.s - m.offset;
    if m.rep then score - EmitRepeatSize(m.length)
    else
      var bonus :=
        if ll > 0 && offset > 1024 && ((ll <= 4 && offset < 65536 + 63 && m.length <= 11) || ll <= 3) then 1 else 0;
      score + bonus - EmitCopySize(offset, m.length)
  }

  // ---------- candidates ----------

  /** A kept match is a true match that starts after what was emitted and whose offset can be encoded. */
  ghost predicate Genuine(m: Match, src: seq<Byte>, nextEmit: int, repeat: int) {
    m.length == 0 ||
    (&& nextEmit <= m.s && m.length >= 3
     && IsMatch(src, m.s, m.s - m.offset, m.length)
     && (m.rep ==> m.s - m.offset == repeat)
     && (!m.rep ==> m.length >= 4 && m.s - m.offset < MAX_COPY3_OFFSET && Score(m, nextEmit) > -m.s))
  }

  method NextRepeat(src: seq<Byte>, s: int, offset: int, length: int) returns (nextrep: bool)
    requires 0 <= offset < s && length >= 0
  {
    nextrep := false;
    if s + length < SLimit(src) {
      var a, b := s + length + 1, offset + length + 1;
      nextrep := src[a..a + 4] == src[b..b + 4];
    }
  }

  /** A match of `known` bytes at `s`, extended forwards as far as it goes, and back to what was emitted. */
  method Extend(src: seq<Byte>, nextEmit: nat, s: nat, offset: nat, known: nat) returns (base: nat, end: nat)
    requires nextEmit <= s && offset < s && s + known <= |src| && known >= 1 &&
             src[offset..offset + known] == src[s..s + known]
    ensures nextEmit <= base <= s && s - base <= offset && s + known <= end <= |src|
    ensures IsMatch(src, base, s - offset, end - base)
    ensures base == nextEmit || base == s - offset || src[base - 1] != src[base - (s - offset) - 1]
    ensures end == |src| || src[end] != src[end - (s - offset)]
  {
    hide IsMatch;
    WordsMatch(src, s, offset, known);
    end := ExtendToEnd(src, s + known, offset + known);
    base := ExtendBack(src, s, offset, nextEmit);
    MatchJoin(src, base, s - offset, s - base, s, known);
    MatchJoin(src, base, s - offset, s + known - base, s + known, end - (s + known));
  }

  /** In an input of equal bytes every match goes on to the end. */
  ghost predicate ToEnd(src: seq<Byte>, m: Match) {
    Uniform(src) && m.length > 0 ==> m.s + m.length == |src|
  }

  method MatchAt(src: seq<Byte>, nextEmit: nat, ghost repeat: nat, best: Match, offset: int, s: nat, first: Word)
    returns (m: Match)
    requires nextEmit <= s && s + 4 <= |src| && offset >= 0 && first == src[s..s + 4]
    ensures Genuine(m, src, nextEmit, repeat) && !m.rep && m.s <= s && m.length >= 0
    ensures Fresh(src, s) ==> m.length == 0
    ensures ToEnd(src, m)
  {
    hide Fresh; hide Uniform;
    if (best.length != 0 && best.s - best.offset == s - offset) || s - offset >= MAX_COPY3_OFFSET || s <= offset {
      return Match(offset, s, 0, 0, false, false);
    }
    if src[offset..offset + 4] != first { return Match(offset, s, 0, 0, false, false); }
    if Fresh(src, s) { NotBefore(src, s, offset); }
    hide IsMatch;
    var base, end := Extend(src, nextEmit, s, offset, 4);
    if Uniform(src) { UniformEnd(src, end, s - offset); }
    m := Match(base - (s - offset), base, end - base, 0, false, false);
    m := m.(score := Score(m, nextEmit));
    if m.score <= -m.s { m := m.(length := 0); }
    var nextrep := NextRepeat(src, m.s, m.offset, m.length);
    m := m.(nextrep := nextrep);
  }

  /** All of the repeat around `s`. */
  ghost predicate Whole(m: Match, src: seq<Byte>, nextEmit: nat, repeat: nat, s: nat) {
    && m.rep && m.s - m.offset == repeat && IsMatch(src, m.s, repeat, m.length) && nextEmit <= m.s <= s
    && s + 3 <= m.s + m.length <= |src| && m.offset >= 0
    && (m.s == nextEmit || m.offset == 0 || src[m.s - 1] != src[m.offset - 1])
    && (m.s + m.length == |src| || src[m.s + m.length] != src[m.offset + m.length])
  }

  lemma NoMatch(m: Match, src: seq<Byte>, nextEmit: int, repeat: int)
    requires m.length == 0
    ensures Genuine(m, src, nextEmit, repeat)
  {
  }

  lemma RepeatMatch(m: Match, src: seq<Byte>, nextEmit: nat, repeat: nat, s: nat)
    requires Whole(m, src, nextEmit, repeat, s)
    ensures Genuine(m, src, nextEmit, repeat) && m.s <= s && m.length >= 3
  {
  }

  method MatchAtRepeat(src: seq<Byte>, nextEmit: nat, repeat: nat, best: Match, s: nat, first: Word)
    returns (m: Match)
    requires nextEmit <= s && s + 4 <= |src| && 1 <= repeat <= s && first == src[s..s + 4]
    ensures Genuine(m, src, nextEmit, repeat) && m.s <= s && m.length >= 0
    ensures best.rep || NoRepeat(src, s, repeat) ==> m.length == 0 && !m.rep
    ensures !best.rep && !NoRepeat(src, s, repeat) ==> Whole(m, src, nextEmit, repeat, s)
    ensures ToEnd(src, m)
  {
    hide Genuine; hide IsMatch; hide Score; hide Uniform;
    var offset := s - repeat;
    m := Match(offset, s, 0, 0, false, false);
    NoMatch(m, src, nextEmit, repeat);
    if best.rep { return; }
    assert src[offset..offset + 4][..3] == src[offset..offset + 3] && first[..3] == src[s..s + 3];
    if src[offset..offset + 4][..3] != first[..3] { return; }
    var base, end := Extend(src, nextEmit, s, offset, 3);
    if Uniform(src) { UniformEnd(src, end, repeat); }
    m := Match(base - repeat, base, end - base, 0, true, false);
    var nextrep := NextRepeat(src, m.s, m.offset, m.length);
    m := m.(nextrep := nextrep);
    m := m.(score := Score(m, nextEmit));
    RepeatMatch(m, src, nextEmit, repeat, s);
  }

  function BestOf(a: Match, b: Match): (r: Match)
    ensures r == a || r == b
    ensures r.length == 0 <==> a.length == 0 && b.length == 0
  {
    if b.length == 0 then a
    else if a.length == 0 then b
    else if a.score > b.score then a
    else if b.score > a.score then b
    else if a.s != b.s then (if a.s < b.s then a else b)
    else if a.nextrep != b.nextrep then (if a.nextrep then a else b)
    else if a.offset > b.offset then a
    else b
  }

  /** One more candidate against the best so far. */
  method Try(src: seq<Byte>, nextEmit: nat, ghost repeat: nat, best: Match, offset: int, s: nat, first: Word)
    returns (r: Match)
    requires nextEmit <= s && s + 4 <= |src| && offset >= 0 && first == src[s..s + 4]
    requires Genuine(best, src, nextEmit, repeat)
    ensures Genuine(r, src, nextEmit, repeat) && (best.length > 0 ==> r.length > 0)
    ensures (r == best || r.s <= s) && (Fresh(src, s) ==> r == best)
    ensures (ToEnd(src, best) ==> ToEnd(src, r)) && (!best.rep ==> !r.rep)
    ensures best.length >= 0 ==> r.length >= 0
  {
    hide Genuine; hide Fresh; hide Uniform;
    var m := MatchAt(src, nextEmit, repeat, best, offset, s, first);
    r := BestOf(best, m);
  }

  method TryRepeat(src: seq<Byte>, nextEmit: nat, repeat: nat, best: Match, s: nat, first: Word)
    returns (r: Match)
    requires nextEmit <= s && s + 4 <= |src| && 1 <= repeat <= s && first == src[s..s + 4]
    requires Genuine(best, src, nextEmit, repeat)
    ensures Genuine(r, src, nextEmit, repeat) && (best.length > 0 ==> r.length > 0)
    ensures (r == best || r.s <= s) && (best.rep || NoRepeat(src, s, repeat) ==> r == best)
    ensures best.length == 0 && !best.rep && !NoRepeat(src, s, repeat) ==> Whole(r, src, nextEmit, repeat, s)
    ensures ToEnd(src, best) ==> ToEnd(src, r)
  {
    hide Genuine; hide NoRepeat; hide Uniform;
    var m := MatchAtRepeat(src, nextEmit, repeat, best, s, first);
    r := BestOf(best, m);
  }

  lemma IsRepeat(m: Match, src: seq<Byte>, nextEmit: nat, repeat: nat, s: nat)
    requires Whole(m, src, nextEmit, repeat, s)
    ensures m.rep && m.length >= 3
  {
  }

  lemma UniformRepeats(src: seq<Byte>, s: nat, repeat: nat)
    requires Uniform(src) && 1 <= repeat <= s && s + 4 <= |src|
    ensures !NoRepeat(src, s, repeat)
  {
    UniformWords(src, s, s - repeat, 3);
  }

  /** Candidates at `s`, and the repeats at `s` and `s + 1`. */
  method AtPosition(src: seq<Byte>, nextEmit: nat, repeat: nat, best0: Match, s: nat, candidateL: Slot,
                    candidateS: Slot)
    returns (best: Match)
    requires nextEmit <= s && s + 8 <= |src| && 1 <= repeat <= s
    ensures Genuine(best, src, nextEmit, repeat) && best.s <= s + 1
    ensures Fresh(src, s) && NoRepeat(src, s, repeat) && NoRepeat(src, s + 1, repeat) ==> best.length == 0
    ensures Fresh(src, s) && !NoRepeat(src, s, repeat) ==> Whole(best, src, nextEmit, repeat, s)
    ensures ToEnd(src, best) && (Uniform(src) ==> best.length > 0)
  {
    hide Genuine; hide Fresh; hide NoRepeat; hide Whole; hide ToEnd; hide Uniform;
    if Uniform(src) { UniformRepeats(src, s, repeat); }
    var cv: Word := src[s..s + 8];
    Shifted(src, s, 0);
    Shifted(src, s, 1);
    var a := MatchAt(src, nextEmit, repeat, best0, candidateL.cur, s, cv[0..4]);
    var b := MatchAt(src, nextEmit, repeat, best0, candidateL.prev, s, cv[0..4]);
    best := BestOf(a, b);
    best := Try(src, nextEmit, repeat, best, candidateS.cur, s, cv[0..4]);
    best := Try(src, nextEmit, repeat, best, candidateS.prev, s, cv[0..4]);
    ghost var nothing := best.length == 0 && !best.rep;
    best := TryRepeat(src, nextEmit, repeat, best, s, cv[0..4]);
    if nothing && !NoRepeat(src, s, repeat) { IsRepeat(best, src, nextEmit, repeat, s); }
    if Fresh(src, s) && !NoRepeat(src, s, repeat) { IsRepeat(best, src, nextEmit, repeat, s); }
    best := TryRepeat(src, nextEmit, repeat, best, s + 1, cv[1..5]);
  }

  /** Candidates at `s + 1` and `s + 2`. */
  method AtNextPositions(src: seq<Byte>, nextEmit: nat, repeat: nat, best0: Match, s: nat,
                         lTable: array<Slot>, sTable: array<Slot>, hashL: Word -> nat, hashS: Word -> nat)
    returns (best: Match)
    requires HashInto(hashL, lTable.Length) && HashInto(hashS, sTable.Length)
    requires nextEmit <= s && s + 10 <= |src| && 1 <= repeat <= s && Genuine(best0, src, nextEmit, repeat)
    ensures Genuine(best, src, nextEmit, repeat) && (best0.length > 0 ==> best.length > 0)
    ensures best0.s <= s + 2 ==> best.s <= s + 2
    ensures Fresh(src, s + 1) && Fresh(src, s + 2) && best0.rep ==> best == best0
    ensures ToEnd(src, best0) ==> ToEnd(src, best)
  {
    hide Genuine; hide Fresh; hide NoRepeat; hide Whole; hide ToEnd; hide Uniform;
    best := best0;
    var nextShort := sTable[hashS(src[s..s + 8][1..])];
    var sFwd := s + 1;
    var cv: Word := src[sFwd..sFwd + 8];
    Shifted(src, sFwd, 0);
    var nextLong := lTable[hashL(cv)];
    best := Try(src, nextEmit, repeat, best, nextShort.cur, sFwd, cv[0..4]);
    best := Try(src, nextEmit, repeat, best, nextShort.prev, sFwd, cv[0..4]);
    best := Try(src, nextEmit, repeat, best, nextLong.cur, sFwd, cv[0..4]);
    best := Try(src, nextEmit, repeat, best, nextLong.prev, sFwd, cv[0..4]);
    sFwd := sFwd + 1;
    cv := src[sFwd..sFwd + 8];
    Shifted(src, sFwd, 0);
    nextLong := lTable[hashL(cv)];
    best := TryRepeat(src, nextEmit, repeat, best, sFwd, cv[0..4]);
    nextShort := sTable[hashS(cv)];
    best := Try(src, nextEmit, repeat, best, nextShort.cur, sFwd, cv[0..4]);
    best := Try(src, nextEmit, repeat, best, nextShort.prev, sFwd, cv[0..4]);
    best := Try(src, nextEmit, repeat, best, nextLong.cur, sFwd, cv[0..4]);
    best := Try(src, nextEmit, repeat, best, nextLong.prev, sFwd, cv[0..4]);
  }

  /** Candidates that match around the end of the best match, aligned to its start. */
  method AtMatchEnd(src: seq<Byte>, nextEmit: nat, repeat: nat, best0: Match,
                    lTable: array<Slot>, sTable: array<Slot>, hashL: Word -> nat, hashS: Word -> nat)
    returns (best: Match)
    requires HashInto(hashL, lTable.Length) && HashInto(hashS, sTable.Length)
    requires Genuine(best0, src, nextEmit, repeat) && best0.length > 0
    ensures Genuine(best, src, nextEmit, repeat) && best.length > 0
    ensures best.s <= best0.s || best.s <= SLimit(src) - 2
    ensures Fresh(src, best0.s + 1) ==> best == best0
    ensures Uniform(src) && ToEnd(src, best0) ==> best == best0
  {
    hide Uniform;
    best := best0;
    var sAt := best.s + best.length - 1;
    if sAt < SLimit(src) {
      var sBack: nat, backL := best.s + 2 - 1, best.length - 2;
      hide Genuine; hide Fresh;
      var cv: Word := src[sBack..sBack + 8];
      Shifted(src, sBack, 0);
      var next := lTable[hashL(src[sAt..sAt + 8])];
      if next.cur - backL > 0 { best := Try(src, nextEmit, repeat, best, next.cur - backL, sBack, cv[0..4]); }
      if next.prev - backL > 0 { best := Try(src, nextEmit, repeat, best, next.prev - backL, sBack, cv[0..4]); }
      next := sTable[hashS(src[sAt..sAt + 8])];
      if next.cur - backL > 0 { best := Try(src, nextEmit, repeat, best, next.cur - backL, sBack, cv[0..4]); }
      if next.prev - backL > 0 { best := Try(src, nextEmit, repeat, best, next.prev - backL, sBack, cv[0..4]); }
    }
  }

  /** The match of a search starts no later than the search was; behind many literals that takes larger steps. */
  ghost predicate NotLate(src: seq<Byte>, nextEmit: nat, base: int) {
    base <= |src| - 9 && (base - nextEmit >= 258 ==> base <= |src| - 10)
  }

  /** One position of the search loop. */
  method SearchStep(src: seq<Byte>, lTable: array<Slot>, sTable: array<Slot>, hashL: Word -> nat, hashS: Word -> nat,
                    s: nat, nextEmit: nat, repeat: nat, best0: Match, ghost k: nat)
    returns (best: Match)
    requires HashInto(hashL, lTable.Length) && HashInto(hashS, sTable.Length) && lTable != sTable
    requires nextEmit <= s && 1 <= repeat <= s &&
             s + (if (s - nextEmit) / 256 + 1 > 64 then 64 else (s - nextEmit) / 256 + 1) <= SLimit(src)
    modifies lTable, sTable
    ensures best.length > 0 ==> Genuine(best, src, nextEmit, repeat) && NotLate(src, nextEmit, best.s)
    ensures InCycle(src, k, s, nextEmit, repeat) ==>
              if s < nextEmit + 286 then best.length == 0 else best.rep && best.s == nextEmit + 286 && best.length == 3
    ensures Uniform(src) ==> best.length > 0 && best.s <= s + 2 && best.s + best.length == |src|
  {
    hide Genuine; hide Fresh; hide NoRepeat; hide InCycle; hide Uniform;
    if InCycle(src, k, s, nextEmit, repeat) {
      CycleNext(src, k, s, nextEmit, repeat);
      CycleIs(src, k, s, nextEmit, repeat);
    }
    var cv: Word := src[s..s + 8];
    var hl, hs := hashL(cv), hashS(cv);
    var candidateL, candidateS := lTable[hl], sTable[hs];
    best := AtPosition(src, nextEmit, repeat, best0, s, candidateL, candidateS);
    if best.length > 0 {
      if InCycle(src, k, s, nextEmit, repeat) { OnlyThree(src, k, best); }
      best := AtNextPositions(src, nextEmit, repeat, best, s, lTable, sTable, hashL, hashS);
      best := AtMatchEnd(src, nextEmit, repeat, best, lTable, sTable, hashL, hashS);
    }
    lTable[hl] := Slot(s, candidateL.cur);
    sTable[hs] := Slot(s, candidateS.cur);
  }

  lemma CycleIs(src: seq<Byte>, k: nat, s: nat, nextEmit: nat, repeat: nat)
    requires InCycle(src, k, s, nextEmit, repeat)
    ensures src == SpaceExample() && k < CYCLES && repeat == 1 && nextEmit == CYCLE * k &&
            nextEmit <= s <= nextEmit + 286
  {
  }

  /** The repeat at the end of a cycle has three bytes. */
  lemma OnlyThree(src: seq<Byte>, k: nat, m: Match)
    requires src == SpaceExample() && k < CYCLES && Whole(m, src, CYCLE * k, 1, CYCLE * k + 286)
    ensures m.rep && m.s == CYCLE * k + 286 && m.length == 3
  {
    CycleEnd(k);
    hide SpaceExample;
    var p := CYCLE * k + 286;
    if m.s < p {
      MatchedByte(src, m.s, 1, m.length, p - 1);
      assert false;
    }
    if m.s + m.length > p + 3 {
      MatchedByte(src, m.s, 1, m.length, p + 3);
      assert false;
    }
  }

  /** The inner search loop. `k` is the cycle of `SpaceExample`. */
  method Search(src: seq<Byte>, lTable: array<Slot>, sTable: array<Slot>, hashL: Word -> nat, hashS: Word -> nat,
                s0: nat, nextEmit: nat, repeat: nat, ghost k: nat)
    returns (found: bool, s: nat, best: Match)
    requires HashInto(hashL, lTable.Length) && HashInto(hashS, sTable.Length) && lTable != sTable
    requires nextEmit <= s0 && s0 + 8 <= |src| && 1 <= repeat <= s0
    modifies lTable, sTable
    ensures found ==> s0 <= s && s < SLimit(src) && best.length > 0 && Genuine(best, src, nextEmit, repeat)
    ensures found ==> NotLate(src, nextEmit, best.s)
    ensures AtCycle(src, k, s0, nextEmit, repeat) ==> found && best.rep && best.s == nextEmit + 286 && best.length == 3
    ensures Uniform(src) && |src| >= 16 && s0 == 1 && nextEmit == 0 ==>
              found && best.s <= 3 && best.s + best.length == |src|
  {
    hide Uniform;
    hide Genuine; hide InCycle; hide NotLate; hide AtCycle;
    best := Match(0, 0, 0, 0, false, false);
    s := s0;
    ghost var cycling := AtCycle(src, k, s0, nextEmit, repeat);
    if cycling { EnterCycle(src, k, s0, nextEmit, repeat); }
    while true
      invariant s0 <= s && s + 8 <= |src|
      invariant cycling ==> InCycle(src, k, s, nextEmit, repeat)
      invariant Uniform(src) ==> s == s0
      decreases |src| - s
    {
      if cycling { CycleGoesOn(src, k, s, nextEmit, repeat); }
      var nextS := (s - nextEmit) / 256 + 1;
      nextS := s + if nextS > 64 then 64 else nextS;
      if nextS > SLimit(src) { return false, s, best; }
      best := SearchStep(src, lTable, sTable, hashL, hashS, s, nextEmit, repeat, best, k);
      if best.length > 0 { return true, s, best; }
      s := nextS;
    }
  }

  lemma EnterCycle(src: seq<Byte>, k: nat, s: nat, nextEmit: nat, repeat: nat)
    requires AtCycle(src, k, s, nextEmit, repeat)
    ensures InCycle(src, k, s, nextEmit, repeat)
  {
    hide SpaceExample;
  }

  lemma CycleGoesOn(src: seq<Byte>, k: nat, s: nat, nextEmit: nat, repeat: nat)
    requires InCycle(src, k, s, nextEmit, repeat)
    ensures s < nextEmit + 286 ==> InCycle(src, k, s + (s - nextEmit) / 256 + 1, nextEmit, repeat)
    ensures s <= nextEmit + 286 && s + 60 <= |src|
  {
    CycleNext(src, k, s, nextEmit, repeat);
    hide SpaceExample;
  }

  // ---------- how far the output gets ahead of the input ----------

  /** Whether literals go into the copy. */
  predicate Fuses(ll: nat, offset: nat, length: nat) {
    ll > 0 && if offset <= MAX_COPY2_OFFSET then !(ll > 4 || offset < 64 || (offset <= 1024 && length > 11))
      else ll <= 3
  }

  /** How much of the match is emitted. */
  function Covered(ll: nat, offset: nat, length: nat): (r: nat) {
    if Fuses(ll, offset, length) && offset <= MAX_COPY2_OFFSET && length > 11 then 11 else length
  }

  /** What literals and a copy take. */
  function MatchCost(ll: nat, offset: nat, length: nat): (r: nat) {
    if !Fuses(ll, offset, length) then LitSize(ll) + CopySize(offset, length)
    else if offset <= MAX_COPY2_OFFSET then 3 + ll
    else 4 + ExtraSize(length) + ll
  }

  /** A copy is only taken if it saves something. */
  lemma CopySaves(m: Match, src: seq<Byte>, nextEmit: nat, repeat: int)
    requires Genuine(m, src, nextEmit, repeat) && m.length > 0 && !m.rep && |src| <= MAX_BLOCK_SIZE
    ensures var ll, offset := m.s - nextEmit, m.s - m.offset;
            && ll >= 0 && 1 <= offset <= m.s && m.length >= 4 && m.s + m.length <= |src|
            && MatchCost(ll, offset, m.length) + 1 <= ll + Covered(ll, offset, m.length)
  {
    var ll, offset := m.s - nextEmit, m.s - m.offset;
    assert IsMatch(src, m.s, offset, m.length);
    hide IsMatch;
    CopySizes(offset, m.length);
    hide ByteLen; hide EmitCopySize;
  }

  lemma CopySizes(offset: nat, length: nat)
    requires 1 <= offset && 4 <= length <= MAX_BLOCK_SIZE
    ensures EmitCopySize(offset, length) == CopySize(offset, length)
  {
    if offset > MAX_COPY2_OFFSET && length > 64 {
      var x := length - 64;
      assert ByteLen(x) == 1 + ByteLen(x / 256) && (x >= 256 ==> ByteLen(x / 256) == 1 + ByteLen(x / 256 / 256));
      assert x < 256 ==> x / 256 == 0;
      assert 256 <= x < 65536 ==> x / 256 / 256 == 0;
      assert x >= 65536 ==> ByteLen(x / 256 / 256) == 1 + ByteLen(x / 256 / 256 / 256) && x / 256 / 256 / 256 == 0;
    }
  }

  /** One byte for every 289 emitted, at most: a repeat of three bytes behind 286 literals or more. */
  predicate Slack(n: nat, d: int, e: int) { n < 65566 ==> 289 * (d - e) <= e }

  /** Inputs that are too short for a buffer of that size to overflow: those of `Encode`, and those of the writer. */
  predicate Roomy(n: nat, room: int) {
    (n <= 1194 && room >= n + 1 - UvarintLen(n)) || (n <= 1033 && room >= Room(n))
  }

  lemma RepeatFits(n: nat, room: int, e: nat, d: nat, base: nat, length: nat)
    requires Slack(n, d, e) && e <= base <= n - 9 && length >= 3 && base + length <= n && d + (base - e) <= n - 5
    ensures var d' := d + LitSize(base - e) + HeaderSize(length);
            Slack(n, d', base + length) && d' <= n + 6 && (Roomy(n, room) ==> d' <= room)
  {
  }

  lemma CopyFits(n: nat, room: int, e: nat, d: nat, base: nat, offset: nat, length: nat)
    requires Slack(n, d, e) && e <= base <= n - 9 && (base - e >= 258 ==> base <= n - 10) && d + (base - e) <= n - 5
    requires length >= 4 && base + length <= n && 1 <= offset <= base
    requires MatchCost(base - e, offset, length) + 1 <= base - e + Covered(base - e, offset, length)
    ensures var d' := d + MatchCost(base - e, offset, length);
            Slack(n, d', base + Covered(base - e, offset, length)) && d' <= n + 6 && (Roomy(n, room) ==> d' <= room)
  {
  }

  // ---------- emission ----------

  /** `emitLiteral`, unless it would leave `dst`. */
  method Literal(dst: array<Byte>, src: seq<Byte>, nextEmit: nat, base: nat, d0: nat, ghost repeat: nat)
    returns (ok: bool, d: nat)
    requires d0 <= dst.Length && nextEmit <= base <= |src| <= MAX_BLOCK_SIZE &&
             Encoded(dst[..d0], src, nextEmit, repeat)
    modifies dst
    ensures ok <==> d0 + |LiteralBytes(src[nextEmit..base])| <= dst.Length
    ensures ok ==> d == d0 + |LiteralBytes(src[nextEmit..base])| && Encoded(dst[..d], src, base, repeat)
  {
    hide Encoded; hide LiteralBytes;
    var lits := src[nextEmit..base];
    if d0 + |LiteralBytes(lits)| > dst.Length { return false, d0; }
    AfterLiteral(dst[..d0], src, nextEmit, base, repeat);
    var k := EmitLiteral(dst, d0, lits);
    return true, d0 + k;
  }

  /** The match without literals: copy2 where it is as short as copy1 and decodes faster. */
  method CopyOp(dst: array<Byte>, src: seq<Byte>, base: nat, offset: nat, length: nat, preferCopy2: bool, d0: nat,
                ghost repeat: nat)
    returns (ok: bool, d: nat)
    requires d0 <= dst.Length && Encoded(dst[..d0], src, base, repeat)
    requires IsMatch(src, base, offset, length) && length >= 4 && offset <= MAX_COPY3_OFFSET
    requires preferCopy2 ==> MIN_COPY2_OFFSET <= offset <= MAX_COPY2_OFFSET && 18 < length <= 64
    modifies dst
    ensures ok <==> d0 + CopySize(offset, length) <= dst.Length
    ensures ok ==> d == d0 + CopySize(offset, length) && Encoded(dst[..d], src, base + length, offset)
  {
    hide Encoded; hide CopyBytes; hide Copy2Bytes;
    Sizes([], offset, length);
    var k;
    if preferCopy2 {
      if d0 + |Copy2Bytes(offset, length)| > dst.Length { return false, d0; }
      AfterCopy2(dst[..d0], src, base, repeat, offset, length);
      k := EncodeCopy2(dst, d0, offset, length);
    } else {
      if d0 + |CopyBytes(offset, length)| > dst.Length { return false, d0; }
      AfterCopy(dst[..d0], src, base, repeat, offset, length);
      k := EmitCopy(dst, d0, offset, length);
    }
    return true, d0 + k;
  }

  /** A fused copy of `length` bytes of the match. */
  method FusedOp(dst: array<Byte>, src: seq<Byte>, nextEmit: nat, base: nat, offset: nat, length: nat, d0: nat,
                 ghost repeat: nat)
    returns (ok: bool, d: nat)
    requires d0 <= dst.Length && Encoded(dst[..d0], src, nextEmit, repeat)
    requires IsMatch(src, base, offset, length) && length >= 4 && nextEmit < base
    requires if offset <= MAX_COPY2_OFFSET then base <= nextEmit + 4 && offset >= MIN_COPY2_OFFSET && length <= 11
             else base <= nextEmit + 3 && offset <= MAX_COPY3_OFFSET
    modifies dst
    ensures var size := (if offset <= MAX_COPY2_OFFSET then 3 else 4 + ExtraSize(length)) + (base - nextEmit);
            && (ok <==> d0 + size <= dst.Length)
            && (ok ==> d == d0 + size && Encoded(dst[..d], src, base + length, offset))
  {
    hide Encoded; hide Lits2Bytes; hide Lits3Bytes;
    var lits := src[nextEmit..base];
    Sizes(lits, offset, length);
    var k;
    if offset <= MAX_COPY2_OFFSET {
      if d0 + |Lits2Bytes(lits, offset, length)| > dst.Length { return false, d0; }
      AfterFused2(dst[..d0], src, nextEmit, base, repeat, offset, length);
      k := EmitCopyLits2(dst, d0, lits, offset, length);
    } else {
      if d0 + |Lits3Bytes(lits, offset, length)| > dst.Length { return false, d0; }
      AfterFused3(dst[..d0], src, nextEmit, base, repeat, offset, length);
      k := EmitCopyLits3(dst, d0, lits, offset, length);
    }
    return true, d0 + k;
  }

  /** The repeat branch of the emission tree. */
  method EmitRepeatMatch(dst: array<Byte>, src: seq<Byte>, nextEmit: nat, base: nat, length: nat, d0: nat, repeat: nat)
    returns (ok: bool, d: nat)
    requires d0 <= dst.Length && |src| <= MAX_BLOCK_SIZE && Encoded(dst[..d0], src, nextEmit, repeat)
    requires nextEmit <= base && IsMatch(src, base, repeat, length) && length >= 1
    modifies dst
    ensures var size := LitSize(base - nextEmit) + HeaderSize(length);
            && (ok <==> d0 + size <= dst.Length)
            && (ok ==> d == d0 + size && Encoded(dst[..d], src, base + length, repeat))
  {
    hide Encoded; hide LiteralBytes; hide RepeatBytes;
    Sizes(src[nextEmit..base], 1, length);
    ok, d := Literal(dst, src, nextEmit, base, d0, repeat);
    if !ok { return; }
    if d + |RepeatBytes(length)| > dst.Length { return false, d; }
    AfterRepeat(dst[..d], src, base, repeat, length);
    var k := EmitRepeat(dst, d, length);
    d := d + k;
  }

  /** The copy branches of the emission tree; a fused match longer than 11 is cut to 11. */
  method EmitCopyMatch(dst: array<Byte>, src: seq<Byte>, nextEmit: nat, base: nat, offset: nat, length: nat, d0: nat,
                       ghost repeat: nat)
    returns (ok: bool, s: nat, d: nat)
    requires d0 <= dst.Length && |src| <= MAX_BLOCK_SIZE && Encoded(dst[..d0], src, nextEmit, repeat)
    requires nextEmit <= base && IsMatch(src, base, offset, length) && length >= 4 && offset <= MAX_COPY3_OFFSET
    modifies dst
    ensures ok <==> d0 + MatchCost(base - nextEmit, offset, length) <= dst.Length
    ensures ok ==> d == d0 + MatchCost(base - nextEmit, offset, length) &&
                   s == base + Covered(base - nextEmit, offset, length)
    ensures ok ==> base < s <= |src| && Encoded(dst[..d], src, s, offset)
  {
    hide Encoded; hide LiteralBytes; hide CopySize; hide ExtraSize;
    s, d := base + length, d0;
    var litLen := base - nextEmit;
    Sizes(src[nextEmit..base], 1, 4);
    if litLen > 0 {
      if offset <= MAX_COPY2_OFFSET {
        if litLen > 4 || offset < 64 || (offset <= 1024 && length > 11) {
          ok, d := Literal(dst, src, nextEmit, base, d, repeat);
          if !ok { return; }
          ok, d := CopyOp(dst, src, base, offset, length, 18 < length <= 64 && offset >= 64, d, repeat);
        } else if length > 11 {
          SplitMatch(src, base, offset, length, 11);
          ok, d := FusedOp(dst, src, nextEmit, base, offset, 11, d, repeat);
          s := base + 11;
        } else {
          ok, d := FusedOp(dst, src, nextEmit, base, offset, length, d, repeat);
        }
      } else if litLen > 3 {
        ok, d := Literal(dst, src, nextEmit, base, d, repeat);
        if !ok { return; }
        ok, d := CopyOp(dst, src, base, offset, length, false, d, repeat);
      } else {
        ok, d := FusedOp(dst, src, nextEmit, base, offset, length, d, repeat);
      }
    } else {
      ok, d := CopyOp(dst, src, base, offset, length,
                      18 < length <= 64 && offset >= 64 && offset <= MAX_COPY2_OFFSET, d, repeat);
    }
  }

  method FillTables(src: seq<Byte>, lTable: array<Slot>, sTable: array<Slot>, hashL: Word -> nat, hashS: Word -> nat,
                    startIdx: nat, s: nat)
    requires HashInto(hashL, lTable.Length) && HashInto(hashS, sTable.Length) && s + 8 <= |src|
    modifies lTable, sTable
  {
    var i := startIdx;
    while i < s {
      var cv0: Word := src[i..i + 8];
      var long0, short0 := hashL(cv0), hashS(cv0);
      lTable[long0] := Slot(i, lTable[long0].cur);
      sTable[short0] := Slot(i, sTable[short0].cur);
      i := i + 1;
    }
  }

  ghost predicate Searching(src: seq<Byte>, out: seq<Byte>, s: int, nextEmit: int, repeat: int) {
    && nextEmit <= s && 1 <= repeat <= s && s + 8 <= |src| <= MAX_BLOCK_SIZE
    && Encoded(out, src, nextEmit, repeat)
  }

  lemma NotLateMeans(src: seq<Byte>, nextEmit: nat, base: int)
    requires NotLate(src, nextEmit, base)
    ensures base <= |src| - 9 && (base - nextEmit >= 258 ==> base <= |src| - 10)
  {
  }

  lemma NearCost(ll: nat, offset: nat, length: nat)
    ensures offset < 64 ==> MatchCost(ll, offset, length) == LitSize(ll) + CopySize(offset, length) &&
                            Covered(ll, offset, length) == length
  {
  }

  /** An input of equal bytes is up to three literals and one match. */
  lemma UniformCost(m: Match, src: seq<Byte>, repeat: nat)
    requires Genuine(m, src, 0, repeat) && m.length > 0 && m.s <= 3
    ensures 1 <= m.s && 1 <= m.s - m.offset < 64 && 2 <= LitSize(m.s) <= 4
    ensures HeaderSize(m.length) <= 4 && CopySize(m.s - m.offset, m.length) <= 6
  {
  }

  /** The branches of the emission tree. */
  method EmitBest(dst: array<Byte>, src: seq<Byte>, nextEmit: nat, best: Match, d0: nat, repeat: nat)
    returns (ok: bool, s: nat, d: nat)
    requires d0 <= dst.Length && |src| <= MAX_BLOCK_SIZE && Encoded(dst[..d0], src, nextEmit, repeat)
    requires Genuine(best, src, nextEmit, repeat) && best.length > 0 && NotLate(src, nextEmit, best.s)
    requires Slack(|src|, d0, nextEmit) && d0 + (best.s - nextEmit) <= |src| - 5
    modifies dst
    ensures !ok ==> dst.Length < |src| + 6 && !Roomy(|src|, dst.Length)
    ensures ok ==> d <= dst.Length && best.s < s <= |src| && Encoded(dst[..d], src, s, best.s - best.offset) &&
                   Slack(|src|, d, s)
    ensures best.rep ==> var size := LitSize(best.s - nextEmit) + HeaderSize(best.length);
              (ok <==> d0 + size <= dst.Length) && (ok ==> d == d0 + size && s == best.s + best.length)
    ensures !best.rep && best.s - best.offset < 64 ==>
              var size := LitSize(best.s - nextEmit) + CopySize(best.s - best.offset, best.length);
              (ok <==> d0 + size <= dst.Length) && (ok ==> d == d0 + size && s == best.s + best.length)
  {
    NotLateMeans(src, nextEmit, best.s);
    hide Encoded; hide Slack; hide Roomy; hide NotLate; hide LitSize; hide HeaderSize; hide MatchCost; hide Covered;
    hide CopySize;
    var base, offset: nat := best.s, best.s - best.offset;
    s := base + best.length;
    if best.rep {
      hide Genuine;
      RepeatFits(|src|, dst.Length, nextEmit, d0, base, best.length);
      ok, d := EmitRepeatMatch(dst, src, nextEmit, base, best.length, d0, repeat);
    } else {
      hide Genuine;
      ok, s, d := EmitBestCopy(dst, src, nextEmit, best, d0, repeat);
    }
  }

  method EmitBestCopy(dst: array<Byte>, src: seq<Byte>, nextEmit: nat, best: Match, d0: nat, ghost repeat: nat)
    returns (ok: bool, s: nat, d: nat)
    requires d0 <= dst.Length && |src| <= MAX_BLOCK_SIZE && Encoded(dst[..d0], src, nextEmit, repeat)
    requires Genuine(best, src, nextEmit, repeat) && best.length > 0 && !best.rep && NotLate(src, nextEmit, best.s)
    requires Slack(|src|, d0, nextEmit) && d0 + (best.s - nextEmit) <= |src| - 5
    modifies dst
    ensures !ok ==> dst.Length < |src| + 6 && !Roomy(|src|, dst.Length)
    ensures ok ==> d <= dst.Length && best.s < s <= |src| && Encoded(dst[..d], src, s, best.s - best.offset) &&
                   Slack(|src|, d, s)
    ensures best.s - best.offset < 64 ==>
              var size := LitSize(best.s - nextEmit) + CopySize(best.s - best.offset, best.length);
              (ok <==> d0 + size <= dst.Length) && (ok ==> d == d0 + size && s == best.s + best.length)
  {
    NotLateMeans(src, nextEmit, best.s);
    CopySaves(best, src, nextEmit, repeat);
    hide Encoded; hide Slack; hide Roomy; hide NotLate; hide LitSize; hide HeaderSize; hide MatchCost; hide Covered;
    hide CopySize;
    var base, offset: nat := best.s, best.s - best.offset;
    CopyFits(|src|, dst.Length, nextEmit, d0, base, offset, best.length);
    NearCost(base - nextEmit, offset, best.length);
    ok, s, d := EmitCopyMatch(dst, src, nextEmit, base, offset, best.length, d0, repeat);
  }

  /** One round of the outer loop. Either more is emitted, or the search position moves on. */
  method Round(dst: array<Byte>, src: seq<Byte>, lTable: array<Slot>, sTable: array<Slot>,
               hashL: Word -> nat, hashS: Word -> nat, s0: nat, nextEmit0: nat, repeat0: nat, d0: nat, ghost k: nat)
    returns (r: Outcome, s: nat, nextEmit: nat, repeat: nat, d: nat)
    requires HashInto(hashL, lTable.Length) && HashInto(hashS, sTable.Length) && lTable != sTable
    requires d0 <= dst.Length && Searching(src, dst[..d0], s0, nextEmit0, repeat0) && Slack(|src|, d0, nextEmit0)
    modifies dst, lTable, sTable
    ensures r.Overflow? ==> dst.Length < |src| + 6 && !Roomy(|src|, dst.Length)
    ensures r.Remainder? ==> d <= dst.Length && nextEmit <= |src| && Encoded(dst[..d], src, nextEmit, repeat)
    ensures r.Proceed? ==> d <= dst.Length && Searching(src, dst[..d], s, nextEmit, repeat) && Slack(|src|, d, nextEmit)
    ensures r.Proceed? ==> nextEmit > nextEmit0 || (nextEmit == nextEmit0 && s > s0)
    ensures Filling(src, dst.Length, k, s0, nextEmit0, repeat0, d0) ==>
              if k + 1 == CYCLES then r.Overflow?
              else r.Proceed? && Filling(src, dst.Length, k + 1, s, nextEmit, repeat, d)
    ensures Uniform(src) && |src| >= 16 && s0 == 1 && nextEmit0 == d0 == 0 && dst.Length >= 10 ==>
              r.Remainder? && nextEmit == |src| && 2 <= d <= 10
  {
    hide Uniform; hide CopySize;
    hide Encoded; hide Genuine; hide NotLate; hide Slack; hide Roomy; hide LitSize; hide HeaderSize; hide Filling;
    var found, best;
    nextEmit, repeat, d := nextEmit0, repeat0, d0;
    var dstLimit := |src| - 5;
    found, s, best := Search(src, lTable, sTable, hashL, hashS, s0, nextEmit, repeat, k);
    FillStep(src, dst.Length, k, s0, nextEmit, repeat, d);
    if !found { return Remainder, s, nextEmit, repeat, d; }
    GenuineParts(best, src, nextEmit, repeat);
    if Uniform(src) && |src| >= 16 && s0 == 1 && nextEmit == 0 { UniformCost(best, src, repeat); }
    var startIdx := s + 1;
    s := best.s;
    if d + (s - nextEmit) > dstLimit { return Bail, s, nextEmit, repeat, d; }
    var base, offset: nat := s, s - best.offset;
    s := s + best.length;
    if !best.rep && best.length <= 4 {
      if offset > 65535 || (offset > MAX_COPY1_OFFSET && offset <= MAX_COPY2_OFFSET && base - nextEmit > 4) {
        s := startIdx + 1;
        r := if s >= SLimit(src) then Remainder else Proceed;
        return;
      }
    }
    var ok;
    ok, s, d := EmitBest(dst, src, nextEmit, best, d, repeat);
    if !ok { return Overflow, s, nextEmit, repeat, d; }
    repeat := offset;
    nextEmit := s;
    if s >= SLimit(src) { return Remainder, s, nextEmit, repeat, d; }
    if d > dstLimit { return Bail, s, nextEmit, repeat, d; }
    FillTables(src, lTable, sTable, hashL, hashS, startIdx, s);
    r := Proceed;
  }

  lemma GenuineParts(m: Match, src: seq<Byte>, nextEmit: nat, repeat: nat)
    requires Genuine(m, src, nextEmit, repeat) && m.length > 0
    ensures nextEmit <= m.s && 1 <= m.s - m.offset <= m.s && m.s + m.length <= |src| &&
            (m.rep ==> m.s - m.offset == repeat)
  {
  }

  /** `k` cycles of `SpaceExample` are emitted, into a buffer two bytes shorter. */
  ghost predicate Filling(src: seq<Byte>, room: nat, k: nat, s: nat, nextEmit: nat, repeat: nat, d: int) {
    AtCycle(src, k, s, nextEmit, repeat) && d == 290 * k && room == |src| - 2
  }

  lemma FillStep(src: seq<Byte>, room: nat, k: nat, s: nat, nextEmit: nat, repeat: nat, d: int)
    ensures Filling(src, room, k, s, nextEmit, repeat, d) ==>
              && AtCycle(src, k, s, nextEmit, repeat) && repeat == 1 && LitSize(286) == 289 && HeaderSize(3) == 1
              && d + 286 <= |src| - 5 && nextEmit + 289 == CYCLE * (k + 1)
              && (d + 290 <= room <==> k + 1 < CYCLES)
              && (k + 1 < CYCLES ==> nextEmit + 289 < |src| - 10 && d + 290 <= |src| - 5
                                     && Filling(src, room, k + 1, nextEmit + 289, nextEmit + 289, 1, d + 290))
  {
    assert |SpaceExample()| == 290 * CYCLES + 1;
    hide SpaceExample;
  }

  datatype Result = Done(d: nat) | OutOfSpace

  /**
   `encodeBlockBest`: it terminates, and a positive result decodes to `src`, whatever the hashes. Only
   a buffer of fewer than `len(src)+6` bytes can be written past its end. With the buffer of `Encode` that
   does not happen to inputs of up to 1194 bytes, with that of the writer not up to 1033 bytes. It does
   happen to `SpaceExample`, whatever the hashes.
   */
  method EncodeBlockBest(dst: array<Byte>, src: seq<Byte>, hashL: Word -> nat, hashS: Word -> nat) returns (r: Result)
    requires |src| <= MAX_BLOCK_SIZE && HashInto(hashL, 0x10_0000) && HashInto(hashS, 0x4_0000)
    modifies dst
    ensures r.Done? && r.d > 0 ==> r.d <= dst.Length && DecodeBody(dst[..r.d], |src|) == Some(src)
    ensures r.OutOfSpace? ==> dst.Length < |src| + 6 && !Roomy(|src|, dst.Length)
    ensures src == SpaceExample() && dst.Length == |src| - 2 ==> r.OutOfSpace?
    ensures Uniform(src) && |src| >= 16 && dst.Length >= 10 ==> r.Done? && 2 <= r.d <= 10
  {
    hide Uniform;
    hide Encoded; hide Searching; hide LiteralBytes; hide Filling; hide Roomy; hide Slack; hide SpaceExample;
    if |src| < 16 { return Done(0); }
    var lTable := new Slot[0x10_0000](_ => Slot(0, 0));
    var sTable := new Slot[0x4_0000](_ => Slot(0, 0));
    var nextEmit: nat, s: nat, repeat: nat, d: nat := 0, 1, 1, 0;
    ghost var k: nat := 0;
    ghost var filling := src == SpaceExample() && dst.Length == |src| - 2;
    StartEncoded(src);
    if filling { StartFilling(src, dst.Length); }
    assert dst[..0] == [];
    while true
      invariant d <= dst.Length && Searching(src, dst[..d], s, nextEmit, repeat) && Slack(|src|, d, nextEmit)
      invariant s <= |src| && nextEmit <= |src|
      invariant filling ==> Filling(src, dst.Length, k, s, nextEmit, repeat, d)
      invariant Uniform(src) && dst.Length >= 10 ==> s == 1 && nextEmit == d == 0
      decreases |src| - nextEmit, |src| - s
    {
      var o;
      o, s, nextEmit, repeat, d := Round(dst, src, lTable, sTable, hashL, hashS, s, nextEmit, repeat, d, k);
      if o.Bail? { return Done(0); }
      if o.Overflow? { return OutOfSpace; }
      if o.Remainder? { break; }
      k := k + 1;
      SearchingBound(src, dst[..d], s, nextEmit, repeat);
    }
    if nextEmit < |src| {
      var litLen := |src| - nextEmit;
      if d + litLen + EmitLiteralSizeN(litLen) > |src| - 5 { return Done(0); }
      assert src[nextEmit..|src|] == src[nextEmit..];
      Sizes(src[nextEmit..], 1, 4);
      var ok;
      ok, d := Literal(dst, src, nextEmit, |src|, d, repeat);
      if !ok {
        NotRoomy(|src|, dst.Length);
        return OutOfSpace;
      }
    }
    EncodedDecodes(dst[..d], src, repeat);
    return Done(d);
  }

  lemma NotRoomy(n: nat, room: int)
    requires room < n - 5
    ensures !Roomy(n, room)
  {
  }

  lemma StartFilling(src: seq<Byte>, room: nat)
    requires src == SpaceExample() && room == |src| - 2
    ensures Filling(src, room, 0, 1, 0, 1, 0)
  {
    hide SpaceExample;
  }

  lemma StartEncoded(src: seq<Byte>)
    requires 16 <= |src| <= MAX_BLOCK_SIZE
    ensures Searching(src, [], 1, 0, 1) && Slack(|src|, 0, 0)
  {
  }

  lemma SearchingBound(src: seq<Byte>, out: seq<Byte>, s: int, nextEmit: int, repeat: int)
    requires Searching(src, out, s, nextEmit, repeat)
    ensures s <= |src| && nextEmit <= s
  {
  }
}
