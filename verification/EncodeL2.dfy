/**
 encode_l2.go: `encodeBlockBetterGo` and `encodeBlockBetterGo64K`.

 As for level 1 the two Go functions are one method, and `small` selects what only the larger one
 does: the distance checks and the abandoning of a match that is no better than its encoding.
 */
module EncodeL2 {
  import opened Bytes
  import opened Format
  import opened Encoding
  import opened Emission
  import opened Emitters
  import opened OutputBound
  import opened Matching

  datatype Outcome = Bail | Remainder | Proceed

  const INPUT_MARGIN := 8

  ghost predicate Searching(src: seq<Byte>, out: seq<Byte>, s: int, nextEmit: int, repeat: int) {
    && nextEmit <= s && 1 <= repeat <= s && s + INPUT_MARGIN <= |src| <= MAX_BLOCK_SIZE
    && Encoded(out, src, nextEmit, repeat)
  }

  /** The repeat branch of the search. */
  method TakeRepeat(dst: array<Byte>, src: seq<Byte>, s0: nat, nextEmit: nat, repeat: nat, d0: nat)
    returns (bail: bool, base: nat, s: nat, d: nat)
    requires d0 <= Room(|src|) <= dst.Length && Searching(src, dst[..d0], s0, nextEmit, repeat)
    requires src[s0 + 1..s0 + 5] == src[s0 + 1 - repeat..s0 + 5 - repeat]
    modifies dst
    ensures !bail ==> base <= s0 + 1 && s0 + 5 <= s <= |src| && d <= Room(|src|) && Encoded(dst[..d], src, s, repeat)
  {
    hide Encoded; hide LiteralBytes; hide RepeatBytes; hide IsMatch; hide DstLimit; hide Room;
    s, d := s0, d0;
    WordsMatch(src, s + 1, s + 1 - repeat, 4);
    base := ExtendBack(src, s + 1, s + 1 - repeat, nextEmit);
    if d + (base - nextEmit) > DstLimit(|src|) { return true, base, s, d; }
    s := ExtendToEnd(src, s + 5, s + 5 - repeat);
    MatchJoin(src, base, repeat, s0 + 1 - base, s0 + 1, 4);
    MatchJoin(src, base, repeat, s0 + 5 - base, s0 + 5, s - (s0 + 5));
    Sizes(src[nextEmit..base], 1, s - base);
    CheckedRepeatFits(|src|, d, base - nextEmit, s - base);
    ghost var b0 := dst[..d];
    var n := EmitLiteral(dst, d, src[nextEmit..base]);
    d := d + n;
    ghost var b1 := dst[..d];
    n := EmitRepeat(dst, d, s - base);
    d := d + n;
    bail := false;
    AfterLiteral(b0, src, nextEmit, base, repeat);
    AfterRepeat(b1, src, base, repeat, s - base);
  }

  /** "Index in-between" after a repeat: from both ends of the match towards its middle. */
  method IndexBetween(src: seq<Byte>, lTable: array<nat>, sTable: array<nat>, hashL: Word -> nat, hashS: Word -> nat,
                      base: nat, s: nat)
    requires HashInto(hashL, lTable.Length) && HashInto(hashS, sTable.Length)
    requires base < s && s + 8 <= |src| && Below(lTable, s) && Below(sTable, s)
    modifies lTable, sTable
    ensures Below(lTable, s) && Below(sTable, s)
  {
    var index0, index1 := base + 1, s - 2;
    while index0 < index1
      invariant 0 <= index0 && index1 <= s - 2
      invariant Below(lTable, s) && Below(sTable, s)
    {
      var cv0: Word, cv1: Word := src[index0..index0 + 8], src[index1..index1 + 8];
      lTable[hashL(cv0)] := index0;
      sTable[hashS(cv0[1..])] := index0 + 1;
      lTable[hashL(cv1)] := index1;
      sTable[hashS(cv1[1..])] := index1 + 1;
      index0 := index0 + 2;
      index1 := index1 - 2;
    }
  }

  /** "Index short & long" after a match, then sparsely in between. */
  method IndexMatch(src: seq<Byte>, lTable: array<nat>, sTable: array<nat>, hashL: Word -> nat, hashS: Word -> nat,
                    base: nat, s: nat)
    requires HashInto(hashL, lTable.Length) && HashInto(hashS, sTable.Length)
    requires base + 4 <= s && s + 8 <= |src| && Below(lTable, s) && Below(sTable, s)
    modifies lTable, sTable
    ensures Below(lTable, s) && Below(sTable, s)
  {
    var index0, index1 := base + 1, s - 2;
    var cv0: Word, cv1: Word := src[index0..index0 + 8], src[index1..index1 + 8];
    lTable[hashL(cv0)] := index0;
    sTable[hashS(cv0[1..])] := index0 + 1;
    lTable[hashL(cv1)] := index1;
    sTable[hashS(cv1[1..])] := index1 + 1;
    index0 := index0 + 1;
    index1 := index1 - 1;
    var index2 := (index0 + index1 + 1) / 2;
    while index2 < index1
      invariant 0 <= index0 <= index2 && index1 <= s - 3
      invariant Below(lTable, s) && Below(sTable, s)
    {
      lTable[hashL(src[index0..index0 + 8])] := index0;
      lTable[hashL(src[index2..index2 + 8])] := index2;
      index0 := index0 + 2;
      index2 := index2 + 2;
    }
  }

  /** Read a table slot, and set it to `s`. */
  method Replace(table: array<nat>, h: nat, s: nat) returns (candidate: nat)
    requires h < table.Length && Below(table, s)
    modifies table
    ensures candidate < s && Below(table, s + 1) && candidate == old(table[h])
  {
    candidate := table[h];
    table[h] := s;
  }

  lemma Raise(table: array<nat>, s: nat, t: nat)
    requires Below(table, s) && s <= t
    ensures Below(table, t)
  {
  }

  /** The candidate tests that follow the repeat test. */
  method Probe(src: seq<Byte>, lTable: array<nat>, hashL: Word -> nat, small: bool, s0: nat, candidateL0: nat,
               candidateS: nat)
    returns (hit: bool, s: nat, candidateL: nat)
    requires HashInto(hashL, lTable.Length) && s0 + 9 <= |src|
    requires candidateL0 < s0 && candidateS < s0 && Below(lTable, s0 + 1)
    modifies lTable
    ensures Below(lTable, if hit then s0 + 2 else s0 + 1)
    ensures hit ==>
              && s0 <= s <= s0 + 1 && candidateL < s
              && src[s..s + 4] == src[candidateL..candidateL + 4]
              && (small || s - candidateL <= MAX_COPY3_OFFSET)
  {
    var cv: Word := src[s0..s0 + 8];
    var minSrcPos := s0 - MAX_COPY3_OFFSET + 1;
    hit, s, candidateL := true, s0, candidateL0;
    Shifted(src, s, 0);
    if (small || candidateL >= minSrcPos) && cv[..4] == src[candidateL..candidateL + 4] { return; }
    if (small || candidateS >= minSrcPos) && cv[..4] == src[candidateS..candidateS + 4] {
      Slot(hashL, lTable.Length, cv[1..]);
      candidateL := Replace(lTable, hashL(cv[1..]), s + 1);
      Shifted(src, s, 1);
      if (small || candidateL > minSrcPos) && cv[1..5] == src[candidateL..candidateL + 4] {
        s := s + 1;
        return;
      }
      candidateL := candidateS;
      return;
    }
    hit := false;
  }

  /** A long match, found by eight bytes. */
  method LongMatch(src: seq<Byte>, small: bool, s: nat, candidateL: nat) returns (hit: bool)
    requires s + 8 <= |src| && candidateL < s
    ensures hit <==> (small || s - candidateL < MAX_COPY3_OFFSET - 1) &&
                     src[s..s + 8] == src[candidateL..candidateL + 8]
    ensures hit ==> src[s..s + 4] == src[candidateL..candidateL + 4] && (small || s - candidateL <= MAX_COPY3_OFFSET)
  {
    var minSrcPos := s - MAX_COPY3_OFFSET + 1;
    var cv: Word := src[s..s + 8];
    hit := (small || candidateL > minSrcPos) && cv == src[candidateL..candidateL + 8];
    if hit {
      assert src[s..s + 4] == src[s..s + 8][..4] &&
             src[candidateL..candidateL + 4] == src[candidateL..candidateL + 8][..4];
    }
  }

  /** The repeat test, one byte ahead. */
  method RepeatHere(src: seq<Byte>, s: nat, repeat: nat) returns (hit: bool)
    requires s + 8 <= |src| && 1 <= repeat <= s
    ensures hit ==> src[s + 1..s + 5] == src[s + 1 - repeat..s + 5 - repeat]
  {
    var cv: Word := src[s..s + 8];
    Shifted(src, s, 1);
    Shifted(src, s - repeat, 1);
    hit := repeat > 0 && cv[1..5] == src[s - repeat..s - repeat + 8][1..5];
  }

  /** What is found: a match of four bytes near enough, and tables that are not ahead of it. */
  ghost predicate Found(src: seq<Byte>, small: bool, s: nat, candidateL: nat, nextS: nat, nextEmit: nat, repeat: nat) {
    && s + 8 <= |src| && candidateL < s && nextEmit <= s <= nextS && repeat <= nextS
    && src[s..s + 4] == src[candidateL..candidateL + 4]
    && (small || s - candidateL <= MAX_COPY3_OFFSET)
  }

  /** The search is at the start of an input of equal bytes. */
  ghost predicate Starting(src: seq<Byte>, lTable: array<nat>, s: nat, nextEmit: nat)
    reads lTable
  {
    Uniform(src) && |src| >= 16 && s == 1 && nextEmit == 0 && Zeros(lTable)
  }

  lemma StartingMatch(src: seq<Byte>, lTable: array<nat>, h: nat, s: nat, nextEmit: nat)
    requires Starting(src, lTable, s, nextEmit) && h < lTable.Length
    ensures s == 1 && nextEmit == 0 && |src| >= 16 && lTable[h] == 0 && src[1..9] == src[0..8]
  {
    UniformWords(src, 1, 0, 8);
    ZeroSlot(lTable, h);
  }

  lemma StartingOver(src: seq<Byte>, lTable: array<nat>, s: nat, nextEmit: nat)
    requires Starting(src, lTable, s, nextEmit)
    ensures s == 1 && nextEmit == 0 && |src| >= 16 && Uniform(src)
  {
  }

  /** One position of the search loop. */
  method SearchStep(dst: array<Byte>, src: seq<Byte>, lTable: array<nat>, sTable: array<nat>,
                    hashL: Word -> nat, hashS: Word -> nat, small: bool, s0: nat, nextEmit0: nat, repeat: nat, d0: nat)
    returns (again: bool, r: Outcome, s: nat, candidateL: nat, nextS: nat, nextEmit: nat, d: nat)
    requires HashInto(hashL, lTable.Length) && HashInto(hashS, sTable.Length) && lTable != sTable
    requires d0 <= Room(|src|) <= dst.Length && small == (|src| <= 65536)
    requires Searching(src, dst[..d0], s0, nextEmit0, repeat) && Below(lTable, s0) && Below(sTable, s0)
    modifies dst, lTable, sTable
    ensures again ==> r.Proceed? && s0 < s && d <= Room(|src|) && Searching(src, dst[..d], s, nextEmit, repeat) &&
                      Below(lTable, s) && Below(sTable, s)
    ensures !r.Bail? ==> nextEmit0 <= nextEmit <= |src| && d <= Room(|src|) && Encoded(dst[..d], src, nextEmit, repeat)
    ensures !r.Bail? && nextEmit == nextEmit0 ==> d == d0 && dst[..] == old(dst[..])
    ensures old(Starting(src, lTable, s0, nextEmit0)) ==>
              !again && r.Proceed? && s == 1 && candidateL == 0 && nextEmit == 0 && d == d0
    ensures r.Proceed? && !again ==>
              && s0 <= s && Found(src, small, s, candidateL, nextS, nextEmit, repeat)
              && Below(lTable, nextS + 1) && Below(sTable, nextS + 1)
              && Below(lTable, s + 2) && Below(sTable, s + 2)
  {
    hide Encoded; hide Room; hide DstLimit; hide IsMatch; hide HashInto; hide Below; hide Starting;
    var sLimit := |src| - INPUT_MARGIN;
    s, nextEmit, d, candidateL, again, r := s0, nextEmit0, d0, 0, false, Proceed;
    var cv: Word := src[s..s + 8];
    nextS := s + (s - nextEmit) / 128 + 1;
    if Starting(src, lTable, s0, nextEmit0) { StartingOver(src, lTable, s0, nextEmit0); }
    if nextS > sLimit { return false, Remainder, s, candidateL, nextS, nextEmit, d; }
    Slot(hashL, lTable.Length, cv);
    Slot(hashS, sTable.Length, cv);
    if Starting(src, lTable, s0, nextEmit0) { StartingMatch(src, lTable, hashL(cv), s0, nextEmit0); }
    var candidateS;
    candidateL := Replace(lTable, hashL(cv), s);
    candidateS := Replace(sTable, hashS(cv), s);
    var hit := LongMatch(src, small, s, candidateL);
    if hit {
      RaiseBoth(lTable, sTable, s + 1, s + 1, s, nextS);
      return;
    }
    hit := RepeatHere(src, s, repeat);
    if hit {
      var bail, base, s';
      bail, base, s', d := TakeRepeat(dst, src, s, nextEmit, repeat, d);
      if bail { return false, Bail, s, candidateL, nextS, nextEmit, d; }
      Raise(lTable, s + 1, s');
      Raise(sTable, s + 1, s');
      s, nextEmit := s', s';
      if s >= sLimit { return false, Remainder, s, candidateL, nextS, nextEmit, d; }
      IndexBetween(src, lTable, sTable, hashL, hashS, base, s);
      again := true;
      return;
    }
    var s';
    hit, s', candidateL := Probe(src, lTable, hashL, small, s, candidateL, candidateS);
    if hit {
      RaiseBoth(lTable, sTable, s + 2, s + 1, s', nextS);
      s := s';
      return;
    }
    Raise(lTable, s + 1, nextS);
    Raise(sTable, s + 1, nextS);
    s, again := nextS, true;
  }

  lemma RaiseBoth(lTable: array<nat>, sTable: array<nat>, l: nat, s: nat, at: nat, nextS: nat)
    requires Below(lTable, l) && Below(sTable, s) && s <= l <= nextS + 1 && l <= at + 2
    ensures Below(lTable, nextS + 1) && Below(sTable, nextS + 1) && Below(lTable, at + 2) && Below(sTable, at + 2)
  {
  }

  /** The inner search loop. */
  method Search(dst: array<Byte>, src: seq<Byte>, lTable: array<nat>, sTable: array<nat>,
                hashL: Word -> nat, hashS: Word -> nat, small: bool, s0: nat, nextEmit0: nat, repeat: nat, d0: nat)
    returns (r: Outcome, s: nat, candidateL: nat, nextS: nat, nextEmit: nat, d: nat)
    requires HashInto(hashL, lTable.Length) && HashInto(hashS, sTable.Length) && lTable != sTable
    requires d0 <= Room(|src|) <= dst.Length && small == (|src| <= 65536)
    requires Searching(src, dst[..d0], s0, nextEmit0, repeat) && Below(lTable, s0) && Below(sTable, s0)
    modifies dst, lTable, sTable
    ensures !r.Bail? ==> nextEmit0 <= nextEmit <= |src| && d <= Room(|src|) && Encoded(dst[..d], src, nextEmit, repeat)
    ensures !r.Bail? && nextEmit == nextEmit0 ==> d == d0 && dst[..] == old(dst[..])
    ensures old(Starting(src, lTable, s0, nextEmit0)) ==>
              r.Proceed? && s == 1 && candidateL == 0 && nextEmit == 0 && d == d0
    ensures r.Proceed? ==>
              && s0 <= s && Found(src, small, s, candidateL, nextS, nextEmit, repeat)
              && Below(lTable, nextS + 1) && Below(sTable, nextS + 1)
              && Below(lTable, s + 2) && Below(sTable, s + 2)
  {
    hide Encoded; hide Room; hide HashInto; hide Below; hide Searching; hide Found; hide Starting;
    s, nextEmit, d := s0, nextEmit0, d0;
    var again := true;
    ghost var starting := Starting(src, lTable, s0, nextEmit0);
    SearchingBound(src, dst[..d], s, nextEmit, repeat);
    while true
      invariant s0 <= s <= |src| && d <= Room(|src|) && nextEmit0 <= nextEmit
      invariant nextEmit == nextEmit0 ==> d == d0 && dst[..] == old(dst[..])
      invariant Searching(src, dst[..d], s, nextEmit, repeat)
      invariant Below(lTable, s) && Below(sTable, s)
      invariant starting ==> s == s0 && nextEmit == nextEmit0 && d == d0 && Starting(src, lTable, s, nextEmit)
      decreases |src| - s
    {
      again, r, s, candidateL, nextS, nextEmit, d :=
        SearchStep(dst, src, lTable, sTable, hashL, hashS, small, s, nextEmit, repeat, d);
      if !again { return; }
      SearchingBound(src, dst[..d], s, nextEmit, repeat);
    }
  }

  /** The decision tree that writes pending literals and the match. */
  method EmitMatch(dst: array<Byte>, src: seq<Byte>, nextEmit: nat, base: nat, s: nat, offset: nat, d0: nat,
                   ghost repeat: nat)
    returns (d: nat)
    requires d0 <= Room(|src|) <= dst.Length && |src| <= MAX_BLOCK_SIZE
    requires Encoded(dst[..d0], src, nextEmit, repeat)
    requires nextEmit <= base && base + 4 <= s && IsMatch(src, base, offset, s - base) && offset <= MAX_COPY3_OFFSET
    requires d0 + (base - nextEmit) <= DstLimit(|src|)
    modifies dst
    ensures d <= Room(|src|) && Encoded(dst[..d], src, s, offset)
    ensures offset < 64 ==> d == d0 + LitSize(base - nextEmit) + CopySize(offset, s - base)
  {
    hide Encoded; hide Lits2Bytes; hide Lits3Bytes; hide LiteralBytes; hide CopyBytes;
    d := d0;
    ghost var b0 := dst[..d];
    var lits := src[nextEmit..base];
    Sizes(lits, offset, s - base);
    CheckedCopyFits(|src|, d, |lits|, offset, s - base);
    if |lits| > 0 {
      if offset <= MAX_COPY2_OFFSET {
        if |lits| > 4 || offset < 64 {
          d := EmitSeparately(dst, src, nextEmit, base, s, offset, d, repeat);
        } else {
          var k := EmitCopyLits2(dst, d, lits, offset, s - base);
          d := d + k;
          AfterFused2(b0, src, nextEmit, base, repeat, offset, s - base);
        }
      } else {
        if |lits| > 3 {
          d := EmitSeparately(dst, src, nextEmit, base, s, offset, d, repeat);
        } else {
          var k := EmitCopyLits3(dst, d, lits, offset, s - base);
          d := d + k;
          AfterFused3(b0, src, nextEmit, base, repeat, offset, s - base);
        }
      }
    } else {
      var k := EmitCopy(dst, d, offset, s - base);
      d := d + k;
      AfterCopy(b0, src, base, repeat, offset, s - base);
    }
  }

  method EmitSeparately(dst: array<Byte>, src: seq<Byte>, nextEmit: nat, base: nat, s: nat, offset: nat, d0: nat,
                        ghost repeat: nat)
    returns (d: nat)
    requires d0 <= Room(|src|) <= dst.Length && |src| <= MAX_BLOCK_SIZE
    requires Encoded(dst[..d0], src, nextEmit, repeat)
    requires nextEmit <= base && base + 4 <= s && IsMatch(src, base, offset, s - base) && offset <= MAX_COPY3_OFFSET
    requires d0 + (base - nextEmit) <= DstLimit(|src|)
    modifies dst
    ensures d <= Room(|src|) && Encoded(dst[..d], src, s, offset)
    ensures d == d0 + LitSize(base - nextEmit) + CopySize(offset, s - base)
  {
    hide Encoded; hide LiteralBytes; hide CopyBytes;
    var lits := src[nextEmit..base];
    Sizes(lits, offset, s - base);
    CheckedCopyFits(|src|, d0, |lits|, offset, s - base);
    ghost var b0 := dst[..d0];
    var k := EmitLiteral(dst, d0, lits);
    d := d0 + k;
    ghost var b1 := dst[..d];
    k := EmitCopy(dst, d, offset, s - base);
    d := d + k;
    AfterLiteral(b0, src, nextEmit, base, repeat);
    AfterCopy(b1, src, base, repeat, offset, s - base);
  }

  /**
   One round of the outer loop: search, extend, abandon or emit, index. A match that is abandoned leaves
   what was emitted, and the repeat offset, as they were.
   */
  method Round(dst: array<Byte>, src: seq<Byte>, lTable: array<nat>, sTable: array<nat>,
               hashL: Word -> nat, hashS: Word -> nat, small: bool, s0: nat, nextEmit0: nat, repeat0: nat, d0: nat)
    returns (r: Outcome, s: nat, nextEmit: nat, repeat: nat, d: nat)
    requires HashInto(hashL, lTable.Length) && HashInto(hashS, sTable.Length) && lTable != sTable
    requires d0 <= Room(|src|) <= dst.Length && small == (|src| <= 65536)
    requires Searching(src, dst[..d0], s0, nextEmit0, repeat0) && Below(lTable, s0) && Below(sTable, s0)
    modifies dst, lTable, sTable
    ensures !r.Bail? ==> nextEmit <= |src| && d <= Room(|src|) && Encoded(dst[..d], src, nextEmit, repeat)
    ensures r.Proceed? ==> s0 < s && Searching(src, dst[..d], s, nextEmit, repeat) && Below(lTable, s) &&
                           Below(sTable, s)
    ensures r.Proceed? ==> nextEmit0 <= nextEmit && (nextEmit < s ==> repeat == repeat0)
    ensures r.Proceed? && nextEmit == nextEmit0 ==> nextEmit < s && d == d0 && dst[..] == old(dst[..])
    ensures d0 == 0 && old(Starting(src, lTable, s0, nextEmit0)) ==> r.Remainder? && nextEmit == |src| && 4 <= d <= 8
  {
    hide Encoded; hide Starting; hide Uniform;
    ghost var starting := d0 == 0 && Starting(src, lTable, s0, nextEmit0);
    if starting { StartingOver(src, lTable, s0, nextEmit0); }
    var sLimit := |src| - INPUT_MARGIN;
    var candidateL, nextS;
    repeat := repeat0;
    r, s, candidateL, nextS, nextEmit, d :=
      Search(dst, src, lTable, sTable, hashL, hashS, small, s0, nextEmit0, repeat, d0);
    if !r.Proceed? { return; }
    var found, offset := s, s - candidateL;
    WordsMatch(src, s, candidateL, 4);
    var base := ExtendBack(src, s, candidateL, nextEmit);
    if d + (base - nextEmit) > DstLimit(|src|) { return Bail, s, nextEmit, repeat, d; }
    s := ExtendToEnd(src, base + 4, base + 4 - offset);
    if starting { UniformEnd(src, s, offset); }
    WholeMatch(src, base, found, offset, 4, s);
    if !small && offset > 65535 && s - base <= 4 && repeat != offset {
      s := nextS + 1;
      r := if s >= sLimit then Remainder else Proceed;
      return;
    }
    d := EmitMatch(dst, src, nextEmit, base, s, offset, d, repeat);
    repeat := offset;
    nextEmit := s;
    if s >= sLimit { return Remainder, s, nextEmit, repeat, d; }
    if d > DstLimit(|src|) { return Bail, s, nextEmit, repeat, d; }
    IndexMatch(src, lTable, sTable, hashL, hashS, base, s);
  }

  /**
   `encodeBlockBetterGo` for `len(src) > 64<<10`, `encodeBlockBetterGo64K` otherwise. Whatever the
   hashes: no write leaves `dst`, and a positive result decodes to `src`.
   */
  method EncodeBlockBetter(dst: array<Byte>, src: seq<Byte>, hashL: Word -> nat, hashS: Word -> nat) returns (d: nat)
    requires |src| <= MAX_BLOCK_SIZE && dst.Length >= Room(|src|)
    requires HashInto(hashL, if |src| <= 65536 then 32768 else 131072)
    requires HashInto(hashS, if |src| <= 65536 then 4096 else 16384)
    modifies dst
    ensures d > 0 ==> d <= Room(|src|) && DecodeBody(dst[..d], |src|) == Some(src)
    ensures Uniform(src) && |src| >= 16 ==> 4 <= d <= 8
  {
    hide Encoded; hide Searching; hide LiteralBytes; hide Uniform;
    if |src| < 16 { return 0; }
    var small := |src| <= 65536;
    var lTable := new nat[if small then 32768 else 131072](_ => 0);
    var sTable := new nat[if small then 4096 else 16384](_ => 0);
    var nextEmit: nat, s: nat, repeat: nat := 0, 1, 1;
    d := 0;
    StartEncoded(src);
    assert dst[..0] == [];
    while true
      invariant d <= Room(|src|) && Searching(src, dst[..d], s, nextEmit, repeat)
      invariant s <= |src| && Below(lTable, s) && Below(sTable, s)
      invariant Uniform(src) ==> d == 0 && Starting(src, lTable, s, nextEmit)
      decreases |src| - s
    {
      var r;
      r, s, nextEmit, repeat, d := Round(dst, src, lTable, sTable, hashL, hashS, small, s, nextEmit, repeat, d);
      if r.Bail? { return 0; }
      if r.Remainder? { break; }
      SearchingBound(src, dst[..d], s, nextEmit, repeat);
    }
    if nextEmit < |src| {
      if d + |src| - nextEmit > DstLimit(|src|) { return 0; }
      RemainderFits(|src|, d, |src| - nextEmit);
      Sizes(src[nextEmit..], 1, 4);
      AfterLiteral(dst[..d], src, nextEmit, |src|, repeat);
      assert src[nextEmit..|src|] == src[nextEmit..];
      var k := EmitLiteral(dst, d, src[nextEmit..]);
      d := d + k;
    }
    EncodedDecodes(dst[..d], src, repeat);
  }

  lemma StartEncoded(src: seq<Byte>)
    requires 16 <= |src| <= MAX_BLOCK_SIZE
    ensures Searching(src, [], 1, 0, 1)
  {
  }

  lemma SearchingBound(src: seq<Byte>, out: seq<Byte>, s: int, nextEmit: int, repeat: int)
    requires Searching(src, out, s, nextEmit, repeat)
    ensures s <= |src|
  {
  }
}
