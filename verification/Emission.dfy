/**
 What every encoder keeps while it writes: the bytes written so far decode to the part of the input
 that has been emitted, and leave the decoder with the encoder's repeat offset.
 */
module Emission {
  import opened Bytes
  import opened Format
  import opened Encoding

  ghost predicate Encoded(b: seq<Byte>, src: seq<Byte>, pos: int, repeat: int) {
    && 0 <= pos <= |src| <= MAX_BLOCK_SIZE
    && repeat >= 1
    && Run(b, 0, INITIAL, |src|) == Some(State(src[..pos], repeat))
  }

  /** One operation, alone in a body. */
  lemma RunOne(c: seq<Byte>, st: State, n: nat)
    requires |c| > 0
    requires Step(c, 0, st, n).Next? && Step(c, 0, st, n).pos == |c|
    ensures Run(c, 0, st, n) == Some(Step(c, 0, st, n).st)
  {
    hide Step;
    assert Run(c, |c|, Step(c, 0, st, n).st, n) == Some(Step(c, 0, st, n).st);
  }

  /** A match of the input is what the decoder's copy produces. */
  lemma MatchIsCopy(src: seq<Byte>, pos: nat, offset: nat, length: nat)
    requires IsMatch(src, pos, offset, length)
    ensures CopyBack(src[..pos], offset, length) == src[..pos + length]
  {
    assert src[..pos + length][..pos] == src[..pos];
    CopyBackUnique(src[..pos], offset, length, src[..pos + length]);
  }

  lemma RunLiteral(lits: seq<Byte>, st: State, n: nat)
    requires 1 <= |lits| <= MAX_BLOCK_SIZE && |st.out| + |lits| <= n
    ensures Run(LiteralBytes(lits), 0, st, n) == Some(State(st.out + lits, st.offset))
  {
    hide ParseOp;
    var h := LengthHeader(0, |lits|);
    LengthHeaderTag(0, |lits|, lits);
    var c := LiteralBytes(lits);
    assert c[|h|..|h| + |lits|] == lits;
    RunOne(c, st, n);
  }

  lemma RunRepeat(length: nat, st: State, n: nat)
    requires 1 <= length <= MAX_BLOCK_SIZE && 1 <= st.offset <= |st.out| && |st.out| + length <= n
    ensures Run(RepeatBytes(length), 0, st, n) == Some(State(CopyBack(st.out, st.offset, length), st.offset))
  {
    hide ParseOp;
    hide LengthHeader;
    var c := RepeatBytes(length);
    LengthHeaderTag(4, length, []);
    assert c + [] == c;
    RunOne(c, st, n);
  }

  /** A body that is one copy operation followed by its fused literals. */
  lemma RunCopyOp(h: seq<Byte>, lits: seq<Byte>, offset: nat, length: nat, st: State, n: nat)
    requires |h| > 0 && ParseOp(h + lits, 0) == Parsed(Copy(|lits|, offset, length), |h|)
    requires 1 <= offset <= |st.out| + |lits| && |st.out| + |lits| + length <= n
    ensures Run(h + lits, 0, st, n) == Some(State(CopyBack(st.out + lits, offset, length), offset))
  {
    hide ParseOp;
    var c := h + lits;
    assert c[|h|..|h| + |lits|] == lits;
    RunOne(c, st, n);
  }

  // ---------- the steps of an encoder ----------

  lemma AfterLiteral(b: seq<Byte>, src: seq<Byte>, e: nat, base: nat, repeat: nat)
    requires Encoded(b, src, e, repeat) && e <= base <= |src|
    ensures Encoded(b + LiteralBytes(src[e..base]), src, base, repeat)
  {
    var lits := src[e..base];
    if e == base {
      assert b + LiteralBytes(lits) == b;
    } else {
      RunLiteral(lits, State(src[..e], repeat), |src|);
      assert src[..e] + lits == src[..base];
      RunAppend(b, LiteralBytes(lits), INITIAL, State(src[..e], repeat), |src|);
    }
  }

  lemma AfterRepeat(b: seq<Byte>, src: seq<Byte>, pos: nat, repeat: nat, length: nat)
    requires Encoded(b, src, pos, repeat) && IsMatch(src, pos, repeat, length) && length >= 1
    ensures Encoded(b + RepeatBytes(length), src, pos + length, repeat)
  {
    hide RepeatBytes;
    RunRepeat(length, State(src[..pos], repeat), |src|);
    MatchIsCopy(src, pos, repeat, length);
    RunAppend(b, RepeatBytes(length), INITIAL, State(src[..pos], repeat), |src|);
  }

  /** A copy operation with header `h` and fused literals `src[e..base]`. */
  lemma AfterCopyOp(b: seq<Byte>, h: seq<Byte>, src: seq<Byte>, e: nat, base: nat, repeat: nat, offset: nat,
                    length: nat)
    requires Encoded(b, src, e, repeat) && e <= base && IsMatch(src, base, offset, length)
    requires |h| > 0 && ParseOp(h + src[e..base], 0) == Parsed(Copy(base - e, offset, length), |h|)
    ensures Encoded(b + (h + src[e..base]), src, base + length, offset)
  {
    hide ParseOp;
    RunCopyOp(h, src[e..base], offset, length, State(src[..e], repeat), |src|);
    assert src[..e] + src[e..base] == src[..base];
    MatchIsCopy(src, base, offset, length);
    RunAppend(b, h + src[e..base], INITIAL, State(src[..e], repeat), |src|);
  }

  lemma SplitMatch(src: seq<Byte>, base: nat, offset: nat, length: nat, k: nat)
    requires IsMatch(src, base, offset, length) && k <= length
    ensures IsMatch(src, base, offset, k) && IsMatch(src, base + k, offset, length - k)
  {
  }

  lemma AfterCopy1(b: seq<Byte>, src: seq<Byte>, pos: nat, repeat: nat, offset: nat, length: nat)
    requires Encoded(b, src, pos, repeat) && IsMatch(src, pos, offset, length)
    requires offset <= MAX_COPY1_OFFSET && length >= 4
    ensures Encoded(b + Copy1Bytes(offset, length), src, pos + length, offset)
  {
    hide ParseOp;
    var k := if length <= 273 then length else 18;
    SplitMatch(src, pos, offset, length, k);
    var h := Copy1Bytes(offset, k);
    ParseCopy1Bytes(offset, k, src[pos..pos]);
    AfterCopyOp(b, h, src, pos, pos, repeat, offset, k);
    assert h + src[pos..pos] == h;
    if length > 273 {
      AfterRepeat(b + h, src, pos + k, offset, length - k);
      assert b + Copy1Bytes(offset, length) == (b + h) + RepeatBytes(length - k);
    }
  }

  lemma AfterCopy2(b: seq<Byte>, src: seq<Byte>, pos: nat, repeat: nat, offset: nat, length: nat)
    requires Encoded(b, src, pos, repeat) && IsMatch(src, pos, offset, length)
    requires MIN_COPY2_OFFSET <= offset <= MAX_COPY2_OFFSET && length >= 4
    ensures Encoded(b + Copy2Bytes(offset, length), src, pos + length, offset)
  {
    hide ParseOp;
    hide Copy2Bytes;
    var h := Copy2Bytes(offset, length);
    ParseCopy2Bytes(offset, length, src[pos..pos]);
    AfterCopyOp(b, h, src, pos, pos, repeat, offset, length);
    assert h + src[pos..pos] == h;
  }

  lemma AfterFused3(b: seq<Byte>, src: seq<Byte>, e: nat, base: nat, repeat: nat, offset: nat, length: nat)
    requires Encoded(b, src, e, repeat) && e <= base <= e + 3 && IsMatch(src, base, offset, length)
    requires MIN_COPY3_OFFSET <= offset <= MAX_COPY3_OFFSET && length >= 4
    ensures Encoded(b + Lits3Bytes(src[e..base], offset, length), src, base + length, offset)
  {
    hide ParseOp;
    hide Copy3Bytes;
    var h := Copy3Bytes(offset, length, base - e);
    ParseCopy3Bytes(offset, length, base - e, src[e..base]);
    AfterCopyOp(b, h, src, e, base, repeat, offset, length);
  }

  lemma AfterFused2(b: seq<Byte>, src: seq<Byte>, e: nat, base: nat, repeat: nat, offset: nat, length: nat)
    requires Encoded(b, src, e, repeat) && e < base <= e + 4 && IsMatch(src, base, offset, length)
    requires MIN_COPY2_OFFSET <= offset <= MAX_COPY2_OFFSET && length >= 4
    ensures Encoded(b + Lits2Bytes(src[e..base], offset, length), src, base + length, offset)
  {
    hide ParseOp;
    var lits := src[e..base];
    var k := if length > 11 then 11 else length;
    SplitMatch(src, base, offset, length, k);
    var f := Fused2(lits, offset, k);
    var h := f[..3];
    assert f == h + lits;
    ParseFused2Bytes(lits, offset, k, []);
    assert f + [] == f;
    AfterCopyOp(b, h, src, e, base, repeat, offset, k);
    if length > 11 {
      AfterRepeat(b + f, src, base + k, offset, length - k);
      assert b + Lits2Bytes(lits, offset, length) == (b + f) + RepeatBytes(length - k);
    }
  }

  /** `emitCopy` for every offset that the format can hold. */
  lemma AfterCopy(b: seq<Byte>, src: seq<Byte>, pos: nat, repeat: nat, offset: nat, length: nat)
    requires Encoded(b, src, pos, repeat) && IsMatch(src, pos, offset, length)
    requires offset <= MAX_COPY3_OFFSET && length >= 4
    ensures Encoded(b + CopyBytes(offset, length), src, pos + length, offset)
  {
    hide Copy1Bytes; hide Copy2Bytes; hide Copy3Bytes;
    if offset > MAX_COPY2_OFFSET {
      AfterFused3(b, src, pos, pos, repeat, offset, length);
      assert Lits3Bytes(src[pos..pos], offset, length) == Copy3Bytes(offset, length, 0);
    } else if offset <= MAX_COPY1_OFFSET {
      AfterCopy1(b, src, pos, repeat, offset, length);
    } else {
      AfterCopy2(b, src, pos, repeat, offset, length);
    }
  }

  /** Once all of the input is emitted, the body decodes to it. */
  lemma EncodedDecodes(b: seq<Byte>, src: seq<Byte>, repeat: nat)
    requires Encoded(b, src, |src|, repeat)
    ensures DecodeBody(b, |src|) == Some(src)
  {
    assert src[..|src|] == src;
  }
}
