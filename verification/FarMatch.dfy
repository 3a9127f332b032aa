/**
 encode_l1.go: the probes at `s + 1` and `s + 2` compare with a `minSrcPos` that was computed for `s`, so
 they accept matches one or two bytes further back than a copy3 can say. What becomes of those.
 */
module FarMatch {
  import opened Bytes
  import opened Format
  import opened Encoding
  import opened Emission

  /** The offset that a decoder finds in a copy3 for `offset`: 2 MiB less, if it is too large. */
  function Wire(offset: nat): (r: nat)
    requires offset <= MAX_COPY3_OFFSET + 2
    ensures offset >= 1 ==> 1 <= r <= offset
  {
    if offset > MAX_COPY3_OFFSET then offset - 0x20_0000 else offset
  }

  /** A beginning of `b` decodes to something else than a beginning of `src`. */
  ghost predicate Spoiled(b: seq<Byte>, src: seq<Byte>) {
    exists k: nat, st :: SpoiledAt(b, src, k, st)
  }

  ghost predicate SpoiledAt(b: seq<Byte>, src: seq<Byte>, k: nat, st: State) {
    k <= |b| && st.offset >= 1 && Run(b[..k], 0, INITIAL, |src|) == Some(st) && !(st.out <= src)
  }

  /** While all is well, a body stands for the input up to `pos`; else it is spoiled. */
  ghost predicate Status(good: bool, b: seq<Byte>, src: seq<Byte>, pos: int, repeat: int) {
    1 <= repeat <= MAX_COPY3_OFFSET + 2 && if good then Encoded(b, src, pos, Wire(repeat)) else Spoiled(b, src)
  }

  lemma SpoiledStays(b: seq<Byte>, c: seq<Byte>, src: seq<Byte>)
    requires Spoiled(b, src)
    ensures Spoiled(b + c, src)
  {
    hide Run;
    var k: nat, st :| SpoiledAt(b, src, k, st);
    assert (b + c)[..k] == b[..k];
    assert SpoiledAt(b + c, src, k, st);
  }

  /** Output is never taken back. */
  lemma {:induction false} RunExtends(b: seq<Byte>, s: nat, st: State, n: nat)
    requires s <= |b| && st.offset >= 1 && Run(b, s, st, n).Some?
    ensures st.out <= Run(b, s, st, n).value.out
    decreases |b| - s
  {
    hide Step;
    if s < |b| {
      StepExtends(b, s, st, n);
      RunExtends(b, Step(b, s, st, n).pos, Step(b, s, st, n).st, n);
    }
  }

  /** What is spoiled never decodes to the input. */
  lemma SpoiledDecodes(b: seq<Byte>, src: seq<Byte>)
    requires Spoiled(b, src)
    ensures DecodeBody(b, |src|) != Some(src)
  {
    var k: nat, st :| SpoiledAt(b, src, k, st);
    assert b == b[..k] + b[k..];
    hide Run;
    RunAppend(b[..k], b[k..], INITIAL, st, |src|);
    if DecodeBody(b, |src|) == Some(src) { RunExtends(b[k..], 0, st, |src|); }
  }

  lemma SpoiledNow(b: seq<Byte>, src: seq<Byte>, st: State)
    requires st.offset >= 1 && Run(b, 0, INITIAL, |src|) == Some(st) && !(st.out <= src)
    ensures Spoiled(b, src)
  {
    assert b[..|b|] == b;
    assert SpoiledAt(b, src, |b|, st);
  }

  /** A copy of the input gives the input if and only if it repeats there. */
  lemma CopyIsMatch(src: seq<Byte>, pos: nat, o: nat, length: nat)
    requires 1 <= o <= pos && pos + length <= |src|
    ensures if IsMatch(src, pos, o, length) then CopyBack(src[..pos], o, length) == src[..pos + length]
            else !(CopyBack(src[..pos], o, length) <= src)
  {
    CopyBackShape(src[..pos], o, length);
    var r := CopyBack(src[..pos], o, length);
    if IsMatch(src, pos, o, length) {
      MatchIsCopy(src, pos, o, length);
    } else if r <= src {
      assert false;
    }
  }

  /** Whether a probe at `s` finds its candidate, `minSrcPos` being that of the search position `s0`. */
  predicate Hits(src: seq<Byte>, small: bool, s0: nat, s: nat, candidate: nat)
    requires s + 4 <= |src| && candidate < s
  {
    (small || candidate >= s0 - MAX_COPY3_OFFSET) && src[s..s + 4] == src[candidate..candidate + 4]
  }

  // ---------- the steps of the encoder ----------

  lemma LiteralStatus(good: bool, b: seq<Byte>, src: seq<Byte>, e: nat, base: nat, repeat: nat)
    requires Status(good, b, src, e, repeat) && e <= base <= |src|
    ensures Status(good, b + LiteralBytes(src[e..base]), src, base, repeat)
  {
    hide Encoded; hide Spoiled; hide LiteralBytes;
    if good { AfterLiteral(b, src, e, base, Wire(repeat)); } else { SpoiledStays(b, LiteralBytes(src[e..base]), src); }
  }

  /** A repeat is one of what the decoder has for an offset. */
  lemma RepeatStatus(good: bool, b: seq<Byte>, src: seq<Byte>, pos: nat, repeat: nat, length: nat)
    requires Status(good, b, src, pos, repeat) && IsMatch(src, pos, repeat, length) && length >= 1
    ensures Status(good && IsMatch(src, pos, Wire(repeat), length), b + RepeatBytes(length), src, pos + length, repeat)
  {
    hide RepeatBytes; hide Spoiled; hide Run;
    var o := Wire(repeat);
    if good {
      var st := State(src[..pos], o);
      CopyIsMatch(src, pos, o, length);
      RunRepeat(length, st, |src|);
      RunAppend(b, RepeatBytes(length), INITIAL, st, |src|);
      if !IsMatch(src, pos, o, length) {
        SpoiledNow(b + RepeatBytes(length), src, State(CopyBack(src[..pos], o, length), o));
      }
    } else {
      SpoiledStays(b, RepeatBytes(length), src);
    }
  }

  /** A match that is too far back, with its literals or without, decodes to what lies 2 MiB closer. */
  lemma FarStatus(b: seq<Byte>, src: seq<Byte>, e: nat, base: nat, repeat: nat, offset: nat, length: nat)
    requires Status(true, b, src, e, repeat) && e <= base <= e + 3 && IsMatch(src, base, offset, length)
    requires MAX_COPY3_OFFSET < offset <= MAX_COPY3_OFFSET + 2 && length >= 4
    ensures Status(IsMatch(src, base, Wire(offset), length), b + Lits3Bytes(src[e..base], offset, length), src,
                   base + length, offset)
  {
    hide ParseOp; hide Copy3Bytes; hide Run; hide Spoiled;
    var h, lits, o, st := Copy3Bytes(offset, length, base - e), src[e..base], Wire(offset),
                          State(src[..e], Wire(repeat));
    ParseCopy3Bytes(offset, length, base - e, lits);
    RunCopyOp(h, lits, o, length, st, |src|);
    assert src[..e] + lits == src[..base];
    RunAppend(b, h + lits, INITIAL, st, |src|);
    CopyIsMatch(src, base, o, length);
    if !IsMatch(src, base, o, length) {
      SpoiledNow(b + (h + lits), src, State(CopyBack(src[..base], o, length), o));
    }
  }

  lemma Fused3Status(good: bool, b: seq<Byte>, src: seq<Byte>, e: nat, base: nat, repeat: nat, offset: nat, length: nat)
    requires Status(good, b, src, e, repeat) && e <= base <= e + 3 && IsMatch(src, base, offset, length)
    requires MIN_COPY3_OFFSET <= offset <= MAX_COPY3_OFFSET + 2 && length >= 4
    ensures Status(good && IsMatch(src, base, Wire(offset), length), b + Lits3Bytes(src[e..base], offset, length), src,
                   base + length, offset)
  {
    hide Encoded; hide Spoiled; hide Lits3Bytes; hide IsMatch;
    MatchBounds(src, base, offset, length);
    if !good {
      SpoiledStays(b, Lits3Bytes(src[e..base], offset, length), src);
    } else if offset > MAX_COPY3_OFFSET {
      FarStatus(b, src, e, base, repeat, offset, length);
    } else {
      AfterFused3(b, src, e, base, Wire(repeat), offset, length);
    }
  }

  lemma Fused2Status(good: bool, b: seq<Byte>, src: seq<Byte>, e: nat, base: nat, repeat: nat, offset: nat, length: nat)
    requires Status(good, b, src, e, repeat) && e < base <= e + 4 && IsMatch(src, base, offset, length)
    requires MIN_COPY2_OFFSET <= offset <= MAX_COPY2_OFFSET && length >= 4
    ensures Status(good && IsMatch(src, base, Wire(offset), length), b + Lits2Bytes(src[e..base], offset, length), src,
                   base + length, offset)
  {
    hide Encoded; hide Spoiled; hide Lits2Bytes; hide IsMatch;
    MatchBounds(src, base, offset, length);
    if good {
      AfterFused2(b, src, e, base, Wire(repeat), offset, length);
    } else {
      SpoiledStays(b, Lits2Bytes(src[e..base], offset, length), src);
    }
  }

  lemma CopyStatus(good: bool, b: seq<Byte>, src: seq<Byte>, pos: nat, repeat: nat, offset: nat, length: nat)
    requires Status(good, b, src, pos, repeat) && IsMatch(src, pos, offset, length) && length >= 4
    requires offset <= MAX_COPY3_OFFSET + 2
    ensures Status(good && IsMatch(src, pos, Wire(offset), length), b + CopyBytes(offset, length), src, pos + length,
                   offset)
  {
    hide Encoded; hide Spoiled; hide IsMatch; hide Copy1Bytes; hide Copy2Bytes; hide Copy3Bytes;
    MatchBounds(src, pos, offset, length);
    if !good {
      SpoiledStays(b, CopyBytes(offset, length), src);
    } else if offset > MAX_COPY3_OFFSET {
      FarStatus(b, src, pos, pos, repeat, offset, length);
      assert src[pos..pos] == [] && Copy3Bytes(offset, length, 0) + [] == Copy3Bytes(offset, length, 0);
    } else {
      AfterCopy(b, src, pos, Wire(repeat), offset, length);
    }
  }

  /** At the end the body decodes to the input if and only if all has gone well. */
  lemma StatusDecodes(good: bool, b: seq<Byte>, src: seq<Byte>, repeat: nat)
    requires Status(good, b, src, |src|, repeat)
    ensures DecodeBody(b, |src|) == Some(src) <==> good
  {
    hide DecodeBody; hide Encoded; hide Spoiled;
    if good { EncodedDecodes(b, src, Wire(repeat)); } else { SpoiledDecodes(b, src); }
  }

  // ---------- the matches that are too far back ----------

  /** A match, or a repeat of one, that was emitted although it is too far back. */
  datatype Far = Far(base: nat, offset: nat, length: nat)

  /** They are matches of the input, at most two bytes too far back, and there are none in short inputs. */
  ghost predicate FarMatches(src: seq<Byte>, far: seq<Far>) {
    && (forall i :: 0 <= i < |far| ==> TooFar(far[i].offset) && IsMatch(src, far[i].base, far[i].offset, far[i].length))
    && (far != [] ==> |src| > MAX_COPY3_OFFSET + 10)
  }

  predicate TooFar(offset: nat) { MAX_COPY3_OFFSET < offset <= MAX_COPY3_OFFSET + 2 }

  /** Each of them repeats the input 2 MiB closer, too. */
  ghost predicate Harmless(src: seq<Byte>, far: seq<Far>)
    requires FarMatches(src, far)
  {
    forall i :: 0 <= i < |far| ==> IsMatch(src, far[i].base, Wire(far[i].offset), far[i].length)
  }

  function Noted(far: seq<Far>, base: nat, offset: nat, length: nat): (r: seq<Far>) {
    if offset > MAX_COPY3_OFFSET then far + [Far(base, offset, length)] else far
  }

  /** What level 1 keeps: the body is good while all far matches are harmless, and spoiled after that. */
  ghost predicate Kept(src: seq<Byte>, far: seq<Far>, b: seq<Byte>, pos: int, repeat: int) {
    && FarMatches(src, far) && Status(Harmless(src, far), b, src, pos, repeat)
    && (repeat > MAX_COPY3_OFFSET ==> |src| > MAX_COPY3_OFFSET + 10)
  }

  lemma OneMoreFar(src: seq<Byte>, far: seq<Far>, base: nat, offset: nat, length: nat)
    requires FarMatches(src, far) && IsMatch(src, base, offset, length) && offset <= MAX_COPY3_OFFSET + 2
    requires offset > MAX_COPY3_OFFSET ==> |src| > MAX_COPY3_OFFSET + 10
    ensures FarMatches(src, Noted(far, base, offset, length))
    ensures Harmless(src, Noted(far, base, offset, length)) ==
              (Harmless(src, far) && IsMatch(src, base, Wire(offset), length))
  {
    hide IsMatch;
    if offset > MAX_COPY3_OFFSET {
      var more := Noted(far, base, offset, length);
      assert more[|far|] == Far(base, offset, length);
      assert forall i :: 0 <= i < |far| ==> more[i] == far[i];
    }
  }

  lemma KeptLiteral(src: seq<Byte>, far: seq<Far>, b: seq<Byte>, e: nat, base: nat, repeat: nat)
    requires Kept(src, far, b, e, repeat) && e <= base <= |src|
    ensures Kept(src, far, b + LiteralBytes(src[e..base]), base, repeat)
  {
    hide Status; hide FarMatches; hide Harmless; hide LiteralBytes;
    LiteralStatus(Harmless(src, far), b, src, e, base, repeat);
  }

  lemma KeptRepeat(src: seq<Byte>, far: seq<Far>, b: seq<Byte>, pos: nat, repeat: nat, length: nat)
    requires Kept(src, far, b, pos, repeat) && IsMatch(src, pos, repeat, length) && length >= 1
    ensures Kept(src, Noted(far, pos, repeat, length), b + RepeatBytes(length), pos + length, repeat)
  {
    assert repeat <= MAX_COPY3_OFFSET + 2;
    hide Status; hide FarMatches; hide Harmless; hide RepeatBytes; hide IsMatch; hide Noted;
    RepeatStatus(Harmless(src, far), b, src, pos, repeat, length);
    OneMoreFar(src, far, pos, repeat, length);
  }

  lemma KeptCopy(src: seq<Byte>, far: seq<Far>, b: seq<Byte>, pos: nat, repeat: nat, offset: nat, length: nat)
    requires Kept(src, far, b, pos, repeat) && IsMatch(src, pos, offset, length) && length >= 4 &&
             offset <= MAX_COPY3_OFFSET + 2
    requires offset > MAX_COPY3_OFFSET ==> |src| > MAX_COPY3_OFFSET + 10
    ensures offset >= 1 && Kept(src, Noted(far, pos, offset, length), b + CopyBytes(offset, length), pos + length,
                                offset)
  {
    hide Status; hide FarMatches; hide Harmless; hide CopyBytes; hide IsMatch; hide Noted;
    MatchBounds(src, pos, offset, length);
    CopyStatus(Harmless(src, far), b, src, pos, repeat, offset, length);
    OneMoreFar(src, far, pos, offset, length);
  }

  lemma KeptFused2(src: seq<Byte>, far: seq<Far>, b: seq<Byte>, e: nat, base: nat, repeat: nat, offset: nat,
                   length: nat)
    requires Kept(src, far, b, e, repeat) && e < base <= e + 4 && IsMatch(src, base, offset, length)
    requires MIN_COPY2_OFFSET <= offset <= MAX_COPY2_OFFSET && length >= 4
    ensures base <= |src| && Kept(src, Noted(far, base, offset, length), b + Lits2Bytes(src[e..base], offset, length),
                                  base + length, offset)
  {
    hide Status; hide FarMatches; hide Harmless; hide Lits2Bytes; hide IsMatch;
    MatchBounds(src, base, offset, length);
    Fused2Status(Harmless(src, far), b, src, e, base, repeat, offset, length);
    OneMoreFar(src, far, base, offset, length);
  }

  lemma KeptFused3(src: seq<Byte>, far: seq<Far>, b: seq<Byte>, e: nat, base: nat, repeat: nat, offset: nat,
                   length: nat)
    requires Kept(src, far, b, e, repeat) && e <= base <= e + 3 && IsMatch(src, base, offset, length)
    requires MIN_COPY3_OFFSET <= offset <= MAX_COPY3_OFFSET + 2 && length >= 4
    requires offset > MAX_COPY3_OFFSET ==> |src| > MAX_COPY3_OFFSET + 10
    ensures base <= |src| && Kept(src, Noted(far, base, offset, length), b + Lits3Bytes(src[e..base], offset, length),
                                  base + length, offset)
  {
    hide Status; hide FarMatches; hide Harmless; hide Lits3Bytes; hide IsMatch; hide Noted;
    MatchBounds(src, base, offset, length);
    Fused3Status(Harmless(src, far), b, src, e, base, repeat, offset, length);
    OneMoreFar(src, far, base, offset, length);
  }

  lemma KeptDecodes(src: seq<Byte>, far: seq<Far>, b: seq<Byte>, repeat: nat)
    requires Kept(src, far, b, |src|, repeat)
    ensures FarMatches(src, far) && (DecodeBody(b, |src|) == Some(src) <==> Harmless(src, far))
  {
    hide Status; hide FarMatches; hide Harmless; hide DecodeBody;
    StatusDecodes(Harmless(src, far), b, src, repeat);
  }

  lemma StartKept(src: seq<Byte>)
    requires |src| <= MAX_BLOCK_SIZE
    ensures Kept(src, [], [], 0, 1)
  {
  }
}
