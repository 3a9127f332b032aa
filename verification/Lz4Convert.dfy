/** lz4convert.go: `ConvertBlock`, which turns an LZ4 block into a MinLZ block body. */
module Lz4Convert {
  import opened Bytes
  import opened Format
  import opened Encoding
  import opened Emission
  import opened Emitters
  import opened OutputBound
  import opened Lz4Format

  datatype Error = Corrupt | TooLarge | DstTooSmall | Incompressible

  /** `Panic` is `emitLiteral` refusing a literal run of more than 16 MiB. */
  datatype Result = Converted(d: nat, uncompressed: nat) | Failed(error: Error) | Panic

  const MAX_COPY2_LITS: nat := 4
  const COPY2_LIT_MAX_LEN: nat := 11

  /** The converted body decodes to what the LZ4 decoder has so far, with the same repeat offset. */
  ghost predicate InStep(body: seq<Byte>, out: seq<Byte>, lastOffset: nat) {
    |out| <= MAX_BLOCK_SIZE ==> Encoded(body, out, |out|, lastOffset)
  }

  lemma GrowInput(b: seq<Byte>, src: seq<Byte>, pos: nat, repeat: nat, longer: seq<Byte>)
    requires Encoded(b, src, pos, repeat) && pos <= |longer| <= MAX_BLOCK_SIZE && |src| <= |longer|
    requires longer[..pos] == src[..pos]
    ensures Encoded(b, longer, pos, repeat)
  {
    RunGrow(b, 0, INITIAL, |src|, |longer|);
  }

  lemma InStepLiteral(body: seq<Byte>, out: seq<Byte>, lastOffset: nat, lits: seq<Byte>)
    requires InStep(body, out, lastOffset)
    ensures InStep(body + LiteralBytes(lits), out + lits, lastOffset)
  {
    var longer := out + lits;
    if |longer| <= MAX_BLOCK_SIZE {
      assert longer[..|out|] == out[..|out|];
      GrowInput(body, out, |out|, lastOffset, longer);
      AfterLiteral(body, longer, |out|, |longer|, lastOffset);
      assert longer[|out|..|longer|] == lits;
    }
  }

  /** The forward copy of the decoder, seen as a match of its own output. */
  lemma CopiedMatch(out: seq<Byte>, offset: nat, length: nat)
    requires 1 <= offset <= |out|
    ensures IsMatch(CopyBack(out, offset, length), |out|, offset, length)
    ensures |CopyBack(out, offset, length)| == |out| + length && CopyBack(out, offset, length)[..|out|] == out
  {
    CopyBackShape(out, offset, length);
  }

  lemma InStepRepeat(body: seq<Byte>, out: seq<Byte>, lastOffset: nat, length: nat)
    requires InStep(body, out, lastOffset) && 1 <= lastOffset <= |out| && length >= 4
    ensures InStep(body + RepeatBytes(length), CopyBack(out, lastOffset, length), lastOffset)
  {
    hide Encoded; hide RepeatBytes;
    CopiedMatch(out, lastOffset, length);
    var longer := CopyBack(out, lastOffset, length);
    if |longer| <= MAX_BLOCK_SIZE {
      GrowInput(body, out, |out|, lastOffset, longer);
      AfterRepeat(body, longer, |out|, lastOffset, length);
    }
  }

  lemma InStepCopy(body: seq<Byte>, out: seq<Byte>, lastOffset: nat, offset: nat, length: nat)
    requires InStep(body, out, lastOffset) && 1 <= offset <= |out| && offset < 65536 && length >= 4
    ensures InStep(body + CopyBytes(offset, length), CopyBack(out, offset, length), offset)
  {
    hide Encoded; hide CopyBytes;
    CopiedMatch(out, offset, length);
    var longer := CopyBack(out, offset, length);
    if |longer| <= MAX_BLOCK_SIZE {
      GrowInput(body, out, |out|, lastOffset, longer);
      AfterCopy(body, longer, |out|, lastOffset, offset, length);
    }
  }

  lemma InStepFused(body: seq<Byte>, out: seq<Byte>, lastOffset: nat, lits: seq<Byte>, offset: nat, length: nat)
    requires InStep(body, out, lastOffset) && 1 <= |lits| <= 4
    requires 64 <= offset <= |out| + |lits| && offset < 65536 && length >= 4
    ensures InStep(body + Lits2Bytes(lits, offset, length), CopyBack(out + lits, offset, length), offset)
  {
    hide Encoded; hide Lits2Bytes;
    var mid := out + lits;
    CopiedMatch(mid, offset, length);
    var longer := CopyBack(mid, offset, length);
    if |longer| <= MAX_BLOCK_SIZE {
      assert longer[..|out|] == mid[..|out|] == out[..|out|];
      GrowInput(body, out, |out|, lastOffset, longer);
      assert longer[|out|..|mid|] == mid[|out|..] == lits;
      AfterFused2(body, longer, |out|, |mid|, lastOffset, offset, length);
    }
  }

  /** The literal length: `s` ends on the last length byte, as the Go loop leaves it. */
  method ReadLiteralLength(src: seq<Byte>, s0: nat) returns (ok: bool, ll: nat, s: nat)
    requires s0 < |src|
    ensures ok ==> s0 <= s < |src| && Length(src, s0 + 1, Load8(src, s0) / 16, 0) == Some((ll, s + 1))
    ensures !ok ==> Length(src, s0 + 1, Load8(src, s0) / 16, 0).None?
  {
    s := s0;
    var token := Load8(src, s);
    ll := token / 16;
    ok := true;
    if token >= 0xf0 {
      while true
        invariant s0 <= s < |src|
        invariant match Extension(src, s0 + 1)
                  case None => Extension(src, s + 1).None?
                  case Some(t) =>
                    Extension(src, s + 1).Some? && Extension(src, s + 1).value.1 == t.1
                    && 15 + t.0 == ll + Extension(src, s + 1).value.0
        decreases |src| - s
      {
        s := s + 1;
        if s >= |src| { return false, ll, s; }
        var val := Load8(src, s);
        ll := ll + val;
        if val != 255 { break; }
      }
    }
  }

  /** Both checks on the literals of a sequence. */
  method ReadLiterals(src: seq<Byte>, s0: nat) returns (ok: bool, ll: nat, s: nat)
    requires s0 < |src|
    ensures LiteralRun(src, s0) == if ok then Some((ll, s)) else None
    ensures ok ==> s + ll <= |src|
  {
    ok, ll, s := ReadLiteralLength(src, s0);
    if !ok || s + ll >= |src| { return false, ll, s; }
    s := s + 1;
  }

  /** The match length; at least one byte must follow it. */
  method ReadMatchLength(src: seq<Byte>, s0: nat, ml0: nat) returns (ok: bool, ml: nat, s: nat)
    requires s0 <= |src| && 4 <= ml0 <= 19
    ensures ok ==> s0 <= s && Length(src, s0, ml0 - 4, LZ4_MIN_MATCH) == Some((ml, s)) && ml >= 4
    ensures !ok ==> match Length(src, s0, ml0 - 4, LZ4_MIN_MATCH) case None => true case Some(t) => t.1 >= |src|
  {
    s, ml, ok := s0, ml0, true;
    if ml == LZ4_MIN_MATCH + 15 {
      while true
        invariant s0 <= s <= |src| && ml >= 19
        invariant match Extension(src, s0)
                  case None => Extension(src, s).None?
                  case Some(t) =>
                    Extension(src, s).Some? && Extension(src, s).value.1 == t.1
                    && 19 + t.0 == ml + Extension(src, s).value.0
        decreases |src| - s
      {
        if s >= |src| { return false, ml, s; }
        var val := Load8(src, s);
        s := s + 1;
        ml := ml + val;
        if val != 255 {
          if s >= |src| { return false, ml, s; }
          break;
        }
      }
    }
  }

  /**
   The emission for one sequence: literals that cannot be fused are written on their own, then the
   match as a repeat, a fused copy or a plain copy.
   */
  method EmitSequence(dst: array<Byte>, d0: nat, lits0: seq<Byte>, offset: nat, ml: nat, fuse: bool,
                      lastOffset0: nat, ghost start: nat, ghost out: seq<Byte>)
    returns (d: nat, lastOffset: nat)
    requires start <= d0 && d0 + |lits0| + 10 <= dst.Length && |lits0| <= MAX_LITERAL_RUN && ml >= 4
    requires InStep(dst[start..d0], out, lastOffset0) && lastOffset0 >= 1
    requires 1 <= offset <= |out| + |lits0| && offset < 65536
    requires fuse ==> 1 <= |lits0| <= 4 && offset >= 64 && offset != lastOffset0
    modifies dst
    ensures d0 <= d <= dst.Length && dst[..start] == old(dst[..start])
    ensures d - d0 == SequenceSize(|lits0|, offset, ml, fuse, lastOffset0)
    ensures InStep(dst[start..d], CopyBack(out + lits0, offset, ml), lastOffset) && lastOffset == offset
  {
    hide InStep; hide LiteralBytes; hide RepeatBytes; hide CopyBytes; hide Lits2Bytes;
    SequenceSizes(lits0, offset, ml);
    d, lastOffset := d0, lastOffset0;
    ghost var all0, b0 := dst[..d0], dst[start..d0];
    var k;
    if fuse {
      k := EmitCopyLits2(dst, d, lits0, offset, ml);
      d := d + k;
      Split(all0, dst[..d], start, Lits2Bytes(lits0, offset, ml));
      InStepFused(b0, out, lastOffset, lits0, offset, ml);
      return d, offset;
    }
    k := EmitLiteral(dst, d, lits0);
    d := d + k;
    Split(all0, dst[..d], start, LiteralBytes(lits0));
    InStepLiteral(b0, out, lastOffset, lits0);
    d := EmitMatch(dst, d, offset, ml, lastOffset, start, out + lits0);
    lastOffset := offset;
  }

  /** The match on its own: as a repeat, if its offset is that of the last one. */
  method EmitMatch(dst: array<Byte>, d0: nat, offset: nat, ml: nat, lastOffset: nat, ghost start: nat,
                   ghost out: seq<Byte>)
    returns (d: nat)
    requires start <= d0 && d0 + 6 <= dst.Length && ml >= 4 && 1 <= offset <= |out| && offset < 65536
    requires InStep(dst[start..d0], out, lastOffset)
    modifies dst
    ensures d0 <= d <= dst.Length && dst[..start] == old(dst[..start])
    ensures d - d0 == if offset == lastOffset then HeaderSize(ml) else CopySize(offset, ml)
    ensures InStep(dst[start..d], CopyBack(out, offset, ml), offset)
  {
    hide InStep; hide RepeatBytes; hide CopyBytes; hide LiteralBytes; hide Lits2Bytes;
    SequenceSizes([], offset, ml);
    ghost var all, b := dst[..d0], dst[start..d0];
    var k;
    if offset == lastOffset {
      k := EmitRepeat(dst, d0, ml);
      d := d0 + k;
      Split(all, dst[..d], start, RepeatBytes(ml));
      InStepRepeat(b, out, lastOffset, ml);
    } else {
      k := EmitCopy(dst, d0, offset, ml);
      d := d0 + k;
      Split(all, dst[..d], start, CopyBytes(offset, ml));
      InStepCopy(b, out, lastOffset, offset, ml);
    }
    assert dst[..start] == dst[..d][..start] == all[..start];
  }

  /** What was appended to all of `dst` was appended to the part of it after `start`. */
  lemma Split(all: seq<Byte>, all': seq<Byte>, start: nat, bytes: seq<Byte>)
    requires start <= |all| && all' == all + bytes
    ensures all'[start..] == all[start..] + bytes && all'[..start] == all[..start]
  {
  }

  /** No sequence needs more than its literals and the ten bytes of reserve. */
  lemma SequenceSizes(lits: seq<Byte>, offset: nat, ml: nat)
    requires 1 <= offset < 65536 && ml >= 4
    ensures |LiteralBytes(lits)| == LitSize(|lits|) <= |lits| + 4
    ensures |RepeatBytes(ml)| == HeaderSize(ml) <= 4
    ensures |CopyBytes(offset, ml)| == CopySize(offset, ml) <= 6
    ensures 1 <= |lits| <= 4 && offset >= 64 ==>
              |Lits2Bytes(lits, offset, ml)| == Fused2Size(|lits|, ml) <= |lits| + 10
  {
    Sizes(lits, offset, ml);
  }

  lemma FusesWhen(count: nat, offset: nat, ml: nat, lastOffset: nat)
    ensures Fuses(count, offset, ml, lastOffset) ==> 1 <= count <= 4 && offset >= 64 && offset != lastOffset
  {
  }

  /** The bytes that a sequence becomes. */
  function SequenceSize(ll: nat, offset: nat, ml: nat, fuse: bool, lastOffset: nat): (r: nat) {
    if fuse then Fused2Size(ll, ml)
    else LitSize(ll) + if offset == lastOffset then HeaderSize(ml) else CopySize(offset, ml)
  }

  /** That is at most a quarter more than it was, `x` and `y` being the extra length bytes that it had. */
  lemma SequenceGrowth(ll: nat, offset: nat, ml: nat, lastOffset: nat, x: nat, y: nat)
    requires 1 <= offset < 65536 && ml >= 4 && Covers(x, ll) && Covers(y, ml - 4)
    ensures var fuse := Fuses(ll, offset, if ml < 19 then ml else 19, lastOffset);
            4 * SequenceSize(ll, offset, ml, fuse, lastOffset) <= 5 * (3 + x + ll + y)
  {
    LiteralGrowth(ll, x);
    HeaderGrowth(ml, y);
    CopyGrowth(offset, ml, y);
  }

  lemma LiteralGrowth(ll: nat, x: nat)
    requires Covers(x, ll)
    ensures LitSize(ll) <= x + ll + (if ll > 0 then 1 else 0)
  {
    HeaderGrowth(ll, x);
  }

  lemma HeaderGrowth(length: nat, x: nat)
    requires Covers(x, length - 4) || Covers(x, length)
    ensures HeaderSize(length) <= x + 1
  {
  }

  lemma CopyGrowth(offset: nat, ml: nat, y: nat)
    requires 1 <= offset < 65536 && ml >= 4 && Covers(y, ml - 4)
    ensures CopySize(offset, ml) <= y + 3
  {
  }

  /** One sequence of the block, from `s` to `m.2`. */
  lemma SequenceAdds(src: seq<Byte>, s: nat, size: nat, l: (nat, nat), m: (nat, nat, nat), lastOffset: nat)
    requires s < |src| && LiteralRun(src, s) == Some(l)
    requires MatchAt(src, l.1 + l.0, Load8(src, s) % 16, size) == Some(m) && m.0 < 65536
    ensures var fuse := Fuses(l.0, m.0, LZ4_MIN_MATCH + Load8(src, s) % 16, lastOffset);
            4 * SequenceSize(l.0, m.0, m.1, fuse, lastOffset) <= 5 * (m.2 - s)
  {
    hide Fuses; hide SequenceSize;
    LengthSize(src, s + 1, Load8(src, s) / 16, 0);
    LengthSize(src, l.1 + l.0 + 2, Load8(src, s) % 16, LZ4_MIN_MATCH);
    SequenceGrowth(l.0, m.0, m.1, lastOffset, l.1 - s - 1, m.2 - (l.1 + l.0 + 2));
  }

  /** The literals that end the block. */
  lemma LiteralsAdd(src: seq<Byte>, s: nat, l: (nat, nat))
    requires s < |src| && LiteralRun(src, s) == Some(l)
    ensures 4 * LitSize(l.0) <= 5 * (l.1 + l.0 - s)
  {
    LengthSize(src, s + 1, Load8(src, s) / 16, 0);
    LiteralGrowth(l.0, l.1 - s - 1);
  }

  /** What the LZ4 block says, if it says anything, is larger than a MinLZ block may be. */
  ghost predicate NoBlock(src: seq<Byte>) {
    Decode(src, 0, []).Some? ==> |Decode(src, 0, []).value| > MAX_BLOCK_SIZE
  }

  /** The last sequence: its literals, and the final checks. */
  method Finish(dst: array<Byte>, dStart: nat, d0: nat, lits: seq<Byte>, uncompressed0: nat,
                ghost lastOffset: nat, ghost out: seq<Byte>)
    returns (r: Result, ghost body: seq<Byte>)
    requires dStart <= d0 <= dst.Length && (|lits| > 0 ==> d0 + |lits| + 10 <= dst.Length)
    requires |out| == uncompressed0 && InStep(dst[dStart..d0], out, lastOffset)
    modifies dst
    ensures dst[..dStart] == old(dst[..dStart])
    ensures r.Converted? ==>
              && dStart <= r.d <= dst.Length && r.d - dStart <= r.uncompressed == |out + lits|
              && DecodeBody(dst[dStart..r.d], r.uncompressed) == Some(out + lits)
              && r.d - dStart == d0 - dStart + LitSize(|lits|)
    ensures r == Failed(Incompressible) ==>
              && |body| == d0 - dStart + LitSize(|lits|) > |out + lits|
              && DecodeBody(body, |out + lits|) == Some(out + lits) && |out + lits| <= MAX_BLOCK_SIZE
    ensures r.Converted? || (r == Failed(TooLarge) && |out + lits| > MAX_BLOCK_SIZE) || r == Failed(Incompressible)
  {
    hide InStep; hide LiteralBytes;
    var uncompressed, d := uncompressed0 + |lits|, d0;
    body := [];
    if uncompressed > MAX_BLOCK_SIZE { return Failed(TooLarge), body; }
    SizesOfLiteral(lits);
    ghost var all, b0 := dst[..d], dst[dStart..d];
    var k := EmitLiteral(dst, d, lits);
    d := d + k;
    Split(all, dst[..d], dStart, LiteralBytes(lits));
    assert dst[..dStart] == dst[..d][..dStart];
    InStepLiteral(b0, out, lastOffset, lits);
    body := dst[dStart..d];
    InStepDecodes(body, out + lits, lastOffset);
    if uncompressed < d - dStart { return Failed(Incompressible), body; }
    return Converted(d, uncompressed), body;
  }

  datatype Sequence = Broken | Last | Match(offset: nat, ml: nat, next: nat)

  /** The rest of a sequence after its literals, `s` being their end. */
  method ReadMatch(src: seq<Byte>, s0: nat, token: nat, uncompressed: nat, ll: nat)
    returns (q: Sequence)
    requires s0 <= |src| && token < 256
    ensures q.Last? <==> s0 == |src| && token % 16 == 0
    ensures q.Match? ==>
              && s0 + 2 < |src| && MatchAt(src, s0, token % 16, uncompressed + ll) == Some((q.offset, q.ml, q.next))
              && q.ml >= 4 && q.offset < 65536 && q.offset == Load16(src, s0)
    ensures q.Broken? ==> match MatchAt(src, s0, token % 16, uncompressed + ll)
                       case None => true
                       case Some(m) => m.2 >= |src|
  {
    var s, ml := s0, LZ4_MIN_MATCH + token % 16;
    if s == |src| && ml == LZ4_MIN_MATCH { return Last; }
    if s >= |src| - 2 { return Broken; }
    var offset := Load16(src, s);
    s := s + 2;
    if offset == 0 { return Broken; }
    if offset > uncompressed + ll { return Broken; }
    var ok;
    ok, ml, s := ReadMatchLength(src, s, ml);
    if !ok { return Broken; }
    return Match(offset, ml, s);
  }

  /** Whether the literals go into the copy; `ml` is the length that the token alone gives. */
  predicate Fuses(count: nat, offset: nat, ml: nat, lastOffset: nat) {
    count > 0 && !(count > MAX_COPY2_LITS || (offset <= 1024 && ml > COPY2_LIT_MAX_LEN) || offset < 64
                   || offset == lastOffset)
  }

  /**
   `ConvertBlock`, appending at `dStart` to a buffer of capacity `dst.Length`. Nothing is stored past
   that capacity. On success the LZ4 decoding of `src` and the MinLZ decoding of the output are the
   same bytes, and the output is no longer than they are. A block is called corrupt only if the LZ4
   format does not accept it, and too large only if it decodes to more than a MinLZ block holds. What
   comes of a block, `body`, is at most a quarter larger than the block: in a buffer with ten bytes more
   than that every good block is converted, unless its body is larger than what it decodes to.
   */
  method ConvertBlock(dst: array<Byte>, dStart: nat, src: seq<Byte>) returns (r: Result, ghost body: seq<Byte>)
    requires dStart <= dst.Length
    modifies dst
    ensures dst[..dStart] == old(dst[..dStart])
    ensures src == [] ==> r == Converted(dStart, 0)
    ensures r.Converted? && src != [] ==>
              && dStart <= r.d <= dst.Length && r.d - dStart <= r.uncompressed
              && Decode(src, 0, []).Some? && |Decode(src, 0, []).value| == r.uncompressed
              && DecodeBody(dst[dStart..r.d], r.uncompressed) == Decode(src, 0, [])
    ensures r == Failed(Corrupt) ==> Decode(src, 0, []).None?
    ensures r == Failed(TooLarge) || r.Panic? ==> NoBlock(src)
    ensures r.Converted? ==> 4 * (r.d - dStart) <= 5 * |src|
    ensures r == Failed(Incompressible) ==>
              && Decode(src, 0, []).Some? && DecodeBody(body, |Decode(src, 0, []).value|) == Decode(src, 0, [])
              && 4 * |Decode(src, 0, []).value| < 4 * |body| <= 5 * |src|
    ensures r == Failed(DstTooSmall) ==> 4 * (dst.Length - dStart - 10) < 5 * |src|
    ensures Decode(src, 0, []).Some? && !NoBlock(src) && 4 * (dst.Length - dStart - 10) >= 5 * |src| ==>
              && (r.Converted? || r == Failed(Incompressible))
              && (4 * |Decode(src, 0, []).value| >= 5 * |src| ==> r.Converted?)
  {
    hide InStep; hide Decode; hide LiteralBytes; hide LiteralRun; hide MatchAt; hide CopyBack; hide Fuses;
    hide SequenceSize; hide LitSize; hide DecodeBody; hide Covers; hide Load8;
    body := [];
    if |src| == 0 {
      NothingDecodes();
      return Converted(dStart, 0), body;
    }
    var s: nat, d := 0, dStart;
    var dLimit := dst.Length - 10;
    var lastOffset, uncompressed: nat := 1, 0;
    ghost var out: seq<Byte> := [];
    StartInStep(dst[dStart..d]);
    while true
      invariant dStart <= d <= dst.Length && s <= |src| && lastOffset >= 1
      invariant dst[..dStart] == old(dst[..dStart])
      invariant |out| == uncompressed && (d <= dLimit || uncompressed == 0)
      invariant InStep(dst[dStart..d], out, lastOffset)
      invariant 4 * (d - dStart) <= 5 * s
      invariant Decode(src, 0, []) == Decode(src, s, out)
      decreases |src| - s
    {
      DecodeStep(src, s, out);
      if s >= |src| { return Failed(Corrupt), body; }
      if uncompressed > MAX_BLOCK_SIZE {
        if Decode(src, s, out).Some? { DecodeGrows(src, s, out); }
        return Failed(TooLarge), body;
      }
      var token := Load8(src, s);
      var s0 := s;
      var ok, ll;
      ok, ll, s := ReadLiterals(src, s);
      if !ok { return Failed(Corrupt), body; }
      if ll > 0 && d + ll > dLimit { return Failed(DstTooSmall), body; }
      var lits := src[s..s + ll];
      s := s + ll;
      if ll > MAX_LITERAL_RUN && s + 2 < |src| {
        if Decode(src, s0, out).Some? { DecodeGrows(src, s0, out); }
        return Panic, body;
      }
      ghost var out1 := out + lits;
      var q := ReadMatch(src, s, token, uncompressed, ll);
      match q {
        case Last =>
          LiteralsAdd(src, s0, (ll, s - ll));
          r, body := Finish(dst, dStart, d, lits, uncompressed, lastOffset, out);
          return;
        case Broken =>
          BadSequence(src, s0, out);
          return Failed(Corrupt), body;
        case Match(offset, ml, next) =>
          var fuse := Fuses(ll, offset, LZ4_MIN_MATCH + token % 16, lastOffset);
          CopyBackShape(out1, offset, ml);
          FusesWhen(ll, offset, LZ4_MIN_MATCH + token % 16, lastOffset);
          SequenceAdds(src, s0, uncompressed + ll, (ll, s - ll), (offset, ml, next), lastOffset);
          d, lastOffset := EmitSequence(dst, d, lits, offset, ml, fuse, lastOffset, dStart, out);
          out := CopyBack(out1, offset, ml);
          uncompressed := uncompressed + ll + ml;
          s := next;
          if d > dLimit { return Failed(DstTooSmall), body; }
      }
    }
  }

  lemma NothingDecodes()
    ensures Decode([], 0, []).None?
  {
  }

  lemma StartInStep(body: seq<Byte>)
    requires body == []
    ensures InStep(body, [], 1)
  {
  }

  lemma SizesOfLiteral(lits: seq<Byte>)
    ensures |LiteralBytes(lits)| == LitSize(|lits|) <= |lits| + 4 && (lits == [] ==> LiteralBytes(lits) == [])
  {
  }

  lemma InStepDecodes(body: seq<Byte>, out: seq<Byte>, lastOffset: nat)
    requires InStep(body, out, lastOffset) && |out| <= MAX_BLOCK_SIZE
    ensures DecodeBody(body, |out|) == Some(out)
  {
    EncodedDecodes(body, out, lastOffset);
  }
}
