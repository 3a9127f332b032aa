/** internal/reference/encoder.go: the append-only encoder. */
module ReferenceEncoder {
  import opened Bytes
  import opened Format
  import opened Encoding
  import opened Emission
  import opened OutputBound
  import opened Matching
  import opened Varint

  // ---------- emitters ----------

  method EmitLiterals(dst: seq<Byte>, lits: seq<Byte>) returns (r: seq<Byte>)
    requires |lits| <= MAX_BLOCK_SIZE
    ensures r == dst + LiteralBytes(lits)
  {
    hide Low;
    if |lits| == 0 { return dst; }
    if |lits| < 30 { return dst + [Low((|lits| - 1) * 8)] + lits; }
    var n := |lits| - 30;
    if n < 256 { return dst + [Low(29 * 8)] + [Low(n)] + lits; }
    if n < 65536 { return dst + [Low(30 * 8)] + LE16(n) + lits; }
    r := dst + [Low(31 * 8)] + LE32(n)[..3] + lits;
    assert LE32(n)[..3] == LE24(n);
  }

  method EmitRepeat(dst: seq<Byte>, length0: nat) returns (r: seq<Byte>)
    requires length0 >= 1
    ensures r == dst + RepeatBytes(length0)
  {
    hide Low;
    var length := length0 - 1;
    if length < 29 { return dst + [Low(length * 8 + 4)]; }
    length := length - 29;
    if length < 256 { return dst + [Low(29 * 8 + 4)] + [Low(length)]; }
    if length < 65536 { return dst + [Low(30 * 8 + 4)] + LE16(length); }
    r := dst + [Low(31 * 8 + 4)] + LE32(length)[..3];
    assert LE32(length)[..3] == LE24(length);
  }

  method EmitCopy1(dst: seq<Byte>, offset0: nat, length: nat) returns (r: seq<Byte>)
    requires offset0 >= 1 && length >= 4
    ensures r == dst + Copy1Bytes(offset0, length)
  {
    hide Low; hide RepeatBytes;
    var offset := offset0 - 1;
    if length <= 18 { return dst + LE16(offset * 64 + (length - 4) * 4 + 1); }
    if length <= 273 { return dst + (LE16(offset * 64 + 15 * 4 + 1) + [Low(length - 18)]); }
    var first := dst + LE16(offset * 64 + 14 * 4 + 1);
    r := EmitRepeat(first, length - 18);
  }

  method EmitCopy2(dst: seq<Byte>, offset0: nat, length0: nat) returns (r: seq<Byte>)
    requires offset0 >= MIN_COPY2_OFFSET && length0 >= 4
    ensures r == dst + Copy2Bytes(offset0, length0)
  {
    hide Low;
    var length, offset := length0 - 4, offset0 - MIN_COPY2_OFFSET;
    var offsetEnc := [Low(offset), Low(offset / 256)];
    if length <= 60 { return dst + [Low(length * 4 + 2)] + offsetEnc; }
    length := length - 60;
    if length < 256 { return dst + [Low(2 + 61 * 4)] + offsetEnc + [Low(length)]; }
    if length < 65536 { return dst + [Low(2 + 62 * 4)] + offsetEnc + LE16(length); }
    r := dst + [Low(2 + 63 * 4)] + offsetEnc + LE32(length)[..3];
    assert LE32(length)[..3] == LE24(length);
  }

  method EmitCopy3(dst: seq<Byte>, offset: nat, length0: nat, lits: seq<Byte>) returns (r: seq<Byte>)
    requires offset >= MIN_COPY3_OFFSET && length0 >= 4 && |lits| <= 3
    ensures r == dst + Lits3Bytes(lits, offset, length0)
  {
    hide Low;
    var length := length0 - 4;
    ShiftedOffset(offset - MIN_COPY3_OFFSET);
    var encoded := 7 + |lits| * 8 + (offset - MIN_COPY3_OFFSET) * 2048 % 0x1_0000_0000;
    var extra: seq<Byte> := [];
    if length <= 60 {
      encoded := encoded + length * 32;
    } else {
      length := length - 60;
      if length < 256 {
        encoded, extra := encoded + 61 * 32, [Low(length)];
      } else if length < 65536 {
        encoded, extra := encoded + 62 * 32, LE16(length);
      } else {
        encoded, extra := encoded + 63 * 32, LE32(length)[..3];
        assert LE32(length)[..3] == LE24(length);
      }
    }
    assert encoded == Copy3Word(offset, LengthField(length0), |lits|) && extra == LengthExtra(length0);
    r := dst + LE32(encoded) + extra + lits;
  }

  method EmitCopyLits2(dst: seq<Byte>, lits: seq<Byte>, offset0: nat, length0: nat) returns (r: seq<Byte>)
    requires 1 <= |lits| <= 4 && offset0 >= MIN_COPY2_OFFSET && length0 >= 4
    ensures r == dst + Lits2Bytes(lits, offset0, length0)
  {
    hide Low; hide RepeatBytes;
    var length, offset := length0 - 4, offset0 - MIN_COPY2_OFFSET;
    if length > 7 {
      var head := dst + [Low(3 + 7 * 32 + (|lits| - 1) * 8)] + LE16(offset) + lits;
      assert head == dst + Fused2(lits, offset0, 11);
      r := EmitRepeat(head, length - 7);
    } else {
      r := dst + [Low(3 + length * 32 + (|lits| - 1) * 8)] + LE16(offset) + lits;
    }
  }

  // ---------- the encoder ----------

  /**
   State of the encoder between matches. `body` is `dst` without the header it was given; the reserve
   of 11 bytes is what one more operation can need beyond the literals it carries.
   */
  ghost predicate Going(src: seq<Byte>, body: seq<Byte>, nextEmit: int, repeat: int, limit: int) {
    && Encoded(body, src, nextEmit, repeat)
    && |body| <= limit && limit == |src| - 11
  }

  /** The search for a candidate that matches four bytes. */
  method Search(src: seq<Byte>, table: array<nat>, hash: Word -> nat, s0: nat)
      returns (found: bool, s: nat, candidate: nat)
    requires HashInto(hash, table.Length) && s0 <= |src| && Below(table, s0)
    modifies table
    ensures found ==>
              && s0 <= s && s + 4 <= |src| && candidate < s && Below(table, s + 1)
              && src[s..s + 4] == src[candidate..candidate + 4] && s - candidate <= MAX_COPY3_OFFSET
    ensures Uniform(src) && |src| > 16 && s0 == 1 && old(Zeros(table)) ==> found && s == 1 && candidate == 0
  {
    hide Uniform;
    if Uniform(src) && |src| > 16 && s0 == 1 { UniformWords(src, 1, 0, 4); }
    ghost var zeros := Zeros(table);
    s, candidate := s0, 0;
    var sLimit := |src| - 4;
    var minSrcPos := s - 0x20_0000 - 65535;
    while true
      invariant s0 <= s <= |src| && minSrcPos == s - MAX_COPY3_OFFSET && Below(table, s)
      invariant Uniform(src) && |src| > 16 && s0 == 1 && zeros ==> s == 1 && Zeros(table)
      decreases |src| - s
    {
      if s > sLimit { return false, s, candidate; }
      var cv: Word := src[s..s + 4];
      var h := hash(cv);
      candidate := table[h];
      table[h] := s;
      if candidate >= minSrcPos && cv == src[candidate..candidate + 4] { return true, s, candidate; }
      s := s + 1;
      minSrcPos := minSrcPos + 1;
    }
  }

  /** The byte by byte extension. */
  method Extend(src: seq<Byte>, base: nat, candidate0: nat) returns (s: nat)
    requires candidate0 < base && IsMatch(src, base, base - candidate0, 4)
    ensures base + 4 <= s <= |src| && IsMatch(src, base, base - candidate0, s - base)
    ensures s == |src| || src[s] != src[s - (base - candidate0)]
  {
    var candidate := candidate0 + 4;
    s := base + 4;
    while s < |src|
      invariant base + 4 <= s <= |src| && s - candidate == base - candidate0
      invariant IsMatch(src, base, base - candidate0, s - base)
    {
      if src[s] != src[candidate] { break; }
      candidate := candidate + 1;
      s := s + 1;
    }
  }

  /** The decision tree: pending literals and the match; `None` when the output would grow too long. */
  method EmitMatch(head: seq<Byte>, dst0: seq<Byte>, src: seq<Byte>, nextEmit: nat, base: nat, s: nat, offset: nat,
                   repeat: nat, dstLimit: int, ghost body: seq<Byte>)
    returns (r: Option<seq<Byte>>, ghost body': seq<Byte>)
    requires dst0 == head + body && dstLimit == |head| + |src| - 11 && |src| <= MAX_BLOCK_SIZE
    requires Going(src, body, nextEmit, repeat, |src| - 11)
    requires nextEmit <= base && base + 4 <= s && IsMatch(src, base, offset, s - base) && offset <= MAX_COPY3_OFFSET
    ensures r.Some? ==> r.value == head + body' && Encoded(body', src, s, offset) && |body'| <= |src|
    ensures r.None? ==> nextEmit < base && |dst0| + base - nextEmit > dstLimit
    ensures r.Some? && offset == repeat && offset < 64 ==>
              |body'| == |body| + LitSize(base - nextEmit) + HeaderSize(s - base)
  {
    hide Encoded; hide LiteralBytes; hide RepeatBytes; hide Copy1Bytes; hide Copy2Bytes; hide Copy3Bytes;
    hide Lits2Bytes; hide Lits3Bytes;
    var length, dst := s - base, dst0;
    var literals := src[nextEmit..base];
    Sizes(literals, offset, length);
    Sizes([], offset, length);
    SmallSizes(literals, offset, length);
    body' := body;
    if nextEmit != base {
      var canFuse := (|literals| <= 3 || (offset <= 65535 + 64 && |literals| <= 4)) && offset >= 64;
      if canFuse {
        if offset <= 65535 + 64 {
          dst := EmitCopyLits2(dst, literals, offset, length);
          body' := body + Lits2Bytes(literals, offset, length);
          AfterFused2(body, src, nextEmit, base, repeat, offset, length);
        } else {
          dst := EmitCopy3(dst, offset, length, literals);
          body' := body + Lits3Bytes(literals, offset, length);
          AfterFused3(body, src, nextEmit, base, repeat, offset, length);
        }
        return Some(dst), body';
      }
      if |dst| + |literals| > dstLimit { return None, body'; }
      dst := EmitLiterals(dst, literals);
      body' := body + LiteralBytes(literals);
      AfterLiteral(body, src, nextEmit, base, repeat);
    }
    ghost var b1 := body';
    if offset == repeat {
      dst := EmitRepeat(dst, length);
      body' := b1 + RepeatBytes(length);
      AfterRepeat(b1, src, base, repeat, length);
    } else if offset <= 1024 {
      dst := EmitCopy1(dst, offset, length);
      body' := b1 + Copy1Bytes(offset, length);
      AfterCopy1(b1, src, base, repeat, offset, length);
    } else if offset <= 65535 + 64 {
      dst := EmitCopy2(dst, offset, length);
      body' := b1 + Copy2Bytes(offset, length);
      AfterCopy2(b1, src, base, repeat, offset, length);
    } else {
      dst := EmitCopy3(dst, offset, length, []);
      body' := b1 + Lits3Bytes([], offset, length);
      AfterFused3(b1, src, base, base, repeat, offset, length);
      assert src[base..base] == [];
    }
    return Some(dst), body';
  }

  /** The worst last operation: a literal header of 4 and a copy of 7, or a fused 3 + 4 + 4. */
  lemma SmallSizes(lits: seq<Byte>, offset: nat, length: nat)
    requires offset >= 1 && length >= 4
    ensures |LiteralBytes(lits)| <= |lits| + 4 && |RepeatBytes(length)| <= 4 && |Copy1Bytes(offset, length)| <= 6
    ensures offset >= MIN_COPY2_OFFSET ==> |Copy2Bytes(offset, length)| <= 6
    ensures offset >= MIN_COPY2_OFFSET && 1 <= |lits| <= 4 ==> |Lits2Bytes(lits, offset, length)| <= 11
    ensures offset >= MIN_COPY3_OFFSET && |lits| <= 3 ==> |Lits3Bytes(lits, offset, length)| <= 10
    ensures offset >= MIN_COPY3_OFFSET ==> |Lits3Bytes([], offset, length)| <= 7
  {
    hide Low; hide Copy3Word;
  }

  /** Index every position of the match. */
  method IndexMatch(src: seq<Byte>, table: array<nat>, hash: Word -> nat, base0: nat, s: nat)
    requires HashInto(hash, table.Length) && base0 < s && s + 4 <= |src| && Below(table, s)
    modifies table
    ensures Below(table, s)
  {
    var base := base0 + 1;
    while base < s
      invariant base <= s && Below(table, s)
    {
      var h := hash(src[base..base + 4]);
      table[h] := base;
      base := base + 1;
    }
  }

  /** `emitRemainder`. */
  method EmitRemainder(head: seq<Byte>, dst: seq<Byte>, src: seq<Byte>, nextEmit: nat, dstLimit: int,
                       ghost body: seq<Byte>, ghost repeat: nat) returns (r: Option<seq<Byte>>)
    requires dst == head + body && dstLimit == |head| + |src| - 11 && |src| <= MAX_BLOCK_SIZE
    requires nextEmit <= |src| && |body| <= |src| && Encoded(body, src, nextEmit, repeat)
    ensures r.Some? ==>
              && |head| <= |r.value| <= |head| + |src| && r.value[..|head|] == head
              && DecodeBody(r.value[|head|..], |src|) == Some(src)
    ensures nextEmit == |src| ==> r == Some(dst)
  {
    hide Encoded; hide LiteralBytes;
    if nextEmit < |src| {
      if |dst| + |src| - nextEmit > dstLimit { return None; }
      SmallSizes(src[nextEmit..], 1, 4);
      AfterLiteral(body, src, nextEmit, |src|, repeat);
      assert src[nextEmit..|src|] == src[nextEmit..];
      var res := EmitLiterals(dst, src[nextEmit..]);
      assert res[|head|..] == body + LiteralBytes(src[nextEmit..]);
      EncodedDecodes(res[|head|..], src, repeat);
      return Some(res);
    }
    EncodedDecodes(body, src, repeat);
    assert dst[|head|..] == body;
    return Some(dst);
  }

  /**
   `encodeBlock`: `dst0` holds the block header. A result other than nil appends a body that decodes
   to `src` and is no longer than it.
   */
  method EncodeBody(dst0: seq<Byte>, src: seq<Byte>, hash: Word -> nat) returns (r: Option<seq<Byte>>)
    requires 16 < |src| <= MAX_BLOCK_SIZE && HashInto(hash, 65536)
    ensures r.Some? ==>
              && |dst0| <= |r.value| <= |dst0| + |src| && r.value[..|dst0|] == dst0
              && DecodeBody(r.value[|dst0|..], |src|) == Some(src)
    ensures Uniform(src) ==> r.Some? && 3 <= |r.value| - |dst0| <= 6
  {
    hide Encoded; hide Uniform;
    var table := new nat[65536](_ => 0);
    var sLimit := |src| - 4;
    var dst, dstLimit := dst0, |src| + |dst0| - 11;
    var nextEmit: nat, s: nat, repeat: nat := 0, 1, 1;
    ghost var body: seq<Byte> := [];
    StartEncoded(src);
    while true
      invariant dst == dst0 + body && nextEmit <= s <= |src| && 1 <= repeat
      invariant Going(src, body, nextEmit, repeat, |src| - 11)
      invariant Below(table, s)
      invariant Uniform(src) ==> body == [] && s == 1 && nextEmit == 0 && repeat == 1 && Zeros(table)
      decreases |src| - s
    {
      var found, candidate;
      found, s, candidate := Search(src, table, hash, s);
      if !found { break; }
      WordsMatch(src, s, candidate, 4);
      var base, offset := s, s - candidate;
      s := Extend(src, base, candidate);
      if Uniform(src) { UniformEnd(src, s, offset); }
      var d;
      d, body := EmitMatch(dst0, dst, src, nextEmit, base, s, offset, repeat, dstLimit, body);
      if d.None? { return None; }
      dst := d.value;
      repeat, nextEmit := offset, s;
      if s > sLimit { break; }
      if |dst| > dstLimit { return None; }
      IndexMatch(src, table, hash, base, s);
    }
    r := EmitRemainder(dst0, dst, src, nextEmit, dstLimit, body, repeat);
  }

  lemma StartEncoded(src: seq<Byte>)
    requires 16 < |src| <= MAX_BLOCK_SIZE
    ensures Encoded([], src, 0, 1)
  {
  }
}
