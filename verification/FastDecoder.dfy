/**
 decode.go, `minLZDecodeGo`: the two-phase decoder that works in place on `dst`.

 While at least 11 bytes of input are left the margin loop reads headers without checking and stores
 fused literals four at a time; the tail loop finishes with a check before each read.
 */
module FastDecoder {
  import opened Bytes
  import opened Format

  const MIN_COPY2_OFFSET := 64
  const MIN_COPY3_OFFSET := 65536

  lemma ShiftedLoad(b: seq<Byte>, i: nat)
    requires i + 4 <= |b|
    ensures Load32(b, i) / 256 == Load24(b, i + 1)
  {
    assert Load32(b, i) == Load8(b, i) + 256 * Load24(b, i + 1);
  }

  /** The low 24 bits of a loaded word, where the fused form keeps its fields. */
  lemma FusedFields(b: seq<Byte>, s: nat)
    requires s + 4 <= |b|
    ensures var val := Load32(b, s);
            && val % 4 == Load8(b, s) % 4 && val / 4 % 2 == Load8(b, s) / 4 % 2
            && val / 8 % 4 == Load8(b, s) / 8 % 4 && val / 32 % 8 == Load8(b, s) / 32
            && val / 256 % 65536 == Load16(b, s + 1)
  {
    ShiftedLoad(b, s);
    var v0, w := Load8(b, s), Load24(b, s + 1);
    assert Load32(b, s) == v0 + 256 * w;
    FusedArithmetic(v0, w);
    assert w == Load16(b, s + 1) + 65536 * Load8(b, s + 3);
  }

  lemma FusedArithmetic(v0: nat, w: nat)
    requires v0 < 256
    ensures var val := v0 + 256 * w;
            && val % 4 == v0 % 4 && val / 4 % 2 == v0 / 4 % 2 && val / 8 % 4 == v0 / 8 % 4
            && val / 32 % 8 == v0 / 32
  {
    QuotientOfSum(v0, 64 * w, 4);
    QuotientOfSum(v0 / 4, 32 * w, 2);
    QuotientOfSum(v0, 32 * w, 8);
    QuotientOfSum(v0 / 8, 8 * w, 4);
    QuotientOfSum(v0, 8 * w, 32);
    QuotientOfSum(v0 / 32, w, 8);
  }

  /**
   The copy of one match: the built-in copy when the ranges do not overlap, byte by byte otherwise.
   Either way the result is the forward copy of the format.
   */
  method CopyMatch(dst: array<Byte>, d: nat, offset: nat, length: nat)
    requires 1 <= offset <= d && d + length <= dst.Length
    modifies dst
    ensures dst[..d + length] == CopyBack(old(dst[..d]), offset, length)
  {
    if offset > length {
      forall i | 0 <= i < length {
        dst[d + i] := dst[d - offset + i];
      }
    } else {
      for i := 0 to length
        invariant dst[..d] == old(dst[..d])
        invariant forall k :: d <= k < d + i ==> dst[k] == dst[k - offset]
      {
        dst[d + i] := dst[d - offset + i];
      }
    }
    assert dst[..d + length][..d] == old(dst[..d]);
    CopyBackUnique(old(dst[..d]), offset, length, dst[..d + length]);
  }

  /** `docopy`: the offset and length check, then the copy. */
  method DoCopy(dst: array<Byte>, d: nat, offset: nat, length: nat, ghost s: nat) returns (ok: bool, d': nat)
    requires 1 <= offset && d <= dst.Length
    modifies dst
    ensures ok ==> d' == d + length <= dst.Length
    ensures StepCopy(s, old(dst[..d]), offset, length, dst.Length)
         == if ok then Next(s, State(dst[..d'], offset)) else Fail
  {
    if d < offset || length > dst.Length - d { return false, d; }
    CopyMatch(dst, d, offset, length);
    return true, d + length;
  }

  // ---------- margin loop ----------

  method MarginLiteralLength(src: seq<Byte>, s0: nat) returns (length: nat, s: nat)
    requires s0 + 11 < |src|
    ensures ParseLength(src, s0) == Some((length, s - s0)) && s0 < s <= s0 + 4
  {
    s := s0;
    var x := Load8(src, s) / 8;
    if x < 29 {
      s := s + 1;
      length := x + 1;
    } else if x == 29 {
      length := 30 + Load8(src, s + 1);
      s := s + 2;
    } else if x == 30 {
      length := 30 + Load16(src, s + 1);
      s := s + 3;
    } else {
      ShiftedLoad(src, s);
      length := 30 + Load32(src, s) / 256;
      s := s + 4;
    }
  }

  method MarginCopy1(src: seq<Byte>, s0: nat) returns (offset: nat, length: nat, s: nat)
    requires s0 + 11 < |src|
    ensures s0 < s && ParseCopy1(src, s0) == Parsed(Copy(0, offset, length), s - s0)
  {
    s := s0;
    length := Load8(src, s) / 4 % 16;
    offset := Load16(src, s) / 64 + 1;
    if length == 15 {
      length := Load8(src, s + 2) + 18;
      s := s + 3;
    } else {
      length := length + 4;
      s := s + 2;
    }
  }

  method MarginCopy2(src: seq<Byte>, s0: nat) returns (offset: nat, length: nat, s: nat)
    requires s0 + 11 < |src|
    ensures s0 < s && ParseCopy2(src, s0) == Parsed(Copy(0, offset, length), s - s0)
  {
    s := s0;
    length := Load8(src, s) / 4;
    offset := Load16(src, s + 1);
    if length <= 60 {
      length := length + 4;
      s := s + 3;
    } else if length == 61 {
      length := Load8(src, s + 3) + 64;
      s := s + 4;
    } else if length == 62 {
      length := Load16(src, s + 3) + 64;
      s := s + 5;
    } else {
      ShiftedLoad(src, s + 2);
      length := Load32(src, s + 2) / 256 + 64;
      s := s + 6;
    }
    offset := offset + MIN_COPY2_OFFSET;
  }

  method MarginFused(src: seq<Byte>, s0: nat) returns (litLen: nat, offset: nat, length: nat, s: nat)
    requires s0 + 11 < |src| && Load8(src, s0) % 4 == 3
    ensures s0 < s <= s0 + 7 && litLen <= 4 && length >= 4
    ensures ParseOp(src, s0) == Parsed(Copy(litLen, offset, length), s - s0)
  {
    s := s0;
    var val := Load32(src, s);
    FusedFields(src, s);
    var isCopy3 := val / 4 % 2 != 0;
    litLen := val / 8 % 4;
    if !isCopy3 {
      length := 4 + val / 32 % 8;
      offset := val / 256 % 65536 + MIN_COPY2_OFFSET;
      s := s + 3;
      litLen := litLen + 1;
    } else {
      var lengthTmp := val / 32 % 64;
      offset := val / 2048 + MIN_COPY3_OFFSET;
      if lengthTmp < 61 {
        length := lengthTmp + 4;
        s := s + 4;
      } else if lengthTmp == 61 {
        length := Load8(src, s + 4) + 64;
        s := s + 5;
      } else if lengthTmp == 62 {
        length := Load16(src, s + 4) + 64;
        s := s + 6;
      } else {
        ShiftedLoad(src, s + 3);
        length := Load32(src, s + 3) / 256 + 64;
        s := s + 7;
      }
    }
  }

  /**
   The four byte store of up to four literals. Bytes past `d + litLen` are garbage until the copy
   that follows overwrites them.
   */
  method StoreLits(dst: array<Byte>, d: nat, src: seq<Byte>, s: nat, litLen: nat)
    requires litLen <= 4 && s + 4 <= |src| && d + 4 <= dst.Length
    modifies dst
    ensures dst[..d + litLen] == old(dst[..d]) + src[s..s + litLen]
  {
    dst[d], dst[d + 1], dst[d + 2], dst[d + 3] := src[s], src[s + 1], src[s + 2], src[s + 3];
  }

  method CopyLiterals(dst: array<Byte>, d: nat, src: seq<Byte>, s: nat, length: nat)
    requires d + length <= dst.Length && s + length <= |src|
    modifies dst
    ensures dst[..d + length] == old(dst[..d]) + src[s..s + length]
  {
    forall i | 0 <= i < length {
      dst[d + i] := src[s + i];
    }
  }

  ghost predicate Stepwise(src: seq<Byte>, s: nat, st: State, n: nat, ok: bool, s': nat, st': State)
    requires s < |src|
  {
    Step(src, s, st, n) == if ok then Next(s', st') else Fail
  }

  /** What a parsed copy does, whatever the repeat offset was. */
  lemma StepOfCopy(src: seq<Byte>, s: nat, out: seq<Byte>, n: nat)
    requires s < |src| && (ParseOp(src, s).Bad? || ParseOp(src, s).op.Copy?)
    ensures ParseOp(src, s).Bad? ==> forall any: nat :: Step(src, s, State(out, any), n) == Fail
    ensures ParseOp(src, s).Parsed? ==>
              var Parsed(op, size) := ParseOp(src, s);
              var e := s + size;
              forall any: nat :: Step(src, s, State(out, any), n) ==
                if e + op.lits <= |src| && |out| + op.lits <= n
                then StepCopy(e + op.lits, out + src[e..e + op.lits], op.offset, op.length, n)
                else Fail
  {
  }

  /** One pass of the margin loop for tag 0. */
  method MarginLiteral(dst: array<Byte>, src: seq<Byte>, s0: nat, d0: nat, offset: nat)
    returns (ok: bool, s: nat, d: nat)
    requires s0 + 11 < |src| && d0 <= dst.Length && offset >= 1 && Load8(src, s0) % 4 == 0
    modifies dst
    ensures ok ==> d <= dst.Length
    ensures Stepwise(src, s0, State(old(dst[..d0]), offset), dst.Length, ok, s,
                     State(dst[..if ok then d else 0], offset))
  {
    var length;
    d := d0;
    length, s := MarginLiteralLength(src, s0);
    if Load8(src, s0) / 4 % 2 != 0 {
      ok, d := DoCopy(dst, d, offset, length, s);
    } else if length > dst.Length - d || length > |src| - s {
      ok := false;
    } else {
      CopyLiterals(dst, d, src, s, length);
      ok, d, s := true, d + length, s + length;
    }
  }

  method MarginCopyHeader(src: seq<Byte>, s0: nat) returns (litLen: nat, offset: nat, length: nat, s: nat)
    requires s0 + 11 < |src| && Load8(src, s0) % 4 != 0
    ensures s0 < s && offset >= 1 && length >= 4 && litLen <= 4 && s + litLen <= |src|
    ensures ParseOp(src, s0) == Parsed(Copy(litLen, offset, length), s - s0)
    ensures litLen > 0 ==> s + 4 <= |src|
  {
    litLen := 0;
    var tag := Load8(src, s0) % 4;
    if tag == 1 {
      offset, length, s := MarginCopy1(src, s0);
    } else if tag == 2 {
      offset, length, s := MarginCopy2(src, s0);
    } else {
      litLen, offset, length, s := MarginFused(src, s0);
    }
    ParseOpBounds(src, s0);
  }

  /** One pass of the margin loop for tags 1 to 3. */
  method MarginCopy(dst: array<Byte>, src: seq<Byte>, s0: nat, d0: nat)
    returns (ok: bool, s: nat, d: nat, offset: nat)
    requires s0 + 11 < |src| && d0 <= dst.Length && Load8(src, s0) % 4 != 0
    modifies dst
    ensures ok ==> d <= dst.Length && offset >= 1
    ensures forall any: nat :: Stepwise(src, s0, State(old(dst[..d0]), any), dst.Length, ok, s,
                                        State(dst[..if ok then d else 0], offset))
  {
    hide ParseOp;
    var litLen, length;
    d := d0;
    litLen, offset, length, s := MarginCopyHeader(src, s0);
    StepOfCopy(src, s0, dst[..d], dst.Length);
    ghost var out := dst[..d];
    if litLen > 0 {
      if dst.Length - d < 4 { return false, s, d, offset; }
      StoreLits(dst, d, src, s, litLen);
      s, d := s + litLen, d + litLen;
    }
    assert dst[..d] == out + src[s - litLen..s];
    ok, d := DoCopy(dst, d, offset, length, s);
  }

  // ---------- tail loop ----------

  method TailLiteralLength(src: seq<Byte>, s0: nat) returns (ok: bool, length: nat, s: nat)
    requires s0 < |src|
    ensures ParseLength(src, s0) == if ok then Some((length, s - s0)) else None
    ensures ok ==> s0 < s <= |src|
  {
    s, length, ok := s0, 0, true;
    var x := Load8(src, s) / 8;
    if x < 29 {
      s := s + 1;
      length := x + 1;
    } else if x == 29 {
      s := s + 2;
      if s > |src| { return false, length, s; }
      length := Load8(src, s - 1) + 30;
    } else if x == 30 {
      s := s + 3;
      if s > |src| { return false, length, s; }
      length := Load8(src, s - 2) + 256 * Load8(src, s - 1) + 30;
    } else {
      s := s + 4;
      if s > |src| { return false, length, s; }
      length := Load8(src, s - 3) + 256 * Load8(src, s - 2) + 65536 * Load8(src, s - 1) + 30;
    }
  }

  method TailCopy1(src: seq<Byte>, s0: nat) returns (ok: bool, offset: nat, length: nat, s: nat)
    requires s0 < |src|
    ensures ok ==> s0 < s <= |src|
    ensures ParseCopy1(src, s0) == if ok then Parsed(Copy(0, offset, length), s - s0) else Bad
  {
    offset, length := 0, 0;
    s := s0 + 2;
    if s > |src| { return false, offset, length, s; }
    length := Load8(src, s - 2) / 4 % 16;
    offset := Load16(src, s - 2) / 64 + 1;
    if length == 15 {
      s := s + 1;
      if s > |src| { return false, offset, length, s; }
      length := Load8(src, s - 1) + 18;
    } else {
      length := length + 4;
    }
    ok := true;
  }

  /** The length extension shared by copy2 and copy3: `s` is already past the fixed part. */
  method TailCopyLength(src: seq<Byte>, s0: nat, field: nat) returns (ok: bool, length: nat, s: nat)
    requires s0 <= |src| && field < 64
    ensures ParseCopyLength(src, field, s0) == if ok then Some((length, s - s0)) else None
    ensures ok ==> s0 <= s <= |src|
  {
    s, length, ok := s0, 0, true;
    if field <= 60 {
      length := field + 4;
    } else if field == 61 {
      s := s + 1;
      if s > |src| { return false, length, s; }
      length := Load8(src, s - 1) + 64;
    } else if field == 62 {
      s := s + 2;
      if s > |src| { return false, length, s; }
      length := Load8(src, s - 2) + 256 * Load8(src, s - 1) + 64;
    } else {
      s := s + 3;
      if s > |src| { return false, length, s; }
      length := Load8(src, s - 3) + 256 * Load8(src, s - 2) + 65536 * Load8(src, s - 1) + 64;
    }
  }

  method TailCopy2(src: seq<Byte>, s0: nat) returns (ok: bool, offset: nat, length: nat, s: nat)
    requires s0 < |src|
    ensures ok ==> s0 < s <= |src|
    ensures ParseCopy2(src, s0) == if ok then Parsed(Copy(0, offset, length), s - s0) else Bad
  {
    offset, length := 0, 0;
    s := s0 + 3;
    if s > |src| { return false, offset, length, s; }
    offset := Load8(src, s - 2) + 256 * Load8(src, s - 1);
    ok, length, s := TailCopyLength(src, s, Load8(src, s - 3) / 4);
    offset := offset + MIN_COPY2_OFFSET;
  }

  /** Four bytes are demanded even of the three byte fused form: one literal always follows it. */
  method TailFused(src: seq<Byte>, s0: nat) returns (ok: bool, litLen: nat, offset: nat, length: nat, s: nat)
    requires s0 < |src| && Load8(src, s0) % 4 == 3
    ensures ok ==> s0 < s <= |src| && ParseOp(src, s0) == Parsed(Copy(litLen, offset, length), s - s0)
    ensures !ok && ParseOp(src, s0).Parsed? ==>
              ParseOp(src, s0).op.Copy? && s0 + ParseOp(src, s0).size + ParseOp(src, s0).op.lits > |src|
  {
    litLen, offset, length := 0, 0, 0;
    s := s0 + 4;
    if s > |src| { return false, litLen, offset, length, s; }
    var val := Load32(src, s - 4);
    FusedFields(src, s0);
    var isCopy3 := val / 4 % 2 != 0;
    litLen := val / 8 % 4;
    if !isCopy3 {
      length := 4 + val / 32 % 8;
      offset := val / 256 % 65536 + MIN_COPY2_OFFSET;
      s := s - 1;
      litLen := litLen + 1;
      ok := true;
    } else {
      offset := val / 2048 + MIN_COPY3_OFFSET;
      ok, length, s := TailCopyLength(src, s, val / 32 % 64);
    }
  }

  /** One pass of the tail loop for tag 0. */
  method TailLiteral(dst: array<Byte>, src: seq<Byte>, s0: nat, d0: nat, offset: nat)
    returns (ok: bool, s: nat, d: nat)
    requires s0 < |src| && d0 <= dst.Length && offset >= 1 && Load8(src, s0) % 4 == 0
    modifies dst
    ensures ok ==> d <= dst.Length
    ensures Stepwise(src, s0, State(old(dst[..d0]), offset), dst.Length, ok, s,
                     State(dst[..if ok then d else 0], offset))
  {
    var length;
    d := d0;
    ok, length, s := TailLiteralLength(src, s0);
    if !ok { return; }
    if Load8(src, s0) / 4 % 2 != 0 {
      ok, d := DoCopy(dst, d, offset, length, s);
    } else if length > dst.Length - d || length > |src| - s {
      ok := false;
    } else {
      CopyLiterals(dst, d, src, s, length);
      ok, d, s := true, d + length, s + length;
    }
  }

  method TailCopyHeader(src: seq<Byte>, s0: nat)
    returns (ok: bool, litLen: nat, offset: nat, length: nat, s: nat)
    requires s0 < |src| && Load8(src, s0) % 4 != 0
    ensures ok ==> s0 < s <= |src| && offset >= 1
    ensures ok ==> ParseOp(src, s0) == Parsed(Copy(litLen, offset, length), s - s0)
    ensures !ok && ParseOp(src, s0).Parsed? ==>
              ParseOp(src, s0).op.Copy? && s0 + ParseOp(src, s0).size + ParseOp(src, s0).op.lits > |src|
  {
    litLen := 0;
    var tag := Load8(src, s0) % 4;
    if tag == 1 {
      ok, offset, length, s := TailCopy1(src, s0);
    } else if tag == 2 {
      ok, offset, length, s := TailCopy2(src, s0);
    } else {
      ok, litLen, offset, length, s := TailFused(src, s0);
    }
    if ok { ParseOpBounds(src, s0); }
  }

  /** One pass of the tail loop for tags 1 to 3. */
  method TailCopy(dst: array<Byte>, src: seq<Byte>, s0: nat, d0: nat)
    returns (ok: bool, s: nat, d: nat, offset: nat)
    requires s0 < |src| && d0 <= dst.Length && Load8(src, s0) % 4 != 0
    modifies dst
    ensures ok ==> d <= dst.Length && offset >= 1
    ensures forall any: nat :: Stepwise(src, s0, State(old(dst[..d0]), any), dst.Length, ok, s,
                                        State(dst[..if ok then d else 0], offset))
  {
    hide ParseOp;
    var litLen, length;
    d := d0;
    ok, litLen, offset, length, s := TailCopyHeader(src, s0);
    StepOfCopy(src, s0, dst[..d], dst.Length);
    if !ok { return; }
    ghost var out := dst[..d];
    if litLen > 0 {
      if litLen > dst.Length - d || s + litLen > |src| { return false, s, d, offset; }
      CopyLiterals(dst, d, src, s, litLen);
      s, d := s + litLen, d + litLen;
    }
    assert dst[..d] == out + src[s - litLen..s];
    ok, d := DoCopy(dst, d, offset, length, s);
  }

  // ---------- the decoder ----------

  /**
   `minLZDecodeGo`. It returns 0 exactly when the format says the body decodes into `dst.Length`
   bytes, and then `dst` holds that output.
   */
  method MinLZDecode(dst: array<Byte>, src: seq<Byte>) returns (code: nat)
    modifies dst
    ensures code == 0 <==> DecodeBody(src, dst.Length).Some?
    ensures code == 0 ==> DecodeBody(src, dst.Length) == Some(dst[..])
  {
    var d: nat, s: nat, offset: nat, ok := 0, 0, 1, true;
    while s + 11 < |src|
      invariant s <= |src| && d <= dst.Length && offset >= 1
      invariant Run(src, 0, INITIAL, dst.Length) == Run(src, s, State(dst[..d], offset), dst.Length)
    {
      ghost var st := State(dst[..d], offset);
      if Load8(src, s) % 4 == 0 {
        var s';
        ok, s', d := MarginLiteral(dst, src, s, d, offset);
        if !ok { return 1; }
        StepAdvances(src, s, st, dst.Length);
        s := s';
      } else {
        var s';
        ok, s', d, offset := MarginCopy(dst, src, s, d);
        assert Stepwise(src, s, State(st.out, st.offset), dst.Length, ok, s',
                        State(dst[..if ok then d else 0], offset));
        if !ok { return 1; }
        StepAdvances(src, s, st, dst.Length);
        s := s';
      }
    }
    while s < |src|
      invariant s <= |src| && d <= dst.Length && offset >= 1
      invariant Run(src, 0, INITIAL, dst.Length) == Run(src, s, State(dst[..d], offset), dst.Length)
    {
      ghost var st := State(dst[..d], offset);
      if Load8(src, s) % 4 == 0 {
        var s';
        ok, s', d := TailLiteral(dst, src, s, d, offset);
        if !ok { return 1; }
        StepAdvances(src, s, st, dst.Length);
        s := s';
      } else {
        var s';
        ok, s', d, offset := TailCopy(dst, src, s, d);
        assert Stepwise(src, s, State(st.out, st.offset), dst.Length, ok, s',
                        State(dst[..if ok then d else 0], offset));
        if !ok { return 1; }
        StepAdvances(src, s, st, dst.Length);
        s := s';
      }
    }
    if d != dst.Length { return 1; }
    assert dst[..d] == dst[..];
    return 0;
  }
}
