/**
 internal/reference/decoder.go: the append-only decoder, operation by operation.

 The slice `src` that the Go closures shorten is modelled by the whole body `b` and the position
 `s` of its first unread byte.
 */
module ReferenceDecoder {
  import opened Bytes
  import opened Format

  method ReadOne(b: seq<Byte>, s: nat) returns (v: nat, ok: bool, s': nat)
    requires s <= |b|
    ensures ok == (s + 1 <= |b|)
    ensures if ok then s' == s + 1 && v == Load8(b, s) else s' == s
  {
    if |b| - s >= 1 { return Load8(b, s), true, s + 1; }
    return 0, false, s;
  }

  method ReadTwo(b: seq<Byte>, s: nat) returns (v: nat, ok: bool, s': nat)
    requires s <= |b|
    ensures ok == (s + 2 <= |b|)
    ensures if ok then s' == s + 2 && v == Load16(b, s) else s' == s
  {
    if |b| - s >= 2 { return Load8(b, s) + 256 * Load8(b, s + 1), true, s + 2; }
    return 0, false, s;
  }

  method ReadThree(b: seq<Byte>, s: nat) returns (v: nat, ok: bool, s': nat)
    requires s <= |b|
    ensures ok == (s + 3 <= |b|)
    ensures if ok then s' == s + 3 && v == Load24(b, s) else s' == s
  {
    if |b| - s >= 3 { return Load8(b, s) + 256 * Load8(b, s + 1) + 65536 * Load8(b, s + 2), true, s + 3; }
    return 0, false, s;
  }

  method ReadN(b: seq<Byte>, s: nat, n: nat) returns (v: seq<Byte>, ok: bool, s': nat)
    requires s <= |b|
    ensures ok == (s + n <= |b|)
    ensures if ok then s' == s + n && v == b[s..s + n] else s' == s
  {
    if |b| - s >= n { return b[s..s + n], true, s + n; }
    return [], false, s;
  }

  /** `checkDstSize`: the limit is strict for one operation, inclusive for the total. */
  predicate CheckDstSize(n: nat, dst: seq<Byte>, wantSize: nat) {
    n < MAX_BLOCK_SIZE && |dst| + n <= wantSize
  }

  /** Case 0 of the switch: the length of a literal run or a repeat, `s` being after the tag. */
  method LiteralLength(b: seq<Byte>, s: nat, value: nat) returns (length: nat, ok: bool, s': nat)
    requires 1 <= s <= |b| && value == Load8(b, s - 1) / 8
    ensures ok == ParseLength(b, s - 1).Some?
    ensures ok ==> ParseLength(b, s - 1) == Some((length, s' - (s - 1))) && s <= s' <= |b|
  {
    length, ok, s' := 0, true, s;
    if value < 29 {
      length := value + 1;
    } else if value == 29 {
      length, ok, s' := ReadOne(b, s);
      length := length + 30;
    } else if value == 30 {
      length, ok, s' := ReadTwo(b, s);
      length := length + 30;
    } else {
      length, ok, s' := ReadThree(b, s);
      length := length + 30;
    }
  }

  /** The length switch shared by cases 2 and 3. */
  method CopyLength(b: seq<Byte>, s: nat, value: nat) returns (length: nat, ok: bool, s': nat)
    requires s <= |b| && value < 64
    ensures ok == ParseCopyLength(b, value, s).Some?
    ensures ok ==> ParseCopyLength(b, value, s) == Some((length, s' - s)) && s <= s' <= |b|
  {
    length, ok, s' := 0, true, s;
    if value < 61 {
      length := value + 4;
    } else if value == 61 {
      length, ok, s' := ReadOne(b, s);
      length := length + 64;
    } else if value == 62 {
      length, ok, s' := ReadTwo(b, s);
      length := length + 64;
    } else {
      length, ok, s' := ReadThree(b, s);
      length := length + 64;
    }
  }

  /** Case 1 of the switch. */
  method Copy1Header(b: seq<Byte>, t: nat) returns (ok: bool, offset: nat, length: nat, s: nat)
    requires t < |b|
    ensures ok == ParseCopy1(b, t).Parsed?
    ensures ok ==> t < s <= |b| && ParseCopy1(b, t) == Parsed(Copy(0, offset, length), s - t)
  {
    var value := Load8(b, t) / 4;
    s := t + 1;
    length := value % 16;
    offset, ok, s := ReadOne(b, s);
    if !ok { return; }
    offset := offset * 4 + value / 16;
    if length == 15 {
      length, ok, s := ReadOne(b, s);
      if !ok { return; }
      length := length + 18;
    } else {
      length := length + 4;
    }
    offset := offset + 1;
  }

  /** Case 2 of the switch. */
  method Copy2Header(b: seq<Byte>, t: nat) returns (ok: bool, offset: nat, length: nat, s: nat)
    requires t < |b|
    ensures ok == ParseCopy2(b, t).Parsed?
    ensures ok ==> t < s <= |b| && ParseCopy2(b, t) == Parsed(Copy(0, offset, length), s - t)
  {
    var value := Load8(b, t) / 4;
    s, length := t + 1, 0;
    offset, ok, s := ReadTwo(b, s);
    if !ok { return; }
    length, ok, s := CopyLength(b, s, value);
    offset := offset + 64;
  }

  lemma WordFields(v0: nat, w: nat, x: nat, value: nat)
    requires v0 < 256 && x == v0 + 256 * w && value == v0 / 4 + 64 * w
    ensures value / 512 == x / 2048
    ensures value / 8 % 64 == x / 32 % 64
    ensures v0 / 8 % 4 == x / 8 % 4
  {
    QuotientOfSum(v0, 64 * w, 4);
    assert value == x / 4;
    assert value / 512 == x / 2048 && value / 8 == x / 32;
    QuotientOfSum(v0, 32 * w, 8);
    QuotientOfSum(v0 / 8, 8 * w, 4);
  }

  /** Merging the tag's six bits with the next three bytes gives the fields of the 32 bit word. */
  lemma MergedValue(b: seq<Byte>, t: nat)
    requires t + 4 <= |b|
    ensures var value := Load8(b, t) / 4 + Load24(b, t + 1) * 64;
            && value / 512 == Load32(b, t) / 2048
            && value / 8 % 64 == Load32(b, t) / 32 % 64
    ensures Load8(b, t) / 8 % 4 == Load32(b, t) / 8 % 4
  {
    var w := Load24(b, t + 1);
    assert Load32(b, t) == Load8(b, t) + 256 * w;
    WordFields(Load8(b, t), w, Load32(b, t), Load8(b, t) / 4 + w * 64);
  }

  /** Case 3 of the switch. */
  method Copy3Header(b: seq<Byte>, t: nat) returns (ok: bool, litLen: nat, offset: nat, length: nat, s: nat)
    requires t < |b|
    ensures ok == (if Load8(b, t) / 4 % 2 == 0 then ParseFused2(b, t) else ParseCopy3(b, t)).Parsed?
    ensures ok ==> t < s <= |b|
    ensures ok ==> (if Load8(b, t) / 4 % 2 == 0 then ParseFused2(b, t) else ParseCopy3(b, t))
                   == Parsed(Copy(litLen, offset, length), s - t)
  {
    var value := Load8(b, t) / 4;
    s, length := t + 1, 0;
    var isCopy3 := value % 2 == 1;
    litLen := value / 2 % 4;
    if !isCopy3 {
      offset, ok, s := ReadTwo(b, s);
      if !ok { return; }
      length := value / 8 + 4;
      litLen := litLen + 1;
      offset := offset + 64;
    } else {
      var v2;
      v2, ok, s := ReadThree(b, s);
      offset := 0;
      if !ok { return; }
      MergedValue(b, t);
      value := value + v2 * 64;
      offset := value / 512 + 65536;
      value := value / 8 % 64;
      length, ok, s := CopyLength(b, s, value);
    }
  }

  /** Cases 1 to 3 of the switch, from the tag byte at `t` to the fused literals. */
  method CopyHeader(b: seq<Byte>, t: nat) returns (ok: bool, litLen: nat, offset: nat, length: nat, s: nat)
    requires t < |b| && Load8(b, t) % 4 != 0
    ensures ok == ParseOp(b, t).Parsed?
    ensures ok ==> t < s <= |b| && ParseOp(b, t) == Parsed(Copy(litLen, offset, length), s - t)
  {
    var tag := Load8(b, t) % 4;
    litLen := 0;
    if tag == 1 {
      ok, offset, length, s := Copy1Header(b, t);
    } else if tag == 2 {
      ok, offset, length, s := Copy2Header(b, t);
    } else {
      ok, litLen, offset, length, s := Copy3Header(b, t);
    }
  }

  /** The forward copy loop. */
  method AppendCopy(out: seq<Byte>, offset: nat, length: nat) returns (dst: seq<Byte>)
    requires 1 <= offset <= |out|
    ensures dst == CopyBack(out, offset, length)
  {
    dst := out;
    var inPos := |dst| - offset;
    for i := 0 to length
      invariant |dst| == |out| + i
      invariant CopyBack(out, offset, length) == CopyBack(dst, offset, length - i)
    {
      dst := dst + [dst[inPos + i]];
    }
  }

  /** The end of an operation: the two checks and the copy. */
  method ExecuteCopy(dst: seq<Byte>, s: nat, offset: nat, length: nat, wantSize: nat) returns (r: Stepped)
    requires 1 <= offset && |dst| <= wantSize <= MAX_BLOCK_SIZE
    ensures r == StepCopy(s, dst, offset, length, wantSize)
  {
    if !CheckDstSize(length, dst, wantSize) { return Fail; }
    if offset > |dst| { return Fail; }
    var dst' := AppendCopy(dst, offset, length);
    r := Next(s, State(dst', offset));
  }

  /** One pass of the body loop. */
  method Operation(b: seq<Byte>, t: nat, st: State, wantSize: nat) returns (r: Stepped)
    requires t < |b| <= wantSize <= MAX_BLOCK_SIZE && st.offset >= 1 && |st.out| <= wantSize
    ensures r == Step(b, t, st, wantSize)
    ensures r.Next? ==> r.st.offset >= 1
  {
    hide ParseOp;
    hide ParseLength;
    var ok, length, s;
    if ParseOp(b, t).Parsed? { ParseOpBounds(b, t); }
    if Load8(b, t) % 4 == 0 {
      ParseOpLiteral(b, t);
      var isRepeat := Load8(b, t) / 4 % 2 != 0;
      length, ok, s := LiteralLength(b, t + 1, Load8(b, t) / 8);
      if !ok { return Fail; }
      if isRepeat {
        r := ExecuteCopy(st.out, s, st.offset, length, wantSize);
      } else {
        if !CheckDstSize(length, st.out, wantSize) { return Fail; }
        var input;
        input, ok, s := ReadN(b, s, length);
        if !ok { return Fail; }
        r := Next(s, State(st.out + input, st.offset));
      }
    } else {
      var litLen, offset, dst := 0, 0, st.out;
      ok, litLen, offset, length, s := CopyHeader(b, t);
      if !ok { return Fail; }
      if litLen > 0 {
        var input;
        input, ok, s := ReadN(b, s, litLen);
        if !ok { return Fail; }
        if !CheckDstSize(litLen, dst, wantSize) { return Fail; }
        dst := dst + input;
      } else {
        assert dst == dst + b[s..s];
      }
      r := ExecuteCopy(dst, s, offset, length, wantSize);
    }
  }

  /**
   The body loop of `DecodeBlock`, entered when `len(src) <= wantSize` holds after the header.
   It succeeds exactly when the format says the body decodes, and yields that output.
   */
  method DecodeBodyLoop(b: seq<Byte>, wantSize: nat) returns (res: Option<seq<Byte>>)
    requires 1 <= wantSize <= MAX_BLOCK_SIZE && |b| <= wantSize
    ensures res == DecodeBody(b, wantSize)
  {
    var st := INITIAL;
    var s := 0;
    while s < |b|
      invariant s <= |b| && st.offset >= 1 && |st.out| <= wantSize
      invariant Run(b, 0, INITIAL, wantSize) == Run(b, s, st, wantSize)
    {
      var r := Operation(b, s, st, wantSize);
      if r.Fail? { return None; }
      StepAdvances(b, s, st, wantSize);
      s, st := r.pos, r.st;
    }
    res := if |st.out| != wantSize then None else Some(st.out);
  }
}
