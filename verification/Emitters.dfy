/**
 asm_none.go and encode.go: the emitters that store into `dst`.

 Go passes `dst[d:]`; here the start `d` of that slice is the parameter `at`. Each emitter is proved
 to store exactly the bytes of `Encoding`, starting at `at`, and to return how many there are.
 */
module Emitters {
  import opened Bytes
  import opened Encoding

  /** The longest run `emitLiteral` accepts; beyond it the program panics. */
  const MAX_LITERAL_RUN: nat := 0x100_001D

  method Store8(dst: array<Byte>, i: nat, v: nat)
    requires i < dst.Length
    modifies dst
    ensures dst[..] == old(dst[..])[i := Low(v)]
  {
    dst[i] := Low(v);
  }

  method Store16(dst: array<Byte>, i: nat, v: nat)
    requires i + 2 <= dst.Length
    modifies dst
    ensures dst[..] == old(dst[..])[i := Low(v)][i + 1 := Low(v / 256)]
  {
    dst[i], dst[i + 1] := Low(v), Low(v / 256);
  }

  method Store32(dst: array<Byte>, i: nat, v: nat)
    requires i + 4 <= dst.Length
    modifies dst
    ensures dst[..i] == old(dst[..i]) && dst[i..i + 4] == LE32(v) && dst[i + 4..] == old(dst[i + 4..])
  {
    dst[i], dst[i + 1], dst[i + 2], dst[i + 3] := Low(v), Low(v / 256), Low(v / 65536), Low(v / 0x100_0000);
  }

  /** `copy(dst[at:], lit)`. */
  method CopyInto(dst: array<Byte>, at: nat, lit: seq<Byte>)
    requires at + |lit| <= dst.Length
    modifies dst
    ensures dst[..at + |lit|] == old(dst[..at]) + lit
  {
    forall i | 0 <= i < |lit| {
      dst[at + i] := lit[i];
    }
  }

  /** The switch of `emitLiteral`: the header before the literals. */
  method LiteralHeader(dst: array<Byte>, at: nat, length: nat) returns (i: nat)
    requires 1 <= length <= MAX_LITERAL_RUN && at + |LengthHeader(0, length)| <= dst.Length
    modifies dst
    ensures i == |LengthHeader(0, length)|
    ensures dst[..at + i] == old(dst[..at]) + LengthHeader(0, length)
  {
    hide Low;
    var n := length - 1;
    if n < 29 {
      Store8(dst, at, n * 8);
      i := 1;
    } else if n < 256 + 29 {
      Store8(dst, at + 1, n - 29);
      Store8(dst, at, 29 * 8);
      i := 2;
    } else if n < 65536 + 29 {
      n := n - 29;
      dst[at + 2] := Low(n / 256);
      dst[at + 1] := Low(n);
      dst[at] := Low(30 * 8);
      i := 3;
    } else {
      n := n - 29;
      dst[at + 3] := Low(n / 65536);
      dst[at + 2] := Low(n / 256);
      dst[at + 1] := Low(n);
      dst[at] := Low(31 * 8);
      i := 4;
    }
  }

  method EmitLiteral(dst: array<Byte>, at: nat, lit: seq<Byte>) returns (size: nat)
    requires |lit| <= MAX_LITERAL_RUN && at + |LiteralBytes(lit)| <= dst.Length
    modifies dst
    ensures size == |LiteralBytes(lit)|
    ensures dst[..at + size] == old(dst[..at]) + LiteralBytes(lit)
  {
    hide LengthHeader;
    if |lit| == 0 {
      return 0;
    }
    var i := LiteralHeader(dst, at, |lit|);
    CopyInto(dst, at + i, lit);
    return i + |lit|;
  }

  method EmitRepeat(dst: array<Byte>, at: nat, length0: nat) returns (size: nat)
    requires 1 <= length0 && at + |RepeatBytes(length0)| <= dst.Length
    modifies dst
    ensures size == |RepeatBytes(length0)|
    ensures dst[..at + size] == old(dst[..at]) + RepeatBytes(length0)
  {
    hide Low;
    var length := length0;
    if length < 30 {
      Store8(dst, at, (length - 1) * 8 + 4);
      return 1;
    }
    length := length - 30;
    if length < 256 {
      Store8(dst, at + 1, length);
      Store8(dst, at, 29 * 8 + 4);
      return 2;
    }
    if length < 65536 {
      dst[at + 2] := Low(length / 256);
      dst[at + 1] := Low(length);
      dst[at] := Low(30 * 8 + 4);
      return 3;
    }
    dst[at + 3] := Low(length / 65536);
    dst[at + 2] := Low(length / 256);
    dst[at + 1] := Low(length);
    dst[at] := Low(31 * 8 + 4);
    return 4;
  }

  method EncodeCopy2(dst: array<Byte>, at: nat, offset0: nat, length0: nat) returns (size: nat)
    requires offset0 >= MIN_COPY2_OFFSET && length0 >= 4
    requires at + |Copy2Bytes(offset0, length0)| <= dst.Length
    modifies dst
    ensures size == |Copy2Bytes(offset0, length0)|
    ensures dst[..at + size] == old(dst[..at]) + Copy2Bytes(offset0, length0)
  {
    hide Low;
    var length, offset := length0 - 4, offset0 - MIN_COPY2_OFFSET;
    Store16(dst, at + 1, offset);
    if length <= 60 {
      Store8(dst, at, length * 4 + 2);
      return 3;
    }
    length := length - 60;
    if length < 256 {
      Store8(dst, at + 3, length);
      Store8(dst, at, 61 * 4 + 2);
      return 4;
    }
    if length < 65536 {
      dst[at + 4] := Low(length / 256);
      dst[at + 3] := Low(length);
      dst[at] := Low(62 * 4 + 2);
      return 5;
    }
    dst[at + 5] := Low(length / 65536);
    dst[at + 4] := Low(length / 256);
    dst[at + 3] := Low(length);
    dst[at] := Low(63 * 4 + 2);
    return 6;
  }

  /** The extra length bytes of a copy3, stored before the word in front of them. */
  method StoreLengthExtra(dst: array<Byte>, at: nat, length0: nat) returns (field: nat, size: nat)
    requires length0 >= 4 && at + |LengthExtra(length0)| <= dst.Length
    modifies dst
    ensures field == LengthField(length0) && size == |LengthExtra(length0)|
    ensures dst[..at] == old(dst[..at]) && dst[at..at + size] == LengthExtra(length0)
  {
    hide Low;
    var length := length0 - 4;
    if length <= 60 {
      return length, 0;
    }
    length := length - 60;
    if length < 256 {
      dst[at] := Low(length);
      return 61, 1;
    }
    if length < 65536 {
      dst[at + 1] := Low(length / 256);
      dst[at] := Low(length);
      return 62, 2;
    }
    dst[at + 2] := Low(length / 65536);
    dst[at + 1] := Low(length / 256);
    dst[at] := Low(length);
    return 63, 3;
  }

  method EncodeCopy3(dst: array<Byte>, at: nat, offset: nat, length: nat, lits: nat) returns (size: nat)
    requires offset >= MIN_COPY3_OFFSET && length >= 4 && lits < 4
    requires at + |Copy3Bytes(offset, length, lits)| <= dst.Length
    modifies dst
    ensures size == |Copy3Bytes(offset, length, lits)|
    ensures dst[..at + size] == old(dst[..at]) + Copy3Bytes(offset, length, lits)
  {
    hide Low; hide LengthExtra; hide LengthField;
    var encoded := (offset - MIN_COPY3_OFFSET) * 2048 % 0x1_0000_0000 + 7 + lits * 8;
    ShiftedOffset(offset - MIN_COPY3_OFFSET);
    var field, extra := StoreLengthExtra(dst, at + 4, length);
    assert dst[..at] == dst[..at + 4][..at];
    encoded := encoded + field * 32;
    assert encoded == Copy3Word(offset, LengthField(length), lits);
    hide Copy3Word; hide LE32;
    assert dst[at + 4..][..extra] == LengthExtra(length);
    Store32(dst, at, encoded);
    size := 4 + extra;
    assert dst[at + 4..at + size] == dst[at + 4..][..extra];
    assert dst[..at + size] == dst[..at] + (dst[at..at + 4] + dst[at + 4..at + size]);
  }

  /** The small-offset part of `emitCopy`. */
  method EmitCopy1(dst: array<Byte>, at: nat, offset0: nat, length: nat) returns (size: nat)
    requires offset0 >= 1 && length >= 4
    requires at + |Copy1Bytes(offset0, length)| <= dst.Length
    modifies dst
    ensures size == |Copy1Bytes(offset0, length)|
    ensures dst[..at + size] == old(dst[..at]) + Copy1Bytes(offset0, length)
  {
    hide Low; hide RepeatBytes;
    var offset := offset0 - 1;
    if length < 15 + 4 {
      Store16(dst, at, offset * 64 + (length - 4) * 4 + 1);
      return 2;
    }
    if length < 256 + 18 {
      Store16(dst, at, offset * 64 + 15 * 4 + 1);
      dst[at + 2] := Low(length - 18);
      return 3;
    }
    Store16(dst, at, offset * 64 + 14 * 4 + 1);
    assert dst[..at + 2] == old(dst[..at]) + LE16(offset * 64 + 14 * 4 + 1);
    var more := EmitRepeat(dst, at + 2, length - 18);
    return 2 + more;
  }

  method EmitCopy(dst: array<Byte>, at: nat, offset: nat, length: nat) returns (size: nat)
    requires offset >= 1 && length >= 4
    requires at + |CopyBytes(offset, length)| <= dst.Length
    modifies dst
    ensures size == |CopyBytes(offset, length)|
    ensures dst[..at + size] == old(dst[..at]) + CopyBytes(offset, length)
  {
    hide Copy1Bytes; hide Copy2Bytes; hide Copy3Bytes;
    if offset > MAX_COPY2_OFFSET {
      size := EncodeCopy3(dst, at, offset, length, 0);
    } else if offset <= MAX_COPY1_OFFSET {
      size := EmitCopy1(dst, at, offset, length);
    } else {
      size := EncodeCopy2(dst, at, offset, length);
    }
  }

  /** Tag, offset and literals of a fused copy2. */
  method StoreFused2(dst: array<Byte>, at: nat, lits: seq<Byte>, offset: nat, length: nat) returns (n: nat)
    requires 1 <= |lits| <= 4 && offset >= MIN_COPY2_OFFSET && 4 <= length <= 11 && at + 3 + |lits| <= dst.Length
    modifies dst
    ensures n == 3 + |lits|
    ensures dst[..at + n] == old(dst[..at]) + Fused2(lits, offset, length)
  {
    hide Low;
    Store16(dst, at + 1, offset - MIN_COPY2_OFFSET);
    Store8(dst, at, (length - 4) * 32 + (|lits| - 1) * 8 + 3);
    var head := Fused2(lits, offset, length)[..3];
    assert dst[..at + 3] == old(dst[..at]) + head;
    CopyInto(dst, at + 3, lits);
    assert head + lits == Fused2(lits, offset, length);
    return |lits| + 3;
  }

  method EmitCopyLits2(dst: array<Byte>, at: nat, lits: seq<Byte>, offset: nat, length: nat) returns (size: nat)
    requires 1 <= |lits| <= 4 && offset >= MIN_COPY2_OFFSET && length >= 4
    requires at + |Lits2Bytes(lits, offset, length)| <= dst.Length
    modifies dst
    ensures size == |Lits2Bytes(lits, offset, length)|
    ensures dst[..at + size] == old(dst[..at]) + Lits2Bytes(lits, offset, length)
  {
    hide Fused2; hide RepeatBytes;
    if length - 4 > 7 {
      var n := StoreFused2(dst, at, lits, offset, 11);
      var more := EmitRepeat(dst, at + n, length - 4 - 7);
      return n + more;
    }
    size := StoreFused2(dst, at, lits, offset, length);
  }

  method EmitCopyLits3(dst: array<Byte>, at: nat, lits: seq<Byte>, offset: nat, length: nat) returns (size: nat)
    requires |lits| <= 3 && offset >= MIN_COPY3_OFFSET && length >= 4
    requires at + |Lits3Bytes(lits, offset, length)| <= dst.Length
    modifies dst
    ensures size == |Lits3Bytes(lits, offset, length)|
    ensures dst[..at + size] == old(dst[..at]) + Lits3Bytes(lits, offset, length)
  {
    hide Copy3Bytes;
    var n := EncodeCopy3(dst, at, offset, length, |lits|);
    CopyInto(dst, at + n, lits);
    return n + |lits|;
  }
}
