/**
 The byte sequences that the encoders write, and what they mean to a decoder.

 Disjoint bit fields that the program joins with `|` are added here, and a value that the program
 cuts to 16, 24 or 32 bits is reduced modulo that power of two.
 */
module Encoding {
  import opened Bytes
  import opened Format

  const MAX_COPY1_OFFSET: nat := 1024
  const MIN_COPY2_OFFSET: nat := 64
  const MAX_COPY2_OFFSET: nat := 65599
  const MIN_COPY3_OFFSET: nat := 65536
  /** `2<<20 + 65535`. */
  const MAX_COPY3_OFFSET: nat := 2162687

  function Low(x: int): (r: Byte) { x % 256 }

  lemma LowId(x: nat)
    requires x < 256
    ensures Low(x) == x
  {
  }

  function LE16(x: nat): (r: seq<Byte>)
    ensures |r| == 2
  {
    [Low(x), Low(x / 256)]
  }

  function LE24(x: nat): (r: seq<Byte>)
    ensures |r| == 3
  {
    [Low(x), Low(x / 256), Low(x / 65536)]
  }

  function LE32(x: nat): (r: seq<Byte>)
    ensures |r| == 4
  {
    [Low(x), Low(x / 256), Low(x / 65536), Low(x / 0x100_0000)]
  }

  lemma LoadLE16(p: seq<Byte>, x: nat, q: seq<Byte>)
    ensures Load16(p + LE16(x) + q, |p|) == x % 0x1_0000
  {
    var b := p + LE16(x) + q;
    assert b[|p|] == Low(x) && b[|p| + 1] == Low(x / 256);
    assert x / 256 % 256 * 256 + x % 256 == x % 0x1_0000;
  }

  lemma LoadLE24(p: seq<Byte>, x: nat, q: seq<Byte>)
    requires x < 0x100_0000
    ensures Load24(p + LE24(x) + q, |p|) == x
  {
    var b := p + LE24(x) + q;
    assert b[|p|] == Low(x) && b[|p| + 1] == Low(x / 256) && b[|p| + 2] == Low(x / 65536);
    Digits24(x);
  }

  lemma Digits24(x: nat)
    requires x < 0x100_0000
    ensures x % 256 + 256 * (x / 256 % 256) + 65536 * (x / 65536 % 256) == x
  {
    assert x / 256 / 256 == x / 65536;
  }

  lemma LoadLE32(x: nat, q: seq<Byte>)
    requires x < 0x1_0000_0000
    ensures Load32(LE32(x) + q, 0) == x && Load8(LE32(x) + q, 0) == x % 256
  {
    var b := LE32(x) + q;
    assert b[0] == Low(x) && b[1] == Low(x / 256) && b[2] == Low(x / 65536) && b[3] == Low(x / 0x100_0000);
    assert x / 65536 / 256 == x / 0x100_0000;
  }

  // ---------- literals and repeats ----------

  /** The header of a literal run (`bit` 0) or a repeat (`bit` 4). */
  function LengthHeader(bit: nat, length: nat): (r: seq<Byte>)
    requires bit <= 4 && length >= 1
    ensures 1 <= |r| <= 4
  {
    if length < 30 then [Low((length - 1) * 8 + bit)]
    else
      var n := length - 30;
      if n < 256 then [Low(29 * 8 + bit), Low(n)]
      else if n < 65536 then [Low(30 * 8 + bit)] + LE16(n)
      else [Low(31 * 8 + bit)] + LE24(n)
  }

  function LiteralBytes(lits: seq<Byte>): (r: seq<Byte>) {
    if lits == [] then [] else LengthHeader(0, |lits|) + lits
  }

  function RepeatBytes(length: nat): (r: seq<Byte>)
    requires length >= 1
    ensures 1 <= |r| <= 4
  {
    LengthHeader(4, length)
  }

  lemma TagByte(x: nat, bit: nat)
    requires x < 32 && (bit == 0 || bit == 4)
    ensures Low(x * 8 + bit) == x * 8 + bit
    ensures Low(x * 8 + bit) / 8 == x && Low(x * 8 + bit) % 4 == 0 && Low(x * 8 + bit) / 4 % 2 == bit / 4
  {
  }

  lemma ParseLengthHeader(bit: nat, length: nat, q: seq<Byte>)
    requires (bit == 0 || bit == 4) && 1 <= length < 0x100_0000 + 30
    ensures var c := LengthHeader(bit, length);
            && Load8(c + q, 0) % 4 == 0 && Load8(c + q, 0) / 4 % 2 == bit / 4
            && ParseLength(c + q, 0) == Some((length, |c|))
  {
    hide Low; hide Load16; hide Load24;
    var c := LengthHeader(bit, length);
    var n := length - 30;
    if length < 30 {
      TagByte(length - 1, bit);
    } else if n < 256 {
      TagByte(29, bit);
      assert (c + q)[1] == Low(n);
      LowId(n);
    } else if n < 65536 {
      TagByte(30, bit);
      assert c + q == [c[0]] + LE16(n) + q;
      LoadLE16([c[0]], n, q);
    } else {
      TagByte(31, bit);
      assert c + q == [c[0]] + LE24(n) + q;
      LoadLE24([c[0]], n, q);
    }
  }

  lemma LengthHeaderTag(bit: nat, length: nat, q: seq<Byte>)
    requires (bit == 0 || bit == 4) && 1 <= length < 0x100_0000 + 30
    ensures ParseOp(LengthHeader(bit, length) + q, 0)
         == Parsed(if bit == 4 then Repeat(length) else Literals(length), |LengthHeader(bit, length)|)
  {
    hide ParseLength;
    ParseLengthHeader(bit, length, q);
    ParseOpLiteral(LengthHeader(bit, length) + q, 0);
  }

  // ---------- copies ----------

  function Copy1Bytes(offset: nat, length: nat): (r: seq<Byte>)
    requires offset >= 1 && length >= 4
    ensures 2 <= |r| <= 6
  {
    var o := (offset - 1) * 64;
    if length <= 18 then LE16(o + (length - 4) * 4 + 1)
    else if length <= 273 then LE16(o + 15 * 4 + 1) + [Low(length - 18)]
    else LE16(o + 14 * 4 + 1) + RepeatBytes(length - 18)
  }

  /** A six bit length field and its extra bytes, as copy2 and copy3 use them. */
  function LengthField(length: nat): (r: nat)
    requires length >= 4
    ensures r < 64
  {
    if length <= 64 then length - 4
    else if length - 64 < 256 then 61
    else if length - 64 < 65536 then 62
    else 63
  }

  function LengthExtra(length: nat): (r: seq<Byte>)
    requires length >= 4
    ensures |r| <= 3
  {
    if length <= 64 then []
    else if length - 64 < 256 then [Low(length - 64)]
    else if length - 64 < 65536 then LE16(length - 64)
    else LE24(length - 64)
  }

  lemma ParseLengthExtra(p: seq<Byte>, length: nat, q: seq<Byte>)
    requires 4 <= length < 0x100_0000 + 64
    ensures ParseCopyLength(p + LengthExtra(length) + q, LengthField(length), |p|)
         == Some((length, |LengthExtra(length)|))
  {
    var b := p + LengthExtra(length) + q;
    if length <= 64 {
    } else if length - 64 < 256 {
      assert b[|p|] == Low(length - 64);
    } else if length - 64 < 65536 {
      LoadLE16(p, length - 64, q);
    } else {
      LoadLE24(p, length - 64, q);
    }
  }

  function Copy2Bytes(offset: nat, length: nat): (r: seq<Byte>)
    requires offset >= MIN_COPY2_OFFSET && length >= 4
    ensures 3 <= |r| <= 6
  {
    [Low(LengthField(length) * 4 + 2)] + LE16(offset - MIN_COPY2_OFFSET) + LengthExtra(length)
  }

  /** The 32 bit word of a copy3; an offset above `MAX_COPY3_OFFSET` loses its top bits. */
  function Copy3Word(offset: nat, field: nat, lits: nat): (r: nat)
    requires offset >= MIN_COPY3_OFFSET && field < 64 && lits < 4
    ensures r < 0x1_0000_0000
  {
    (offset - MIN_COPY3_OFFSET) % 0x20_0000 * 2048 + field * 32 + lits * 8 + 7
  }

  /** `uint32(x)<<11` keeps the low 21 bits of `x`. */
  lemma ShiftedOffset(x: nat)
    ensures x * 2048 % 0x1_0000_0000 == x % 0x20_0000 * 2048
  {
    var q, r := x / 0x20_0000, x % 0x20_0000;
    assert x * 2048 == r * 2048 + 0x1_0000_0000 * q;
    QuotientOfSum(r * 2048, q, 0x1_0000_0000);
  }

  function Copy3Bytes(offset: nat, length: nat, lits: nat): (r: seq<Byte>)
    requires offset >= MIN_COPY3_OFFSET && length >= 4 && lits < 4
    ensures 4 <= |r| <= 7
  {
    LE32(Copy3Word(offset, LengthField(length), lits)) + LengthExtra(length)
  }

  function CopyBytes(offset: nat, length: nat): (r: seq<Byte>)
    requires offset >= 1 && length >= 4
  {
    if offset > MAX_COPY2_OFFSET then Copy3Bytes(offset, length, 0)
    else if offset <= MAX_COPY1_OFFSET then Copy1Bytes(offset, length)
    else Copy2Bytes(offset, length)
  }

  /** Fused copy2: at most 11 bytes of the match, then a repeat for the rest. */
  function Lits2Bytes(lits: seq<Byte>, offset: nat, length: nat): (r: seq<Byte>)
    requires 1 <= |lits| <= 4 && offset >= MIN_COPY2_OFFSET && length >= 4
  {
    if length > 11 then Fused2(lits, offset, 11) + RepeatBytes(length - 11)
    else Fused2(lits, offset, length)
  }

  function Fused2(lits: seq<Byte>, offset: nat, length: nat): (r: seq<Byte>)
    requires 1 <= |lits| <= 4 && offset >= MIN_COPY2_OFFSET && 4 <= length <= 11
    ensures |r| == 3 + |lits|
  {
    [Low((length - 4) * 32 + (|lits| - 1) * 8 + 3)] + LE16(offset - MIN_COPY2_OFFSET) + lits
  }

  function Lits3Bytes(lits: seq<Byte>, offset: nat, length: nat): (r: seq<Byte>)
    requires |lits| <= 3 && offset >= MIN_COPY3_OFFSET && length >= 4
  {
    Copy3Bytes(offset, length, |lits|) + lits
  }

  /** The two bytes of a copy1 with length field `low`. */
  lemma Copy1Word(offset: nat, low: nat, q: seq<Byte>)
    requires 1 <= offset <= MAX_COPY1_OFFSET && low < 16
    ensures var b := LE16((offset - 1) * 64 + low * 4 + 1) + q;
            && Load8(b, 0) % 4 == 1 && Load8(b, 0) / 4 % 16 == low && Load16(b, 0) / 64 + 1 == offset
  {
    hide Low; hide LE16;
    var x := (offset - 1) * 64 + low * 4 + 1;
    var b := LE16(x) + q;
    assert [] + LE16(x) + q == b;
    LoadLE16([], x, q);
    Copy1Digits(offset - 1, low, Load8(b, 0), Load8(b, 1));
  }

  /** The fields of a copy1 word in its two bytes. */
  lemma Copy1Digits(o: nat, low: nat, b0: nat, b1: nat)
    requires b0 + 256 * b1 == o * 64 + low * 4 + 1 && low < 16
    ensures b0 % 4 == 1 && b0 / 4 % 16 == low && (b0 + 256 * b1) / 64 == o
  {
    var x := o * 16 + low;
    QuotientOfSum(b0, 64 * b1, 4);
    QuotientOfSum(1, x, 4);
    assert b0 + 4 * (64 * b1) == 1 + 4 * x;
    QuotientOfSum(b0 / 4, 4 * b1, 16);
    QuotientOfSum(low, o, 16);
    assert b0 / 4 + 16 * (4 * b1) == low + 16 * o;
    QuotientOfSum(low * 4 + 1, o, 64);
    UniqueQuotient(low * 4 + 1, 64, 0, low * 4 + 1);
  }

  lemma ParseCopy1Bytes(offset: nat, length: nat, q: seq<Byte>)
    requires 1 <= offset <= MAX_COPY1_OFFSET && 4 <= length <= 273
    ensures ParseOp(Copy1Bytes(offset, length) + q, 0)
         == Parsed(Copy(0, offset, length), |Copy1Bytes(offset, length)|)
  {
    hide Low; hide Load16; hide LE16;
    var b := Copy1Bytes(offset, length) + q;
    if length <= 18 {
      Copy1Word(offset, length - 4, q);
    } else {
      var w := LE16((offset - 1) * 64 + 15 * 4 + 1);
      assert b == w + ([Low(length - 18)] + q);
      assert b[2] == Low(length - 18);
      LowId(length - 18);
      Copy1Word(offset, 15, [Low(length - 18)] + q);
    }
  }

  lemma ParseCopy2Bytes(offset: nat, length: nat, q: seq<Byte>)
    requires MIN_COPY2_OFFSET <= offset <= MAX_COPY2_OFFSET && 4 <= length < 0x100_0000
    ensures ParseOp(Copy2Bytes(offset, length) + q, 0)
         == Parsed(Copy(0, offset, length), |Copy2Bytes(offset, length)|)
  {
    hide ParseCopyLength;
    var t := [Low(LengthField(length) * 4 + 2)];
    var o := LE16(offset - MIN_COPY2_OFFSET);
    var x := LengthExtra(length);
    var b := Copy2Bytes(offset, length) + q;
    assert b == t + o + (x + q);
    LoadLE16(t, offset - MIN_COPY2_OFFSET, x + q);
    assert b == (t + o) + x + q;
    ParseLengthExtra(t + o, length, q);
  }

  /** A copy3 word gives back its fields; the offset only modulo 2 MiB. */
  lemma Copy3Fields(offset: nat, field: nat, lits: nat)
    requires offset >= MIN_COPY3_OFFSET && field < 64 && lits < 4
    ensures var v := Copy3Word(offset, field, lits);
            && v % 256 % 4 == 3 && v % 256 / 4 % 2 == 1
            && v / 8 % 4 == lits && v / 32 % 64 == field
            && v / 2048 == (offset - MIN_COPY3_OFFSET) % 0x20_0000
  {
    Copy3Digits((offset - MIN_COPY3_OFFSET) % 0x20_0000, field, lits);
  }

  lemma Copy3Digits(o: nat, field: nat, lits: nat)
    requires field < 64 && lits < 4
    ensures var v := o * 2048 + field * 32 + lits * 8 + 7;
            && v % 256 % 4 == 3 && v % 256 / 4 % 2 == 1
            && v / 8 % 4 == lits && v / 32 % 64 == field && v / 2048 == o
  {
    var v := o * 2048 + field * 32 + lits * 8 + 7;
    var low := field % 8 * 32 + lits * 8 + 7;
    UniqueQuotient(v, 2048, o, field * 32 + lits * 8 + 7);
    UniqueQuotient(v, 256, 8 * o + field / 8, low);
    UniqueQuotient(v, 32, 64 * o + field, lits * 8 + 7);
    UniqueQuotient(64 * o + field, 64, o, field);
    UniqueQuotient(v, 8, 4 * (64 * o + field) + lits, 7);
    UniqueQuotient(4 * (64 * o + field) + lits, 4, 64 * o + field, lits);
    UniqueQuotient(low, 4, field % 8 * 8 + lits * 2 + 1, 3);
    UniqueQuotient(field % 8 * 8 + lits * 2 + 1, 2, field % 8 * 4 + lits, 1);
  }

  lemma ParseCopy3Bytes(offset: nat, length: nat, lits: nat, q: seq<Byte>)
    requires offset >= MIN_COPY3_OFFSET && 4 <= length < 0x100_0000 && lits < 4
    ensures ParseOp(Copy3Bytes(offset, length, lits) + q, 0)
         == Parsed(Copy(lits, (offset - MIN_COPY3_OFFSET) % 0x20_0000 + MIN_COPY3_OFFSET, length),
                   |Copy3Bytes(offset, length, lits)|)
  {
    hide ParseCopyLength;
    hide Copy3Word;
    hide Load8;
    hide Load32;
    var v := Copy3Word(offset, LengthField(length), lits);
    var x := LengthExtra(length);
    var b := Copy3Bytes(offset, length, lits) + q;
    assert b == LE32(v) + (x + q);
    LoadLE32(v, x + q);
    Copy3Fields(offset, LengthField(length), lits);
    assert b == LE32(v) + x + q;
    ParseLengthExtra(LE32(v), length, q);
  }

  /**
   The offset of a copy3 survives its encoding exactly when it is no larger than the format's
   maximum; a larger one comes back 2 MiB short or worse.
   */
  lemma Copy3OffsetKept(offset: nat, length: nat, lits: nat)
    requires offset >= MIN_COPY3_OFFSET && 4 <= length < 0x100_0000 && lits < 4
    ensures ParseOp(Copy3Bytes(offset, length, lits), 0).Parsed?
    ensures ParseOp(Copy3Bytes(offset, length, lits), 0).op.Copy?
    ensures ParseOp(Copy3Bytes(offset, length, lits), 0).op.offset == offset <==> offset <= MAX_COPY3_OFFSET
  {
    hide ParseOp;
    ParseCopy3Bytes(offset, length, lits, []);
    assert Copy3Bytes(offset, length, lits) + [] == Copy3Bytes(offset, length, lits);
  }

  lemma ParseFused2Bytes(lits: seq<Byte>, offset: nat, length: nat, q: seq<Byte>)
    requires 1 <= |lits| <= 4 && MIN_COPY2_OFFSET <= offset <= MAX_COPY2_OFFSET && 4 <= length <= 11
    ensures ParseOp(Fused2(lits, offset, length) + q, 0) == Parsed(Copy(|lits|, offset, length), 3)
  {
    hide Low; hide LE16; hide Load16;
    var x := (length - 4) * 32 + (|lits| - 1) * 8 + 3;
    var t := [Low(x)];
    var b := Fused2(lits, offset, length) + q;
    assert b == t + LE16(offset - MIN_COPY2_OFFSET) + (lits + q);
    LoadLE16(t, offset - MIN_COPY2_OFFSET, lits + q);
    LowId(x);
    assert Load8(b, 0) == x;
    Fused2Digits(length - 4, |lits| - 1);
  }

  lemma Fused2Digits(length: nat, lits: nat)
    requires length < 8 && lits < 4
    ensures var x := length * 32 + lits * 8 + 3; x % 4 == 3 && x / 4 % 2 == 0 && x / 8 % 4 == lits && x / 32 == length
  {
  }
}
