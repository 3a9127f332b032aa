/** Go's `encoding/binary` varints: base 128, least significant group first, at most 64 bits. */
module Varint {
  import opened Bytes

  /** `2^(64-7k)`: what is left of 64 bits after `k` groups. */
  function Cap(k: nat): (r: nat)
    requires k <= 9
    ensures r >= 2
    decreases 9 - k
  {
    if k == 9 then 2 else 128 * Cap(k + 1)
  }

  lemma CapIs64Bits()
    ensures Cap(0) == 0x1_0000_0000_0000_0000
  {
    assert Cap(8) == 256 && Cap(7) == 32768 && Cap(6) == 0x40_0000;
    assert Cap(5) == 0x2000_0000 && Cap(4) == 0x10_0000_0000;
    assert Cap(3) == 0x800_0000_0000 && Cap(2) == 0x4_0000_0000_0000;
    assert Cap(1) == 0x200_0000_0000_0000;
  }

  /** `PutUvarint` and `AppendUvarint`. */
  function PutUvarint(x: nat): (r: seq<Byte>)
    ensures |r| >= 1
  {
    if x < 128 then [x] else [x % 128 + 128] + PutUvarint(x / 128)
  }

  /**
   `Uvarint(b[s:])` with `k` groups already read: the value of the remaining groups and the position
   after them. `None` stands for both failures, input that ends too soon and a value over 64 bits.
   */
  function GetUvarint(b: seq<Byte>, s: nat, k: nat): (r: Option<(nat, nat)>)
    requires k <= 10
    ensures r.Some? ==> s < r.value.1 <= |b| && r.value.1 <= s + 10 - k
    decreases 10 - k
  {
    if s >= |b| || k == 10 then None
    else if b[s] < 128 then
      if k == 9 && b[s] > 1 then None else Some((b[s], s + 1))
    else
      match GetUvarint(b, s + 1, k + 1)
      case None => None
      case Some(t) => Some((b[s] - 128 + 128 * t.0, t.1))
  }

  /** A 64 bit value is read back from the bytes written for it, whatever surrounds them. */
  lemma {:induction false} UvarintRoundTrip(p: seq<Byte>, x: nat, q: seq<Byte>, k: nat)
    requires k <= 9 && x < Cap(k)
    ensures GetUvarint(p + PutUvarint(x) + q, |p|, k) == Some((x, |p| + |PutUvarint(x)|))
    decreases 9 - k
  {
    var b := p + PutUvarint(x) + q;
    if x >= 128 {
      var g: Byte := x % 128 + 128;
      assert b == (p + [g]) + PutUvarint(x / 128) + q;
      assert k < 9;
      UvarintRoundTrip(p + [g], x / 128, q, k + 1);
      assert b[|p|] == g;
    } else {
      assert b[|p|] == x;
    }
  }

  lemma UvarintReads(p: seq<Byte>, x: nat, q: seq<Byte>)
    requires x < 0x1_0000_0000_0000_0000
    ensures GetUvarint(p + PutUvarint(x) + q, |p|, 0) == Some((x, |p| + |PutUvarint(x)|))
  {
    CapIs64Bits();
    UvarintRoundTrip(p, x, q, 0);
  }

  /** The last byte of a 64 bit varint written by `PutUvarint` decides its length. */
  lemma {:induction false} PutUvarintLength(x: nat)
    ensures x < 0x80 ==> |PutUvarint(x)| == 1
    ensures 0x80 <= x < 0x4000 ==> |PutUvarint(x)| == 2
    ensures 0x4000 <= x < 0x20_0000 ==> |PutUvarint(x)| == 3
    ensures 0x20_0000 <= x < 0x1000_0000 ==> |PutUvarint(x)| == 4
  {
    if 0x80 <= x < 0x1000_0000 {
      PutUvarintLength(x / 128);
    }
  }

  /** What is left of 64 bits after `k` groups takes at most `10 - k` more. */
  lemma {:induction false} PutUvarintAtMost(x: nat, k: nat)
    requires k <= 9 && x < Cap(k)
    ensures |PutUvarint(x)| <= 10 - k
    decreases 9 - k
  {
    if x >= 128 { PutUvarintAtMost(x / 128, k + 1); }
  }

  /** Zigzag: `PutVarint` and `AppendVarint` of a signed value. */
  function PutVarint(x: int): (r: seq<Byte>) {
    PutUvarint(if x < 0 then -2 * x - 1 else 2 * x)
  }

  /** `Varint(b[s:])`. */
  function GetVarint(b: seq<Byte>, s: nat): (r: Option<(int, nat)>)
    ensures r.Some? ==> s < r.value.1 <= |b|
  {
    match GetUvarint(b, s, 0)
    case None => None
    case Some(t) => Some((if t.0 % 2 == 1 then -(t.0 / 2) - 1 else t.0 / 2, t.1))
  }

  lemma VarintReads(p: seq<Byte>, x: int, q: seq<Byte>)
    requires -0x8000_0000_0000_0000 <= x < 0x8000_0000_0000_0000
    ensures GetVarint(p + PutVarint(x) + q, |p|) == Some((x, |p| + |PutVarint(x)|))
  {
    UvarintReads(p, if x < 0 then -2 * x - 1 else 2 * x, q);
  }
}
