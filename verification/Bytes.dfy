/** Bytes, little-endian loads, and the notion of a match inside a buffer. */
module Bytes {

  type Byte = x: int | 0 <= x < 256

  const MAX_BLOCK_SIZE: nat := 0x80_0000

  datatype Option<+T> = None | Some(value: T)

  /** Little-endian loads (unsafe_disabled.go). */
  function Load8(b: seq<Byte>, i: nat): (r: nat)
    requires i < |b|
    ensures r < 0x100
  {
    b[i]
  }

  function Load16(b: seq<Byte>, i: nat): (r: nat)
    requires i + 2 <= |b|
    ensures r < 0x1_0000
  {
    Load8(b, i) + 0x100 * Load8(b, i + 1)
  }

  function Load24(b: seq<Byte>, i: nat): (r: nat)
    requires i + 3 <= |b|
    ensures r < 0x100_0000
  {
    Load16(b, i) + 0x1_0000 * Load8(b, i + 2)
  }

  function Load32(b: seq<Byte>, i: nat): (r: nat)
    requires i + 4 <= |b|
    ensures r < 0x1_0000_0000
  {
    Load24(b, i) + 0x100_0000 * Load8(b, i + 3)
  }

  lemma Assoc(a: seq<Byte>, b: seq<Byte>, c: seq<Byte>)
    ensures (a + b) + c == a + (b + c)
  {
  }

  /** `src[base..base+length]` repeats what lies `offset` bytes earlier. */
  ghost predicate IsMatch(src: seq<Byte>, base: int, offset: int, length: int) {
    && 1 <= offset <= base
    && 0 <= length
    && base + length <= |src|
    && forall i :: base <= i < base + length ==> src[i] == src[i - offset]
  }

  lemma MatchBounds(src: seq<Byte>, base: int, offset: int, length: int)
    requires IsMatch(src, base, offset, length)
    ensures 1 <= offset <= base && base + length <= |src|
  {
  }

  lemma MatchedByte(src: seq<Byte>, base: int, offset: int, length: int, i: int)
    requires IsMatch(src, base, offset, length) && base <= i < base + length
    ensures src[i] == src[i - offset]
  {
  }

  /** Two matches with the same offset that touch or overlap form one match. */
  lemma MatchJoin(src: seq<Byte>, base: int, offset: int, len1: int, mid: int, len2: int)
    requires IsMatch(src, base, offset, len1)
    requires IsMatch(src, mid, offset, len2)
    requires base <= mid <= base + len1 <= mid + len2
    ensures IsMatch(src, base, offset, mid + len2 - base)
  {
  }

  lemma QuotientOfSum(x: nat, w: nat, k: nat)
    requires k > 0
    ensures (x + k * w) / k == x / k + w && (x + k * w) % k == x % k
  {
    var q, r := x / k, x % k;
    assert x + k * w == k * (q + w) + r;
    UniqueQuotient(x + k * w, k, q + w, r);
  }

  lemma UniqueQuotient(x: nat, k: nat, q: nat, r: nat)
    requires k > 0 && r < k && x == k * q + r
    ensures x / k == q && x % k == r
  {
    var d := x / k - q;
    assert k * (x / k) + x % k == x;
    assert k * d == r - x % k;
    OnlyMultiple(k, d);
  }

  /** The only multiple of `k` closer to 0 than `k` is 0. */
  lemma OnlyMultiple(k: nat, d: int)
    ensures 0 - k < k * d < k ==> d == 0
  {
    assert d >= 1 ==> k * d >= k;
    assert d <= -1 ==> k * d <= 0 - k;
  }
}
