/**
 Match search shared by the encoders: word loads, extension of a match, and hash tables.

 A 64 bit word loaded from `src` is modelled by its eight bytes, lowest first, so `cv>>8` drops the
 first byte and `TrailingZeros64(a^b)>>3` is the index of the first byte that differs. A hash is any
 function of a word into the table; nothing proved here depends on which one.
 */
module Matching {
  import opened Bytes

  type Word = seq<Byte>

  ghost predicate HashInto(hash: Word -> nat, size: nat) {
    forall w: Word :: hash(w) < size
  }

  lemma Slot(hash: Word -> nat, size: nat, w: Word)
    requires HashInto(hash, size)
    ensures hash(w) < size
  {
  }

  /** One byte, over and over. */
  ghost predicate Uniform(src: seq<Byte>) {
    forall i :: 0 <= i < |src| ==> src[i] == src[0]
  }

  lemma UniformWords(src: seq<Byte>, s: nat, t: nat, k: nat)
    requires Uniform(src) && s + k <= |src| && t + k <= |src|
    ensures src[s..s + k] == src[t..t + k]
  {
  }

  /** A match of such an input has no end but that of the input. */
  lemma UniformEnd(src: seq<Byte>, s: nat, offset: nat)
    requires Uniform(src) && 1 <= offset <= s <= |src| && (s == |src| || src[s] != src[s - offset])
    ensures s == |src|
  {
  }

  ghost predicate Zeros(table: array<nat>)
    reads table
  {
    forall i :: 0 <= i < table.Length ==> table[i] == 0
  }

  lemma ZeroSlot(table: array<nat>, i: nat)
    requires Zeros(table) && i < table.Length
    ensures table[i] == 0
  {
  }

  /** Every position remembered in the table lies before `s`. */
  ghost predicate Below(table: array<nat>, s: int)
    reads table
  {
    forall i :: 0 <= i < table.Length ==> table[i] < s
  }

  /** `uint32(cv>>(8*k))` of a word loaded at `s` is what a load at `s + k` gives. */
  lemma Shifted(src: seq<Byte>, s: nat, k: nat)
    requires s + 8 <= |src| && k + 4 <= 8
    ensures src[s..s + 8][k..k + 4] == src[s + k..s + k + 4]
  {
    var v, w := src[s..s + 8][k..k + 4], src[s + k..s + k + 4];
    forall i | 0 <= i < 4
      ensures v[i] == w[i]
    {
    }
  }

  /** Equal words are a match. */
  lemma WordsMatch(src: seq<Byte>, s: nat, candidate: nat, k: nat)
    requires candidate < s && s + k <= |src|
    requires src[s..s + k] == src[candidate..candidate + k]
    ensures IsMatch(src, s, s - candidate, k)
  {
    forall i | s <= i < s + k
      ensures src[i] == src[i - (s - candidate)]
    {
      assert src[i] == src[s..s + k][i - s];
      assert src[i - (s - candidate)] == src[candidate..candidate + k][i - s];
    }
  }

  /** `bits.TrailingZeros64(load64(src, s) ^ load64(src, candidate)) >> 3`; 8 when they are equal. */
  method FirstDiff(src: seq<Byte>, s: nat, candidate: nat) returns (k: nat)
    requires candidate < s && s + 8 <= |src|
    ensures k <= 8 && IsMatch(src, s, s - candidate, k)
    ensures k < 8 ==> src[s + k] != src[candidate + k]
  {
    k := 0;
    while k < 8 && src[s + k] == src[candidate + k]
      invariant k <= 8 && IsMatch(src, s, s - candidate, k)
    {
      k := k + 1;
    }
  }

  /** Extend a match by whole words while `s <= limit`; it stops at a mismatch or past the limit. */
  method ExtendWords(src: seq<Byte>, s0: nat, candidate0: nat, limit: int) returns (s: nat)
    requires candidate0 < s0 <= |src| && limit <= |src| - 8
    ensures s0 <= s <= |src| && IsMatch(src, s0, s0 - candidate0, s - s0)
    ensures s > limit || src[s] != src[s - (s0 - candidate0)]
  {
    s := s0;
    var candidate := candidate0;
    while s <= limit
      invariant s0 <= s <= |src| && s - candidate == s0 - candidate0
      invariant IsMatch(src, s0, s0 - candidate0, s - s0)
    {
      var k := FirstDiff(src, s, candidate);
      MatchJoin(src, s0, s0 - candidate0, s - s0, s, k);
      if k < 8 {
        return s + k;
      }
      s := s + 8;
      candidate := candidate + 8;
    }
  }

  /** Extend a match as far as it goes: words first, then the last bytes one by one. */
  method ExtendToEnd(src: seq<Byte>, s0: nat, candidate0: nat) returns (s: nat)
    requires candidate0 < s0 <= |src|
    ensures s0 <= s <= |src| && IsMatch(src, s0, s0 - candidate0, s - s0)
    ensures s == |src| || src[s] != src[s - (s0 - candidate0)]
  {
    s := s0;
    var candidate := candidate0;
    while s < |src|
      invariant s0 <= s <= |src| && s - candidate == s0 - candidate0
      invariant IsMatch(src, s0, s0 - candidate0, s - s0)
    {
      if |src| - s < 8 {
        if src[s] == src[candidate] {
          s := s + 1;
          candidate := candidate + 1;
          continue;
        }
        return;
      }
      var k := FirstDiff(src, s, candidate);
      MatchJoin(src, s0, s0 - candidate0, s - s0, s, k);
      if k < 8 {
        return s + k;
      }
      s := s + 8;
      candidate := candidate + 8;
    }
  }

  /** Extend a match backwards, but not over bytes that were emitted. */
  method ExtendBack(src: seq<Byte>, s0: nat, candidate0: nat, nextEmit: nat) returns (s: nat)
    requires candidate0 < s0 <= |src| && nextEmit <= s0
    ensures nextEmit <= s <= s0 && s0 - candidate0 <= s
    ensures IsMatch(src, s, s0 - candidate0, s0 - s)
    ensures s == nextEmit || s == s0 - candidate0 || src[s - 1] != src[s - (s0 - candidate0) - 1]
  {
    s := s0;
    var candidate := candidate0;
    while candidate > 0 && s > nextEmit && src[candidate - 1] == src[s - 1]
      invariant nextEmit <= s <= s0 && 0 <= candidate && s - candidate == s0 - candidate0
      invariant IsMatch(src, s, s0 - candidate0, s0 - s)
    {
      candidate := candidate - 1;
      s := s - 1;
    }
  }

  /**
   The whole match around a found one: back from `s0`, then forward from four bytes after where that
   got to, the top bytes being compared again.
   */
  lemma WholeMatch(src: seq<Byte>, base: nat, s0: nat, offset: nat, known: nat, s: nat)
    requires 1 <= offset <= base <= s0 && base + 4 <= s <= |src| && known >= 4 && s0 + known <= |src|
    requires IsMatch(src, base, offset, s0 - base)
    requires IsMatch(src, s0, offset, known)
    requires IsMatch(src, base + 4, offset, s - (base + 4))
    ensures IsMatch(src, base, offset, s - base)
    ensures s < s0 + known ==> src[s] == src[s - offset]
  {
    MatchJoin(src, base, offset, s0 - base, s0, known);
  }
}
