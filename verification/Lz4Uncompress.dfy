/** internal/lz4ref/block.go: `UncompressBlock`, with its 16 and 18 byte shortcuts and its doubling copy. */
module Lz4Uncompress {
  import opened Bytes
  import opened Format
  import opened Lz4Format

  lemma ModShift(k: nat, n: nat, m: nat)
    requires m > 0 && n % m == 0
    ensures (n + k) % m == k % m
  {
    QuotientOfSum(k, n / m, m);
    assert n == n / m * m;
  }

  /** For `n` bytes from `base` on, `mem` is `p` over and over. */
  ghost predicate Repeats(mem: seq<Byte>, base: nat, p: seq<Byte>, n: nat) {
    && p != []
    && forall i :: base <= i < base + n && i < |mem| ==> mem[i] == p[(i - base) % |p|]
  }

  /** Memory that repeats with the right period is what byte by byte copying gives. */
  lemma RepeatsIsCopy(mem: seq<Byte>, di: nat, offset: nat, length: nat, p: seq<Byte>)
    requires 1 <= offset <= di && di + length <= |mem| && |p| == offset && Repeats(mem, di - offset, p, offset + length)
    ensures mem[..di + length] == CopyBack(mem[..di], offset, length)
  {
    var base, r := di - offset, mem[..di + length];
    forall i | di <= i < |r|
      ensures r[i] == r[i - offset]
    {
      ModShift(i - offset - base, offset, offset);
      assert mem[i] == p[(i - base) % offset] && mem[i - offset] == p[(i - offset - base) % offset];
    }
    CopyBackUnique(mem[..di], offset, length, r);
  }

  /** Behind a whole number of periods, a copy of the start makes it repeat longer. */
  lemma RepeatsMore(mem: seq<Byte>, mem': seq<Byte>, base: nat, p: seq<Byte>, n: nat, m: nat)
    requires Repeats(mem, base, p, n) && n % |p| == 0 && m <= n && |mem'| == |mem| && base + n <= |mem|
    requires mem'[..base + n] == mem[..base + n]
    requires forall i :: base + n <= i < base + n + m && i < |mem| ==> mem'[i] == mem[i - n]
    ensures Repeats(mem', base, p, n + m)
  {
    forall i | base <= i < base + n + m && i < |mem'|
      ensures mem'[i] == p[(i - base) % |p|]
    {
      if i >= base + n {
        ModShift(i - base - n, n, |p|);
        assert mem[i - n] == p[(i - n - base) % |p|];
      } else {
        assert mem'[i] == mem'[..base + n][i] == mem[..base + n][i] == mem[i];
      }
    }
  }

  /** Go's `copy(dst[at:], b)`, of as much as there is room for. */
  method CopyIn(dst: array<Byte>, at: nat, b: seq<Byte>)
    requires at <= dst.Length
    modifies dst
    ensures dst[..at] == old(dst[..at])
    ensures forall i :: at <= i < at + |b| && i < dst.Length ==> dst[i] == b[i - at]
    ensures forall i :: at + |b| <= i < dst.Length ==> dst[i] == old(dst[i])
  {
    var k := 0;
    while k < |b| && at + k < dst.Length
      invariant 0 <= k <= |b| && at + k <= dst.Length
      invariant dst[..at] == old(dst[..at])
      invariant forall i :: at <= i < at + k ==> dst[i] == b[i - at]
      invariant forall i :: at + |b| <= i < dst.Length ==> dst[i] == old(dst[i])
    {
      dst[at + k] := b[k];
      k := k + 1;
    }
  }

  /** The loop that doubles what it copies. It writes past the match, but only what a longer one would be. */
  method Double(dst: array<Byte>, di: nat, offset: nat, bytesToCopy: nat) returns (ok: bool)
    requires 1 <= offset <= di <= dst.Length
    modifies dst
    ensures dst[..di] == old(dst[..di])
    ensures di + bytesToCopy <= dst.Length ==> ok
    ensures ok ==> Repeats(dst[..], di - offset, old(dst[di - offset..di]), bytesToCopy + offset)
  {
    hide Repeats;
    var base := di - offset;
    var n := offset;
    ghost var p := dst[base..di];
    StartRepeats(dst[..], base, di);
    while n <= bytesToCopy + offset
      invariant n >= offset && n % offset == 0 && dst[..di] == old(dst[..di])
      invariant Repeats(dst[..], base, p, n)
      decreases bytesToCopy + offset - n
    {
      if base + n > dst.Length { return false; }
      ghost var mem := dst[..];
      CopyIn(dst, base + n, dst[base..base + n]);
      assert dst[..di] == dst[..base + n][..di];
      RepeatsMore(mem, dst[..], base, p, n, n);
      ModShift(n, n, offset);
      n := n * 2;
    }
    FewerRepeats(dst[..], base, p, n, bytesToCopy + offset);
    return true;
  }

  lemma StartRepeats(mem: seq<Byte>, base: nat, di: nat)
    requires base < di <= |mem|
    ensures Repeats(mem, base, mem[base..di], di - base)
  {
    forall i | base <= i < di
      ensures mem[i] == mem[base..di][(i - base) % (di - base)]
    {
      UniqueQuotient(i - base, di - base, 0, i - base);
    }
  }

  lemma FewerRepeats(mem: seq<Byte>, base: nat, p: seq<Byte>, n: nat, m: nat)
    requires Repeats(mem, base, p, n) && m <= n
    ensures Repeats(mem, base, p, m)
  {
  }

  lemma Take(dst: array<Byte>, k: nat)
    requires k <= dst.Length
    ensures dst[..][..k] == dst[..k]
  {
  }

  /** The rest of a match, less than a period, behind whole periods. */
  method CopyRest(dst: array<Byte>, di: nat, offset: nat, whole: nat, mLen: nat, ghost p: seq<Byte>)
    requires 1 <= offset <= di && di + whole + mLen <= dst.Length && whole % offset == 0 && mLen <= offset
    requires |p| == offset && Repeats(dst[..], di - offset, p, whole + offset)
    modifies dst
    ensures dst[..di] == old(dst[..di]) && dst[..di + whole + mLen] == CopyBack(dst[..di], offset, whole + mLen)
  {
    hide Repeats; hide CopyBack;
    var base, d := di - offset, di + whole;
    ghost var mem := dst[..];
    CopyIn(dst, d, dst[base..base + mLen]);
    ghost var mem' := dst[..];
    assert mem'[..d] == mem[..d];
    ModShift(offset, whole, offset);
    RepeatsMore(mem, mem', base, p, whole + offset, mLen);
    RepeatsIsCopy(mem', di, offset, whole + mLen, p);
    Take(dst, di);
    Take(dst, di + whole + mLen);
    assert mem'[..di] == mem'[..d][..di] && mem[..di] == mem[..d][..di];
  }

  /** The copy of a match. It panics if it does not fit. */
  method CopyMatch(dst: array<Byte>, di: nat, offset: nat, mLen0: nat) returns (ok: bool)
    requires 1 <= offset <= di <= dst.Length
    modifies dst
    ensures ok <==> di + mLen0 <= dst.Length
    ensures ok ==> dst[..di + mLen0] == CopyBack(old(dst[..di]), offset, mLen0)
  {
    hide Repeats; hide CopyBack;
    var mLen, bytesToCopy := mLen0, 0;
    ghost var p := dst[di - offset..di];
    if mLen > offset {
      bytesToCopy := offset * (mLen / offset);
      WholePeriods(mLen, offset);
      ok := Double(dst, di, offset, bytesToCopy);
      if !ok { return; }
      mLen := mLen - bytesToCopy;
    } else {
      StartRepeats(dst[..], di - offset, di);
    }
    if di + bytesToCopy + mLen > dst.Length { return false; }
    CopyRest(dst, di, offset, bytesToCopy, mLen, p);
    return true;
  }

  lemma WholePeriods(mLen: nat, offset: nat)
    requires offset > 0
    ensures 0 <= offset * (mLen / offset) <= mLen < offset * (mLen / offset) + offset &&
            offset * (mLen / offset) % offset == 0
  {
    var q := mLen / offset;
    assert mLen == offset * q + mLen % offset;
    UniqueQuotient(offset * q, offset, q, 0);
  }

  const HAS_ERROR := -2

  /** The length bytes after a nibble of 15. */
  method ReadExtension(src: seq<Byte>, s0: nat) returns (ok: bool, sum: nat, s: nat)
    ensures ok == Extension(src, s0).Some?
    ensures ok ==> Extension(src, s0).value == (sum, s)
  {
    sum, s := 0, s0;
    while true
      invariant s0 <= s && Extension(src, s0) == (match Extension(src, s) case None => None
                                                  case Some(t) => Some((sum + t.0, t.1)))
      decreases |src| - s
    {
      if s >= |src| { return false, sum, s; }
      var x := Load8(src, s);
      sum := sum + x;
      s := s + 1;
      if x != 0xff { return true, sum, s; }
    }
  }

  /** What decoding from `s` on still gives is all that the block gives. */
  ghost predicate Midway(src: seq<Byte>, s: nat, out: seq<Byte>, dst: seq<Byte>) {
    Decode(src, s, out) == Decode(src, 0, []) && (|out| <= |dst| ==> dst[..|out|] == out)
  }

  /** No result, or none that fits. */
  ghost predicate Hopeless(src: seq<Byte>, room: nat) {
    Decode(src, 0, []).Some? ==> |Decode(src, 0, []).value| > room
  }

  datatype Literals = Taken | Continue | Panic

  /** Shortcut 2: 18 bytes of a match that does not overlap with them. Writing may not start past the end of `dst`. */
  method ShortMatch(dst: array<Byte>, src: seq<Byte>, si0: nat, di0: nat, token: nat)
      returns (r: Literals, si: nat, di: nat)
    requires si0 + 2 <= |src|
    modifies dst
    ensures r.Panic? ==> di0 > dst.Length
    ensures r.Taken? ==> si == si0 && di == di0 && dst[..] == old(dst[..])
    ensures r.Continue? ==> di0 <= dst.Length && MatchAt(src, si0, token % 16, di0).Some?
    ensures r.Continue? ==>
              var m := MatchAt(src, si0, token % 16, di0).value;
              && si == m.2 && di == di0 + m.1
              && (di <= dst.Length ==> dst[..di] == CopyBack(old(dst[..di0]), m.0, m.1))
  {
    hide CopyBack;
    si, di := si0, di0;
    var mLen := token % 16;
    if mLen < 15 {
      mLen := mLen + 4;
      var offset := Load16(src, si);
      if mLen <= offset && offset < di {
        var i := di - offset;
        var end := i + 18;
        if end <= dst.Length {
          if di > dst.Length { return Panic, si, di; }
          ghost var was := dst[..di];
          CopyIn(dst, di, dst[i..end]);
          if di + mLen <= dst.Length { Whole(was, offset, mLen, dst[..di + mLen]); }
          return Continue, si + 2, di + mLen;
        }
      }
    }
    return Taken, si, di;
  }

  /** Shortcut 1: at most 14 literals, of which 16 are copied. The rest is to be overwritten. */
  method ShortLiterals(dst: array<Byte>, src: seq<Byte>, si0: nat, di0: nat, lLen: nat) returns (ok: bool)
    requires si0 + 16 < |src| && lLen < 15
    modifies dst
    ensures ok == (di0 <= dst.Length)
    ensures ok && di0 + lLen <= dst.Length ==> dst[..di0 + lLen] == old(dst[..di0]) + src[si0..si0 + lLen]
  {
    if di0 > dst.Length { return false; }
    CopyIn(dst, di0, src[si0..si0 + 16]);
    assert di0 + lLen <= dst.Length ==> dst[..di0 + lLen] == dst[..di0] + src[si0..si0 + lLen];
    return true;
  }

  /** The literals of a sequence, and, if the second shortcut is taken, its match. */
  method CopyLiterals(dst: array<Byte>, src: seq<Byte>, si0: nat, di0: nat) returns (r: Literals, si: nat, di: nat)
    requires si0 < |src| && Load8(src, si0) / 16 > 0
    modifies dst
    ensures r.Panic? ==> LiteralRun(src, si0).None? || di0 + LiteralRun(src, si0).value.0 > dst.Length
    ensures !r.Panic? ==> LiteralRun(src, si0).Some? && di0 <= dst.Length
    ensures r.Taken? ==>
              && si == LiteralRun(src, si0).value.1 + LiteralRun(src, si0).value.0
              && di == di0 + LiteralRun(src, si0).value.0
              && (di <= dst.Length ==> dst[..di] == old(dst[..di0]) + src[LiteralRun(src, si0).value.1..si])
    ensures r.Continue? ==>
              var l := LiteralRun(src, si0).value;
              var e := l.1 + l.0;
              var m := MatchAt(src, e, Load8(src, si0) % 16, di0 + l.0);
              && m.Some? && e < |src| && si == m.value.2 && di == di0 + l.0 + m.value.1
              && di0 + l.0 <= dst.Length
              && (di <= dst.Length ==> dst[..di] == CopyBack(old(dst[..di0]) + src[l.1..e], m.value.0, m.value.1))
  {
    hide CopyBack; hide MatchAt;
    var b := Load8(src, si0);
    var lLen := b / 16;
    si, di := si0 + 1, di0;
    if lLen < 15 && si + 16 < |src| {
      var ok := ShortLiterals(dst, src, si, di, lLen);
      if !ok { return Panic, si, di; }
      r, si, di := ShortMatch(dst, src, si + lLen, di + lLen, b);
      return;
    }
    if lLen == 15 {
      var ok, sum, next := ReadExtension(src, si);
      if !ok { return Panic, si, di; }
      lLen, si := lLen + sum, next;
    }
    if si + lLen > |src| || di + lLen > dst.Length { return Panic, si, di; }
    CopyIn(dst, di, src[si..si + lLen]);
    assert dst[..di + lLen] == old(dst[..di0]) + src[si..si + lLen];
    return Taken, si + lLen, di + lLen;
  }

  /** A match that does not overlap with what it is copied to. */
  lemma Whole(was: seq<Byte>, offset: nat, length: nat, r: seq<Byte>)
    requires 1 <= offset <= |was| && length <= offset && |r| == |was| + length && r[..|was|] == was
    requires forall i :: |was| <= i < |r| ==> r[i] == was[i - offset]
    ensures r == CopyBack(was, offset, length)
  {
    forall i | |was| <= i < |r|
      ensures r[i] == r[i - offset]
    {
      assert r[i - offset] == r[..|was|][i - offset];
    }
    CopyBackUnique(was, offset, length, r);
  }

  /** The match of a sequence: nothing if it is bad, or does not fit. */
  method TakeMatch(dst: array<Byte>, src: seq<Byte>, si0: nat, di0: nat, token: nat)
      returns (ok: bool, si: nat, di: nat)
    requires si0 <= |src| && !(si0 == |src| && token % 16 == 0)
    modifies dst
    ensures ok ==> di0 <= dst.Length && si0 + 2 < |src| && MatchAt(src, si0, token % 16, di0).Some?
    ensures ok ==>
              var m := MatchAt(src, si0, token % 16, di0).value;
              si == m.2 && di == di0 + m.1 <= dst.Length && dst[..di] == CopyBack(old(dst[..di0]), m.0, m.1)
    ensures !ok ==>
              match MatchAt(src, si0, token % 16, di0)
              case None => true
              case Some(m) => m.2 >= |src| || di0 + m.1 > dst.Length
  {
    hide CopyBack;
    ok, si, di := false, si0, di0;
    if |src| >= 2 && si >= |src| - 2 { return; }
    if si + 2 > |src| { return; }
    var offset := Load16(src, si);
    if offset == 0 { return; }
    si := si + 2;
    var mLen := token % 16 + LZ4_MIN_MATCH;
    if mLen == LZ4_MIN_MATCH + 15 {
      var good, sum, next := ReadExtension(src, si);
      if !good { return; }
      mLen, si := mLen + sum, next;
    }
    if di < offset { return; }
    if di > dst.Length { return; }
    ok := CopyMatch(dst, di, offset, mLen);
    di := di + mLen;
  }

  /** How long a block is at least, seen from the sequence at `s`. */
  lemma AtLeast(src: seq<Byte>, s: nat, out: seq<Byte>)
    requires s < |src| && Decode(src, s, out).Some?
    ensures LiteralRun(src, s).Some?
    ensures var l := LiteralRun(src, s).value;
            && |Decode(src, s, out).value| >= |out| + l.0
            && (!(l.1 + l.0 == |src| && Load8(src, s) % 16 == 0) ==>
                  var m := MatchAt(src, l.1 + l.0, Load8(src, s) % 16, |out| + l.0);
                  m.Some? && m.value.2 < |src| && |Decode(src, s, out).value| >= |out| + l.0 + m.value.1)
  {
    hide Decode; hide LiteralRun; hide MatchAt;
    DecodeStep(src, s, out);
    var l := LiteralRun(src, s).value;
    var out1 := out + src[l.1..l.1 + l.0];
    assert |out1| == |out| + l.0;
    if !(l.1 + l.0 == |src| && Load8(src, s) % 16 == 0) {
      var m := MatchAt(src, l.1 + l.0, Load8(src, s) % 16, |out1|).value;
      CopyBackShape(out1, m.0, m.1);
      DecodeGrows(src, m.2, CopyBack(out1, m.0, m.1));
      DecodeStep(src, m.2, CopyBack(out1, m.0, m.1));
    }
  }

  /** No result of the literals, or too many of them. */
  lemma Overrun(src: seq<Byte>, s: nat, out: seq<Byte>, dst: seq<Byte>)
    requires s < |src| && Midway(src, s, out, dst)
    requires LiteralRun(src, s).None? || |out| + LiteralRun(src, s).value.0 > |dst|
    ensures Hopeless(src, |dst|)
  {
    hide Decode; hide LiteralRun; hide MatchAt;
    if Decode(src, s, out).Some? { AtLeast(src, s, out); }
  }

  /** The same for the match. */
  lemma BadMatch(src: seq<Byte>, s: nat, out: seq<Byte>, dst: seq<Byte>)
    requires s < |src| && Midway(src, s, out, dst) && LiteralRun(src, s).Some?
    requires var l := LiteralRun(src, s).value;
             && !(l.1 + l.0 == |src| && Load8(src, s) % 16 == 0)
             && match MatchAt(src, l.1 + l.0, Load8(src, s) % 16, |out| + l.0)
                case None => true
                case Some(m) => m.2 >= |src| || |out| + l.0 + m.1 > |dst|
    ensures Hopeless(src, |dst|)
  {
    hide Decode; hide LiteralRun; hide MatchAt;
    if Decode(src, s, out).Some? { AtLeast(src, s, out); }
  }

  lemma NoLiterals(src: seq<Byte>, s: nat)
    requires s < |src| && Load8(src, s) / 16 == 0
    ensures LiteralRun(src, s) == Some((0, s + 1))
  {
  }

  /** One sequence further on. */
  lemma NextSequence(src: seq<Byte>, s: nat, out: seq<Byte>, dst: seq<Byte>, dst': seq<Byte>)
    requires s < |src| && Midway(src, s, out, dst) && LiteralRun(src, s).Some? && |dst'| == |dst|
    requires var l := LiteralRun(src, s).value;
             var out1 := out + src[l.1..l.1 + l.0];
             && !(l.1 + l.0 == |src| && Load8(src, s) % 16 == 0)
             && var m := MatchAt(src, l.1 + l.0, Load8(src, s) % 16, |out1|);
             && m.Some? && (|out1| + m.value.1 <= |dst| ==>
                              dst'[..|out1| + m.value.1] == CopyBack(out1, m.value.0, m.value.1))
    ensures var l := LiteralRun(src, s).value;
            var out1 := out + src[l.1..l.1 + l.0];
            var m := MatchAt(src, l.1 + l.0, Load8(src, s) % 16, |out1|).value;
            |CopyBack(out1, m.0, m.1)| == |out1| + m.1 && Midway(src, m.2, CopyBack(out1, m.0, m.1), dst')
  {
    hide Decode; hide LiteralRun; hide MatchAt;
    DecodeStep(src, s, out);
    var l := LiteralRun(src, s).value;
    var out1 := out + src[l.1..l.1 + l.0];
    var m := MatchAt(src, l.1 + l.0, Load8(src, s) % 16, |out1|).value;
    CopyBackShape(out1, m.0, m.1);
  }

  /**
   `UncompressBlock`. It gives what the LZ4 format says, and the length of that, whenever there is such
   a thing and it fits. What does not fit is an error, or a length beyond the end of `dst`.
   */
  method UncompressBlock(dst: array<Byte>, src: seq<Byte>) returns (ret: int)
    modifies dst
    ensures ret == HAS_ERROR || ret >= 0
    ensures ret >= 0 ==> Decode(src, 0, []).Some? && |Decode(src, 0, []).value| == ret
    ensures 0 <= ret <= dst.Length ==> Decode(src, 0, []) == Some(dst[..ret])
    ensures Decode(src, 0, []).Some? && |Decode(src, 0, []).value| <= dst.Length ==> ret >= 0
  {
    hide Decode; hide CopyBack; hide LiteralRun; hide MatchAt;
    var si: nat, di: nat := 0, 0;
    ghost var out: seq<Byte> := [];
    while true
      invariant |out| == di && Midway(src, si, out, dst[..])
      decreases |src| - si
    {
      ghost var was, s, out0 := dst[..], si, out;
      DecodeStep(src, si, out);
      if si >= |src| { return HAS_ERROR; }
      var b := Load8(src, si);
      var r := Literals.Taken;
      if b / 16 > 0 {
        r, si, di := CopyLiterals(dst, src, si, di);
        if r.Panic? {
          Overrun(src, s, out0, was);
          return HAS_ERROR;
        }
      } else {
        NoLiterals(src, si);
        si := si + 1;
      }
      ghost var l := LiteralRun(src, s).value;
      ghost var out1 := out0 + src[l.1..l.1 + l.0];
      if r.Continue? {
        NextSequence(src, s, out0, was, dst[..]);
        ghost var m := MatchAt(src, l.1 + l.0, b % 16, |out1|).value;
        out := CopyBack(out1, m.0, m.1);
      } else {
        assert di <= dst.Length ==> dst[..di] == out1;
        if si == |src| && b % 16 == 0 { return di; }
        var ok, si', di' := TakeMatch(dst, src, si, di, b);
        if !ok {
          BadMatch(src, s, out0, was);
          return HAS_ERROR;
        }
        NextSequence(src, s, out0, was, dst[..]);
        ghost var m := MatchAt(src, si, b % 16, di).value;
        out := CopyBack(out1, m.0, m.1);
        si, di := si', di';
      }
    }
  }
}
