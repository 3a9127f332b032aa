/** internal/lz4ref/block.go: `Compressor` and `CompressBlock`. */
module Lz4Compress {
  import opened Bytes
  import opened Format
  import opened Encoding
  import opened Lz4Format
  import opened Matching
  import Emission
  import Lz4Uncompress

  const WIN_SIZE: nat := 65536
  const MF_LIMIT := 14

  // ---------- what is written ----------

  function ExtBytes(x: nat): (r: seq<Byte>)
    ensures |r| == x / 255 + 1
  {
    if x < 255 then [x] else [255] + ExtBytes(x - 255)
  }

  function Nibble(x: nat): (r: nat)
    ensures r < 16
  {
    if x < 15 then x else 15
  }

  function LengthBytes(x: nat): (r: seq<Byte>) { if x < 15 then [] else ExtBytes(x - 15) }

  /** A sequence whose match has `mLen + 4` bytes. */
  function SequenceBytes(lits: seq<Byte>, offset: nat, mLen: nat): (r: seq<Byte>) {
    [Nibble(|lits|) * 16 + Nibble(mLen)] + LengthBytes(|lits|) + lits + LE16(offset) + LengthBytes(mLen)
  }

  function LastBytes(lits: seq<Byte>): (r: seq<Byte>) {
    [Nibble(|lits|) * 16] + LengthBytes(|lits|) + lits
  }

  lemma {:induction false} ExtensionReads(p: seq<Byte>, x: nat, t: seq<Byte>)
    ensures Extension(p + ExtBytes(x) + t, |p|) == Some((x, |p| + |ExtBytes(x)|))
    decreases x
  {
    var b := p + ExtBytes(x) + t;
    if x < 255 {
      assert b[|p|] == x;
    } else {
      assert b[|p|] == 255;
      ExtensionReads(p + [255], x - 255, t);
      assert b == (p + [255]) + ExtBytes(x - 255) + t;
    }
  }

  lemma LengthReads(p: seq<Byte>, x: nat, t: seq<Byte>, base: nat)
    ensures Length(p + LengthBytes(x) + t, |p|, Nibble(x), base) == Some((x + base, |p| + |LengthBytes(x)|))
  {
    if x >= 15 { ExtensionReads(p, x - 15, t); }
  }

  /** Token, literal length and literals, in front of anything. */
  lemma LiteralsRead(p: seq<Byte>, lits: seq<Byte>, nibble: nat, t: seq<Byte>)
    requires nibble < 16
    ensures var b := p + ([Nibble(|lits|) * 16 + nibble] + LengthBytes(|lits|) + lits) + t;
            var e := |p| + 1 + |LengthBytes(|lits|)|;
            && |p| < |b| && Load8(b, |p|) % 16 == nibble
            && LiteralRun(b, |p|) == Some((|lits|, e)) && b[e..e + |lits|] == lits
  {
    hide LengthBytes; hide Nibble;
    var token := [Nibble(|lits|) * 16 + nibble];
    var b := p + (token + LengthBytes(|lits|) + lits) + t;
    var e := |p| + 1 + |LengthBytes(|lits|)|;
    LengthReads(p + token, |lits|, lits + t, 0);
    assert b == (p + token) + LengthBytes(|lits|) + (lits + t);
    assert b[|p|] == token[0];
    QuotientOfSum(nibble, Nibble(|lits|), 16);
    assert b[e..e + |lits|] == lits;
  }

  lemma MatchReads(p: seq<Byte>, offset: nat, mLen: nat, t: seq<Byte>, size: nat)
    requires 1 <= offset <= size && offset < WIN_SIZE
    ensures MatchAt(p + (LE16(offset) + LengthBytes(mLen)) + t, |p|, Nibble(mLen), size)
         == Some((offset, mLen + 4, |p| + 2 + |LengthBytes(mLen)|))
  {
    hide LengthBytes; hide Nibble; hide Length; hide Load16;
    var b := p + (LE16(offset) + LengthBytes(mLen)) + t;
    assert b == p + LE16(offset) + (LengthBytes(mLen) + t);
    LoadLE16(p, offset, LengthBytes(mLen) + t);
    assert b == (p + LE16(offset)) + LengthBytes(mLen) + t;
    LengthReads(p + LE16(offset), mLen, t, 4);
  }

  /** `b` is the start of a block that says `out`. */
  ghost predicate Leads(b: seq<Byte>, out: seq<Byte>) {
    forall t: seq<Byte> :: Decode(b + t, 0, []) == Decode(b + t, |b|, out)
  }

  lemma StartLeads()
    ensures Leads([], [])
  {
  }

  /** A sequence read back from the bytes that are written for it. */
  lemma SequenceReads(b: seq<Byte>, out: seq<Byte>, lits: seq<Byte>, offset: nat, mLen: nat, t: seq<Byte>)
    requires 1 <= offset <= |out| + |lits| && offset < WIN_SIZE
    ensures var q := SequenceBytes(lits, offset, mLen);
            Decode((b + q) + t, |b|, out) == Decode((b + q) + t, |b + q|, CopyBack(out + lits, offset, mLen + 4))
  {
    hide LengthBytes; hide Nibble; hide Decode; hide LiteralRun; hide MatchAt; hide LE16;
    var head := [Nibble(|lits|) * 16 + Nibble(mLen)] + LengthBytes(|lits|) + lits;
    var tail := LE16(offset) + LengthBytes(mLen);
    var q := SequenceBytes(lits, offset, mLen);
    assert q == head + tail;
    var c := (b + q) + t;
    assert c == b + head + (tail + t);
    LiteralsRead(b, lits, Nibble(mLen), tail + t);
    assert c == (b + head) + tail + t;
    MatchReads(b + head, offset, mLen, t, |out| + |lits|);
    DecodeStep(c, |b|, out);
    LE16Length(offset);
  }

  lemma LE16Length(x: nat)
    ensures |LE16(x)| == 2
  {
  }

  lemma LeadsOn(b: seq<Byte>, out: seq<Byte>, lits: seq<Byte>, offset: nat, mLen: nat)
    requires Leads(b, out) && 1 <= offset <= |out| + |lits| && offset < WIN_SIZE
    ensures Leads(b + SequenceBytes(lits, offset, mLen), CopyBack(out + lits, offset, mLen + 4))
  {
    hide Decode; hide SequenceBytes; hide CopyBack;
    var q := SequenceBytes(lits, offset, mLen);
    forall t: seq<Byte>
      ensures Decode((b + q) + t, 0, []) == Decode((b + q) + t, |b + q|, CopyBack(out + lits, offset, mLen + 4))
    {
      SequenceReads(b, out, lits, offset, mLen, t);
      assert (b + q) + t == b + (q + t);
    }
  }

  /** The last literals complete the block. */
  lemma LastReads(b: seq<Byte>, out: seq<Byte>, lits: seq<Byte>)
    requires Leads(b, out)
    ensures Decode(b + LastBytes(lits), 0, []) == Some(out + lits)
  {
    hide LengthBytes; hide Nibble; hide LiteralRun; hide Decode;
    var q := LastBytes(lits);
    assert q == [Nibble(|lits|) * 16 + 0] + LengthBytes(|lits|) + lits;
    assert Decode(b + q, 0, []) == Decode(b + q, |b|, out);
    assert b + q + [] == b + q;
    LiteralsRead(b, lits, 0, []);
    DecodeStep(b + q, |b|, out);
  }

  // ---------- writing it ----------

  /** Length bytes. `ok` is false if they do not fit. */
  method EmitExtension(dst: array<Byte>, d0: nat, x: nat) returns (ok: bool, d: nat)
    requires d0 <= dst.Length
    modifies dst
    ensures ok <==> d0 + |ExtBytes(x)| <= dst.Length
    ensures ok ==> d == d0 + |ExtBytes(x)| && dst[..d] == old(dst[..d0]) + ExtBytes(x)
  {
    d := d0;
    var l := x;
    ghost var done: seq<Byte> := [];
    while l >= 0xff && d < dst.Length
      invariant d0 <= d <= dst.Length && l >= 0 && |done| == d - d0
      invariant dst[..d] == old(dst[..d0]) + done && done + ExtBytes(l) == ExtBytes(x)
    {
      assert done + ExtBytes(l) == (done + [255]) + ExtBytes(l - 255);
      dst[d] := 0xff;
      d := d + 1;
      l := l - 0xff;
      done := done + [255];
    }
    if d >= dst.Length { return false, d; }
    dst[d] := l;
    d := d + 1;
    ok := true;
  }

  method EmitLength(dst: array<Byte>, d0: nat, x: nat) returns (ok: bool, d: nat)
    requires d0 <= dst.Length
    modifies dst
    ensures ok <==> d0 + |LengthBytes(x)| <= dst.Length
    ensures ok ==> d == d0 + |LengthBytes(x)| && dst[..d] == old(dst[..d0]) + LengthBytes(x)
  {
    if x >= 15 {
      ok, d := EmitExtension(dst, d0, x - 15);
    } else {
      ok, d := true, d0;
    }
  }

  /** Token and literal length. */
  method EmitToken(dst: array<Byte>, d0: nat, lits: nat, nibble: nat) returns (ok: bool, d: nat)
    requires d0 <= dst.Length && nibble < 16
    modifies dst
    ensures ok <==> d0 + 1 + |LengthBytes(lits)| <= dst.Length
    ensures ok ==> d == d0 + 1 + |LengthBytes(lits)| &&
                   dst[..d] == old(dst[..d0]) + ([Nibble(lits) * 16 + nibble] + LengthBytes(lits))
  {
    hide LengthBytes;
    ok, d := false, d0;
    if d >= dst.Length { return; }
    dst[d] := nibble;
    dst[d] := dst[d] + Nibble(lits) * 16;
    d := d + 1;
    ghost var token := [Nibble(lits) * 16 + nibble];
    assert dst[..d] == old(dst[..d0]) + token;
    ok, d := EmitLength(dst, d, lits);
    if !ok { return; }
    assert dst[..d] == old(dst[..d0]) + (token + LengthBytes(lits));
  }

  method CopyLiterals(dst: array<Byte>, d0: nat, lits: seq<Byte>) returns (d: nat)
    requires d0 + |lits| <= dst.Length
    modifies dst
    ensures d == d0 + |lits| && dst[..d] == old(dst[..d0]) + lits
  {
    forall i | 0 <= i < |lits| { dst[d0 + i] := lits[i]; }
    d := d0 + |lits|;
    assert dst[..d] == old(dst[..d0]) + lits;
  }

  method EmitSequence(dst: array<Byte>, d0: nat, lits: seq<Byte>, offset: nat, mLen: nat) returns (ok: bool, d: nat)
    requires d0 <= dst.Length && offset < WIN_SIZE
    modifies dst
    ensures ok <==> d0 + |SequenceBytes(lits, offset, mLen)| <= dst.Length
    ensures ok ==> d == d0 + |SequenceBytes(lits, offset, mLen)| &&
                   dst[..d] == old(dst[..d0]) + SequenceBytes(lits, offset, mLen)
  {
    hide LengthBytes; hide Nibble; hide Low;
    ghost var head := [Nibble(|lits|) * 16 + Nibble(mLen)] + LengthBytes(|lits|) + lits;
    ghost var q := SequenceBytes(lits, offset, mLen);
    assert q == head + LE16(offset) + LengthBytes(mLen);
    ok, d := EmitToken(dst, d0, |lits|, Nibble(mLen));
    if !ok { return; }
    if d + |lits| > dst.Length { return false, d; }
    d := CopyLiterals(dst, d, lits);
    assert dst[..d] == old(dst[..d0]) + head;
    d := d + 2;
    if d > dst.Length { return false, d; }
    dst[d - 2], dst[d - 1] := Low(offset), Low(offset / 256);
    assert dst[..d] == old(dst[..d0]) + (head + LE16(offset));
    ok, d := EmitLength(dst, d, mLen);
    if !ok { return; }
    assert dst[..d] == old(dst[..d0]) + (head + LE16(offset) + LengthBytes(mLen));
  }

  // ---------- the table of positions ----------

  class Compressor {
    /** Positions modulo 64 KiB. */
    var table: array<nat>
    /** Which of them were put there. */
    var inUse: array<bool>

    ghost predicate Valid()
      reads this, table, inUse
    {
      && table.Length == WIN_SIZE && inUse.Length == WIN_SIZE
      && forall h :: 0 <= h < WIN_SIZE ==> table[h] < WIN_SIZE
    }

    /** No position from `limit` on was put, as long as there is nothing but the first 64 KiB. */
    ghost predicate Before(limit: nat)
      requires Valid()
      reads this, table, inUse
    {
      forall h :: 0 <= h < WIN_SIZE && inUse[h] ==> table[h] < limit
    }

    function Stored(h: nat): (r: nat)
      requires Valid() && h < WIN_SIZE
      reads this, table, inUse
    {
      if inUse[h] then table[h] else 0
    }

    ghost predicate Empty()
      requires Valid()
      reads this, table, inUse
    {
      forall h :: 0 <= h < WIN_SIZE ==> Stored(h) == 0
    }

    constructor ()
      ensures Valid() && fresh(table) && fresh(inUse)
    {
      table := new nat[WIN_SIZE](_ => 0);
      inUse := new bool[WIN_SIZE](_ => false);
    }

    /**
     `get`: the one position in the window before `si` that agrees with what is stored. It is negative
     only at the start of the input.
     */
    method Get(h: nat, si: nat) returns (i: int)
      requires Valid() && h < WIN_SIZE && Before(si)
      ensures si - WIN_SIZE <= i < si && (i >= 0 || (si == 0 && i == si - WIN_SIZE))
      ensures forall p: nat :: p < si <= p + WIN_SIZE && p % WIN_SIZE == Stored(h) ==> i == p
    {
      i := Stored(h) + si / WIN_SIZE * WIN_SIZE;
      if i >= si { i := i - WIN_SIZE; }
      forall p: nat | p < si <= p + WIN_SIZE && p % WIN_SIZE == Stored(h)
        ensures i == p
      {
        OnlyPosition(Stored(h), si, p);
      }
    }

    method Put(h: nat, si: nat, ghost limit: nat)
      requires Valid() && h < WIN_SIZE && Before(limit) && si < limit
      modifies table, inUse
      ensures Valid() && Before(limit) && Stored(h) == si % WIN_SIZE
      ensures forall k :: 0 <= k < WIN_SIZE && k != h ==> Stored(k) == old(Stored(k))
    {
      table[h] := si % WIN_SIZE;
      inUse[h] := true;
    }

    method Reset()
      requires Valid()
      modifies this, inUse
      ensures Valid() && Before(0) && table == old(table) && fresh(inUse) && Empty()
    {
      inUse := new bool[WIN_SIZE](_ => false);
    }

    /** `offset <= 0 || offset >= winSize || ...`: whether four bytes at `s` and at `ref` agree, inside the window. */
    static method Hits(src: seq<Byte>, word: Word, s: nat, ref: int) returns (hit: bool)
      requires s + 4 <= |src| && word == src[s..s + 4] && ref < s && (ref >= 0 || s - ref >= WIN_SIZE)
      ensures hit ==> 1 <= s - ref <= s && s - ref < WIN_SIZE && IsMatch(src, s, s - ref, 4)
      ensures hit <==> s - ref < WIN_SIZE && word == src[ref..ref + 4]
    {
      var offset := s - ref;
      if offset <= 0 || offset >= WIN_SIZE || word != src[ref..ref + 4] { return false; }
      WordsMatch(src, s, ref, 4);
      return true;
    }

    lemma EmptySlot(h: nat)
      requires Valid() && Empty() && h < WIN_SIZE
      ensures Stored(h) == 0
    {
    }

    /** The table reads and writes for the positions `s` and `s + 1`. */
    method LookUpTwo(h: nat, h2: nat, s: nat) returns (ref: int, ref2: int)
      requires Valid() && Before(s) && h < WIN_SIZE && h2 < WIN_SIZE
      modifies table, inUse
      ensures Valid() && Before(s + 2)
      ensures ref < s && (ref >= 0 || s - ref >= WIN_SIZE) && 0 <= ref2 <= s
      ensures s == 0 ==> ref < 0 && (old(Stored(h2)) == 0 ==> ref2 == 0)
    {
      assert s == 0 && Stored(h2) == 0 ==> 0 < s + 1 <= 0 + WIN_SIZE && 0 % WIN_SIZE == Stored(h2);
      ref := Get(h, s);
      ref2 := Get(h2, s + 1);
      Put(h, s, s + 2);
      Put(h2, s + 1, s + 2);
    }

    /** The three probes of one round of the search. */
    method Probe(src: seq<Byte>, s0: nat, hash: Word -> nat) returns (hit: bool, s: nat, offset: nat)
      requires Valid() && Before(s0) && HashInto(hash, WIN_SIZE) && s0 + 14 < |src|
      modifies table, inUse
      ensures Valid() && Before(s0 + 3) && s0 <= s <= s0 + 2 && (hit || s == s0 + 2)
      ensures hit ==> 1 <= offset <= s && offset < WIN_SIZE && IsMatch(src, s, offset, 4)
      ensures s0 == 0 && Uniform(src) && old(Empty()) ==> hit && s == offset == 1
    {
      hide IsMatch; hide Uniform; hide Empty; hide HashInto;
      if s0 == 0 && Uniform(src) { UniformWords(src, 1, 0, 4); }
      Slot(hash, WIN_SIZE, src[s0..s0 + 8]);
      Slot(hash, WIN_SIZE, src[s0..s0 + 8][1..]);
      Slot(hash, WIN_SIZE, src[s0..s0 + 8][2..]);
      if Empty() { EmptySlot(hash(src[s0..s0 + 8][1..])); }
      var word: Word := src[s0..s0 + 8];
      s, offset := s0, 0;
      var ref, ref2 := LookUpTwo(hash(word), hash(word[1..]), s);
      Shifted(src, s0, 0);
      hit := Hits(src, word[..4], s, ref);
      if hit { return true, s, s - ref; }
      hit, s, offset := ProbeNext(src, s0, hash(word[2..]), ref2);
    }

    /** The probes one and two bytes further. */
    method ProbeNext(src: seq<Byte>, s0: nat, h: nat, ref2: int) returns (hit: bool, s: nat, offset: nat)
      requires Valid() && Before(s0 + 2) && h < WIN_SIZE && s0 + 14 < |src| && 0 <= ref2 <= s0
      modifies table, inUse
      ensures Valid() && Before(s0 + 3) && s0 + 1 <= s <= s0 + 2 && (hit || s == s0 + 2)
      ensures hit ==> 1 <= offset <= s && offset < WIN_SIZE && IsMatch(src, s, offset, 4)
      ensures s0 + 1 - ref2 < WIN_SIZE && src[s0 + 1..s0 + 5] == src[ref2..ref2 + 4] ==>
                hit && s == s0 + 1 && offset == s0 + 1 - ref2
    {
      hide IsMatch;
      var word: Word := src[s0..s0 + 8];
      var ref3 := Get(h, s0 + 2);
      s, offset := s0 + 1, 0;
      Shifted(src, s0, 1);
      hit := Hits(src, word[1..5], s, ref2);
      if hit { return true, s, s - ref2; }
      s := s + 1;
      Put(h, s, s0 + 3);
      Shifted(src, s0, 2);
      hit := Hits(src, word[2..6], s, ref3);
      if hit { return true, s, s - ref3; }
    }

    /** The match around what a probe found, and its sequence. */
    method TakeMatch(dst: array<Byte>, d0: nat, src: seq<Byte>, anchor: nat, found: nat, offset: nat)
      returns (ok: bool, d: nat, s: nat)
      requires d0 <= dst.Length && anchor <= found && found + 12 < |src|
      requires 1 <= offset <= found && offset < WIN_SIZE && IsMatch(src, found, offset, 4)
      requires Leads(dst[..d0], src[..anchor])
      modifies dst
      ensures ok ==> found + 4 <= s <= |src| && d <= dst.Length && Leads(dst[..d], src[..s])
      ensures ok ==> d - d0 <= s - anchor + (s - anchor) / 255
      ensures !ok ==> dst.Length < d0 + |src| - anchor + (|src| - anchor) / 255
      ensures Uniform(src) && anchor == 0 && found == offset == 1 ==>
                && (ok <== d0 + |src| / 255 + 5 <= dst.Length)
                && (ok ==> d <= d0 + |src| / 255 + 5 && s >= |src| - 21)
    {
      hide Uniform;
      hide Leads; hide SequenceBytes; hide CopyBack;
      var sn := |src| - MF_LIMIT;
      var base := ExtendBack(src, found, found - offset, anchor);
      s := ExtendWords(src, found + 4, found + 4 - offset, sn - 8);
      MatchJoin(src, base, offset, found - base, found, 4);
      MatchJoin(src, base, offset, found + 4 - base, found + 4, s - (found + 4));
      if Uniform(src) && anchor == 0 && found == offset == 1 {
        UniformMatch(src, base, s);
        OneLiteralSize(src[anchor..base], offset, s - (base + 4), |src|);
      }
      var mLen := s - (base + 4);
      var lits := src[anchor..base];
      SequenceSize(lits, offset, mLen);
      ghost var b := dst[..d0];
      ok, d := EmitSequence(dst, d0, lits, offset, mLen);
      if !ok {
        Monotone(s - anchor, |src| - anchor);
        return;
      }
      LeadsOn(b, src[..anchor], lits, offset, mLen);
      assert src[..anchor] + lits == src[..base];
      Emission.MatchIsCopy(src, base, offset, s - base);
    }

    /** The last literals. */
    static method EmitLast(dst: array<Byte>, d0: nat, src: seq<Byte>, anchor: nat, isNotCompressible: bool)
        returns (r: Result)
      requires d0 <= dst.Length && anchor <= |src| && Leads(dst[..d0], src[..anchor])
      modifies dst
      ensures r.Compressed? ==> 0 < r.n <= dst.Length && Decode(dst[..r.n], 0, []) == Some(src)
      ensures d0 + |src| - anchor + (|src| - anchor) / 255 + 2 <= dst.Length &&
              (!isNotCompressible || d0 + (|src| - anchor) / 255 + 2 < anchor) ==>
                r.Compressed?
      ensures r.Compressed? ==> r.n <= d0 + |src| - anchor + (|src| - anchor) / 255 + 2
    {
      hide Leads; hide LastBytes; hide Decode; hide LengthBytes; hide Nibble;
      var lits := src[anchor..];
      LastSize(lits);
      LastParts(lits);
      ghost var b := dst[..d0];
      var ok, d := EmitToken(dst, d0, |lits|, 0);
      if !ok { return ShortBuffer; }
      if isNotCompressible && d >= anchor { return Incompressible; }
      if d + |lits| > dst.Length { return ShortBuffer; }
      d := CopyLiterals(dst, d, lits);
      assert dst[..d] == b + LastBytes(lits);
      LastReads(b, src[..anchor], lits);
      assert src[..anchor] + lits == src;
      return Compressed(d);
    }

    /** What there is of an input of equal bytes, all but the last of which are one match. */
    ghost predicate Short(src: seq<Byte>, room: nat, anchor: nat, di: nat) {
      && |src| >= 100 && room >= |src| / 255 + 28
      && |src| - 21 <= anchor <= |src| && di <= |src| / 255 + 5 + anchor - (|src| - 21)
    }

    /** One round: the probes, and the match if there is one. */
    method Round(src: seq<Byte>, dst: array<Byte>, hash: Word -> nat, si0: nat, anchor0: nat, di0: nat,
                 ghost uniform: bool)
      returns (ok: bool, si: nat, anchor: nat, di: nat)
      requires Valid() && Before(si0) && HashInto(hash, WIN_SIZE) && dst != table as object && si0 + MF_LIMIT < |src|
      requires anchor0 <= si0 && di0 <= dst.Length && di0 <= anchor0 + anchor0 / 255
      requires Leads(dst[..di0], src[..anchor0])
      requires uniform ==> Uniform(src) && |src| >= 100 && dst.Length >= |src| / 255 + 28
      requires uniform ==> (si0 == anchor0 == di0 == 0 && Empty()) || Short(src, dst.Length, anchor0, di0)
      modifies table, inUse, dst
      ensures Valid() && (!ok ==> dst.Length < CompressBlockBound(|src|) && !uniform)
      ensures ok ==> && Before(si) && si0 < si && anchor <= si && anchor <= |src| && di <= dst.Length
                     && di <= anchor + anchor / 255 && Leads(dst[..di], src[..anchor])
      ensures ok && uniform ==> Short(src, dst.Length, anchor, di)
    {
      hide Leads; hide Uniform; hide Empty;
      ok, anchor, di := true, anchor0, di0;
      var hit, s, offset := Probe(src, si0, hash);
      if !hit {
        si := s + 2 + (s - anchor) / 128;
        return;
      }
      ok, di, s := TakeMatch(dst, di, src, anchor, s, offset);
      Tight(anchor, |src| - anchor);
      si := s;
      if !ok { return; }
      Tight(anchor, s - anchor);
      anchor := s;
      if si < |src| - MF_LIMIT { Put(hash(src[si - 2..si + 6]), si - 2, si); }
    }

    /**
     `CompressBlock`. What it returns decodes to `src`, and there is such a result whenever `dst` has
     `CompressBlockBound(len(src))` bytes.
     */
    method CompressBlock(src: seq<Byte>, dst: array<Byte>, hash: Word -> nat) returns (r: Result)
      requires Valid() && HashInto(hash, WIN_SIZE) && dst != table as object
      modifies this, table, inUse, dst
      ensures Valid()
      ensures r.Compressed? ==> 0 < r.n <= dst.Length && Decode(dst[..r.n], 0, []) == Some(src)
      ensures dst.Length >= CompressBlockBound(|src|) ==> r.Compressed?
      ensures Uniform(src) && |src| >= 100 && dst.Length >= |src| / 255 + 28 ==>
                r.Compressed? && r.n <= |src| / 255 + 28
    {
      hide Leads; hide LastBytes; hide Decode; hide Uniform; hide Empty;
      ghost var uniform := Uniform(src) && |src| >= 100 && dst.Length >= |src| / 255 + 28;
      Reset();
      var isNotCompressible := dst.Length < CompressBlockBound(|src|);
      var si: nat, di: nat, anchor: nat := 0, 0, 0;
      var sn := |src| - MF_LIMIT;
      StartLeads();
      assert dst[..0] == [] && src[..0] == [];
      while si < sn
        invariant Valid() && Before(si) && fresh(inUse) && table == old(table)
        invariant anchor <= si && anchor <= |src| && di <= dst.Length && di <= anchor + anchor / 255
        invariant Leads(dst[..di], src[..anchor])
        invariant uniform ==> (si == anchor == di == 0 && Empty()) || Short(src, dst.Length, anchor, di)
        decreases sn - si
      {
        var ok;
        ok, si, anchor, di := Round(src, dst, hash, si, anchor, di, uniform);
        if !ok { return ShortBuffer; }
      }
      if isNotCompressible && anchor == 0 { return Incompressible; }
      Tight(anchor, |src| - anchor);
      r := EmitLast(dst, di, src, anchor, isNotCompressible);
    }
  }

  lemma OnlyPosition(stored: nat, si: nat, p: nat)
    requires p < si <= p + WIN_SIZE && p % WIN_SIZE == stored
    ensures p == (if stored + si / WIN_SIZE * WIN_SIZE >= si then stored + si / WIN_SIZE * WIN_SIZE - WIN_SIZE
                  else stored + si / WIN_SIZE * WIN_SIZE)
  {
  }

  /** A sequence takes no more room than what it stands for, but for one byte in 255. */
  lemma SequenceSize(lits: seq<Byte>, offset: nat, mLen: nat)
    ensures var c := |lits| + mLen + 4; |SequenceBytes(lits, offset, mLen)| <= c + c / 255
  {
  }

  /** A match of equal bytes from the second byte on goes on as far as words are compared. */
  lemma UniformMatch(src: seq<Byte>, base: nat, s: nat)
    requires Uniform(src) && 1 <= base < s <= |src|
    requires base == 1 || src[base - 1] != src[base - 2]
    requires s > |src| - MF_LIMIT - 8 || src[s] != src[s - 1]
    ensures base == 1 && s >= |src| - 21
  {
  }

  lemma OneLiteralSize(lits: seq<Byte>, offset: nat, mLen: nat, n: nat)
    requires |lits| == 1 && mLen <= n
    ensures |SequenceBytes(lits, offset, mLen)| <= n / 255 + 5
  {
  }

  lemma LastParts(lits: seq<Byte>)
    ensures LastBytes(lits) == ([Nibble(|lits|) * 16 + 0] + LengthBytes(|lits|)) + lits
  {
  }

  lemma LastSize(lits: seq<Byte>)
    ensures |LengthBytes(|lits|)| <= |lits| / 255 + 1
    ensures |LastBytes(lits)| <= |lits| + |lits| / 255 + 2
  {
  }

  lemma Monotone(a: nat, b: nat)
    requires a <= b
    ensures a + a / 255 <= b + b / 255
  {
  }

  lemma Tight(a: nat, c: nat)
    ensures a / 255 + c / 255 <= (a + c) / 255
  {
  }

  function CompressBlockBound(n: nat): (r: nat) { n + n / 255 + 16 }

  datatype Result = Compressed(n: nat) | Incompressible | ShortBuffer

  /** There and back: what was compressed comes out again, in a buffer of its size. */
  method RoundTrip(c: Compressor, src: seq<Byte>, dst: array<Byte>, back: array<Byte>, hash: Word -> nat)
      returns (r: Result)
    requires c.Valid() && HashInto(hash, WIN_SIZE) && dst != c.table as object && back != c.table as object &&
             back != dst
    requires back.Length == |src|
    modifies c, c.table, c.inUse, dst, back
    ensures r.Compressed? ==> back[..] == src
    ensures dst.Length >= CompressBlockBound(|src|) ==> r.Compressed?
  {
    hide Decode;
    r := c.CompressBlock(src, dst, hash);
    if r.Compressed? {
      var n := Lz4Uncompress.UncompressBlock(back, dst[..r.n]);
      assert n == |src| && back[..n] == back[..];
    }
  }
}
