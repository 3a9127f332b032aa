/** The meaning of an LZ4 block: "Compressed block format" of the LZ4 Block Format Description. */
module Lz4Format {
  import opened Bytes
  import opened Format

  const LZ4_MIN_MATCH: nat := 4

  /** Length bytes after a nibble of 15: they add up, and the first one below 255 is the last. */
  function Extension(src: seq<Byte>, s: nat): (r: Option<(nat, nat)>)
    ensures r.Some? ==> s < r.value.1 <= |src|
    decreases |src| - s
  {
    if s >= |src| then None
    else if src[s] != 255 then Some((src[s], s + 1))
    else
      match Extension(src, s + 1)
      case None => None
      case Some(t) => Some((255 + t.0, t.1))
  }

  /** A length with its nibble, `base` being added to both forms. */
  function Length(src: seq<Byte>, s: nat, nibble: nat, base: nat): (r: Option<(nat, nat)>)
    requires s <= |src|
    ensures r.Some? ==> s <= r.value.1 <= |src|
  {
    if nibble < 15 then Some((nibble + base, s))
    else
      match Extension(src, s)
      case None => None
      case Some(t) => Some((15 + base + t.0, t.1))
  }

  /** `x` bytes are enough for the part of a length that is over the 15 of its nibble. */
  predicate Covers(x: int, over: int) {
    x >= 0 && (over >= 15 ==> over - 15 < 255 * x)
  }

  lemma {:induction false} ExtensionSize(src: seq<Byte>, s: nat)
    requires Extension(src, s).Some?
    ensures var t := Extension(src, s).value; t.0 < 255 * (t.1 - s)
    decreases |src| - s
  {
    if src[s] == 255 { ExtensionSize(src, s + 1); }
  }

  lemma LengthSize(src: seq<Byte>, s: nat, nibble: nat, base: nat)
    requires s <= |src| && Length(src, s, nibble, base).Some? && nibble <= 15
    ensures var t := Length(src, s, nibble, base).value; t.0 >= base && Covers(t.1 - s, t.0 - base)
  {
    if nibble == 15 { ExtensionSize(src, s); }
  }

  /** Where the literals of the sequence at `s` start and how many there are. */
  function LiteralRun(src: seq<Byte>, s: nat): (r: Option<(nat, nat)>)
    requires s < |src|
    ensures r.Some? ==> s < r.value.1 && r.value.1 + r.value.0 <= |src|
  {
    match Length(src, s + 1, Load8(src, s) / 16, 0)
    case None => None
    case Some(t) => if t.1 + t.0 <= |src| then Some(t) else None
  }

  /** The match of a sequence, from its two offset bytes at `e`: offset, length, and what follows. */
  function MatchAt(src: seq<Byte>, e: nat, nibble: nat, size: nat): (r: Option<(nat, nat, nat)>)
    ensures r.Some? ==> 1 <= r.value.0 <= size && e < r.value.2 <= |src|
  {
    if e + 2 > |src| then None
    else
      var offset := Load16(src, e);
      if offset == 0 || offset > size then None
      else
        match Length(src, e + 2, nibble, LZ4_MIN_MATCH)
        case None => None
        case Some(t) => Some((offset, t.0, t.1))
  }

  /** Decode from the sequence at `s`. The last sequence has no match and ends the block. */
  function Decode(src: seq<Byte>, s: nat, out: seq<Byte>): (r: Option<seq<Byte>>)
    decreases |src| - s
  {
    if s >= |src| then None
    else
      match LiteralRun(src, s)
      case None => None
      case Some(l) =>
        var e := l.1 + l.0;
        var out1 := out + src[l.1..e];
        var nibble := Load8(src, s) % 16;
        if e == |src| && nibble == 0 then Some(out1)
        else
          match MatchAt(src, e, nibble, |out1|)
          case None => None
          case Some(m) => Decode(src, m.2, CopyBack(out1, m.0, m.1))
  }

  /** One unfolding of the LZ4 decoder. */
  lemma DecodeStep(src: seq<Byte>, s: nat, out: seq<Byte>)
    ensures s >= |src| ==> Decode(src, s, out) == None
    ensures s < |src| ==>
      Decode(src, s, out) ==
        match LiteralRun(src, s)
        case None => None
        case Some(l) =>
          var e := l.1 + l.0;
          var out1 := out + src[l.1..e];
          if e == |src| && Load8(src, s) % 16 == 0 then Some(out1)
          else
            match MatchAt(src, e, Load8(src, s) % 16, |out1|)
            case None => None
            case Some(m) => Decode(src, m.2, CopyBack(out1, m.0, m.1))
  {
  }

  /** A match that uses up the input cannot be the last sequence. */
  lemma BadSequence(src: seq<Byte>, s: nat, out: seq<Byte>)
    requires s < |src| && LiteralRun(src, s).Some?
    requires var l := LiteralRun(src, s).value;
             && !(l.1 + l.0 == |src| && Load8(src, s) % 16 == 0)
             && match MatchAt(src, l.1 + l.0, Load8(src, s) % 16, |out| + l.0)
                case None => true
                case Some(m) => m.2 >= |src|
    ensures Decode(src, s, out).None?
  {
    var l := LiteralRun(src, s).value;
    assert |out + src[l.1..l.1 + l.0]| == |out| + l.0;
  }

  /** Decoding only ever adds to what is there, and after a long literal run there is more than that. */
  lemma {:induction false} DecodeGrows(src: seq<Byte>, s: nat, out: seq<Byte>)
    requires Decode(src, s, out).Some?
    ensures s < |src| && LiteralRun(src, s).Some?
    ensures var l := LiteralRun(src, s).value; out + src[l.1..l.1 + l.0] <= Decode(src, s, out).value
    decreases |src| - s
  {
    var l := LiteralRun(src, s).value;
    var out1 := out + src[l.1..l.1 + l.0];
    var nibble := Load8(src, s) % 16;
    if !(l.1 + l.0 == |src| && nibble == 0) {
      var m := MatchAt(src, l.1 + l.0, nibble, |out1|).value;
      var out2 := CopyBack(out1, m.0, m.1);
      CopyBackShape(out1, m.0, m.1);
      DecodeGrows(src, m.2, out2);
      assert Decode(src, s, out).value[..|out1|] == out2[..|out1|];
    }
  }
}
