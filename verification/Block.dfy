/**
 Whole blocks: the size header in front of a body, as `Encode` and `Decode` (encode.go, decode.go) and
 the reference `EncodeBlock` and `DecodeBlock` (internal/reference) write and read it.
 */
module Block {
  import opened Bytes
  import opened Format
  import opened Varint
  import opened Matching
  import opened FarMatch
  import opened FarInput
  import opened SpaceInput
  import OutputBound
  import Encoding
  import FastDecoder
  import ReferenceDecoder
  import ReferenceEncoder
  import EncodeL1
  import EncodeL2
  import EncodeL3

  // ---------- decode.go ----------

  /** `Foreign` is a block whose first byte is not 0, left to the Snappy and S2 decoder. */
  datatype Header = Invalid | Foreign(decodedLen: nat) | Stored(data: seq<Byte>) | Body(size: nat, body: seq<Byte>)

  /** `isMinLZ`. */
  function IsMinLZ(src: seq<Byte>): (h: Header)
    ensures h.Body? ==> 1 <= |h.body| <= h.size <= MAX_BLOCK_SIZE
  {
    if |src| == 0 then Invalid
    else if |src| == 1 && src[0] == 0 then Stored([])
    else if src[0] != 0 then
      match GetUvarint(src, 0, 0)
      case None => Invalid
      case Some(t) => if t.0 > 0xffff_ffff then Invalid else Foreign(t.0)
    else
      match GetUvarint(src, 1, 0)
      case None => Invalid
      case Some(t) =>
        if t.0 > 0xffff_ffff || t.0 > MAX_BLOCK_SIZE || t.1 == |src| then Invalid
        else if t.0 == 0 then Stored(src[t.1..])
        else if t.0 < |src| - t.1 then Invalid
        else Body(t.0, src[t.1..])
  }

  /** A block that starts with the size of what it holds, as those of Snappy and S2 do, is left to them. */
  lemma ForeignSize(n: nat, body: seq<Byte>)
    requires 1 <= n <= 0xffff_ffff
    ensures IsMinLZ(PutUvarint(n) + body) == Foreign(n)
  {
    UvarintReads([], n, body);
    assert [] + PutUvarint(n) + body == PutUvarint(n) + body;
  }

  /** What a MinLZ block stands for; `None` if it is not one. */
  function Decoded(src: seq<Byte>): (r: Option<seq<Byte>>)
  {
    match IsMinLZ(src)
    case Stored(data) => Some(data)
    case Body(size, body) => DecodeBody(body, size)
    case _ => None
  }

  /** `Decode`, with any decoder for blocks that are not MinLZ. */
  method Decode(src: seq<Byte>, fallback: seq<Byte> -> Option<seq<Byte>>) returns (r: Option<seq<Byte>>)
    ensures r == match IsMinLZ(src)
                 case Foreign(n) => if n > MAX_BLOCK_SIZE then None else fallback(src)
                 case _ => Decoded(src)
    ensures src == [] ==> r == None
    ensures src != [] && src[0] != 0 ==>
              r == match GetUvarint(src, 0, 0)
                   case None => None
                   case Some(t) => if t.0 <= MAX_BLOCK_SIZE then fallback(src) else None
  {
    match IsMinLZ(src) {
      case Foreign(n) => return if n > MAX_BLOCK_SIZE then None else fallback(src);
      case Stored(data) => return Some(data);
      case Body(size, body) =>
        var dst := new Byte[size](_ => 0);
        var code := FastDecoder.MinLZDecode(dst, body);
        return if code == 0 then Some(dst[..]) else None;
      case _ => return None;
    }
  }

  // ---------- internal/reference/decoder.go ----------

  /**
   The size loop of `DecodeBlock` after `k` groups worth `acc`, the next one having weight `w`. Its
   `int` has 64 bits: in the tenth group the lowest bit is the sign and the others are shifted out.
   */
  function ReferenceSize(b: seq<Byte>, s: nat, k: nat, acc: nat, w: nat): (r: Option<(nat, nat)>)
    requires k <= 10
    ensures r.Some? ==> s < r.value.1 <= |b| && (acc <= MAX_BLOCK_SIZE ==> r.value.0 <= MAX_BLOCK_SIZE)
    decreases 10 - k
  {
    if k == 10 || s >= |b| then None
    else
      var v := Load8(b, s);
      if k == 9 then (if v % 2 == 0 && v < 128 then Some((acc, s + 1)) else None)
      else
        var acc' := acc + v % 128 * w;
        if acc' > MAX_BLOCK_SIZE then None
        else if v < 128 then Some((acc', s + 1))
        else ReferenceSize(b, s + 1, k + 1, acc', 128 * w)
  }

  function ReferenceDecoded(src: seq<Byte>): (r: Option<seq<Byte>>)
  {
    if |src| == 0 || src[0] != 0 then None
    else if |src| == 1 then Some([])
    else
      match ReferenceSize(src, 1, 0, 0, 1)
      case None => None
      case Some(t) =>
        if t.0 == 0 then Some(src[t.1..])
        else if t.0 < |src| - t.1 then None
        else DecodeBody(src[t.1..], t.0)
  }

  /** `int(v&0x7f) << i`, the shift being given as the weight `2^i` with `i == 7k`. */
  function Shifted64(v: nat, k: nat, w: nat): (r: int)
  {
    if k < 9 then v * w else if v % 2 == 1 then -0x8000_0000_0000_0000 else 0
  }

  /** One group of the size. */
  lemma SizeStep(b: seq<Byte>, s: nat, k: nat, acc: nat, w: nat)
    requires k <= 9 && acc <= MAX_BLOCK_SIZE
    ensures s >= |b| ==> ReferenceSize(b, s, k, acc, w) == None
    ensures s < |b| ==>
      var v := Load8(b, s);
      var acc' := acc + Shifted64(v % 128, k, w);
      ReferenceSize(b, s, k, acc, w) ==
        if acc' > MAX_BLOCK_SIZE then None
        else if v < 128 then (if acc' < 0 then None else Some((acc', s + 1)))
        else if k == 9 then None
        else ReferenceSize(b, s + 1, k + 1, acc', 128 * w)
  {
  }

  /** The size loop. A negative size goes on to the eleventh group or is refused after the loop. */
  method ReadSize(src: seq<Byte>) returns (r: Option<(nat, nat)>)
    requires |src| >= 1
    ensures r == ReferenceSize(src, 1, 0, 0, 1)
  {
    hide ReferenceSize;
    var s: nat, wantSize, i: nat, weight: nat := 1, 0, 0, 1;
    ghost var k: nat := 0;
    while i < 100
      invariant i == 7 * k && k <= 10 && s <= |src| && wantSize <= MAX_BLOCK_SIZE
      invariant wantSize >= 0 || k == 10
      invariant ReferenceSize(src, 1, 0, 0, 1) ==
                if k == 10 then None else ReferenceSize(src, s, k, wantSize, weight)
      decreases 100 - i
    {
      if i == 70 { return None; }
      SizeStep(src, s, k, wantSize, weight);
      if s >= |src| { return None; }
      var v := Load8(src, s);
      wantSize := wantSize + Shifted64(v % 128, i / 7, weight);
      if wantSize > MAX_BLOCK_SIZE { return None; }
      s := s + 1;
      if v < 128 { break; }
      i, weight, k := i + 7, 128 * weight, k + 1;
    }
    if wantSize < 0 || wantSize > MAX_BLOCK_SIZE { return None; }
    return Some((wantSize, s));
  }

  /** `DecodeBlock`. */
  method ReferenceDecode(src: seq<Byte>) returns (r: Option<seq<Byte>>)
    ensures r == ReferenceDecoded(src)
  {
    if |src| == 0 { return None; }
    if src[0] != 0 { return None; }
    if |src| == 1 { return Some([]); }
    var size := ReadSize(src);
    if size.None? { return None; }
    var wantSize, s := size.value.0, size.value.1;
    if wantSize == 0 { return Some(src[s..]); }
    if wantSize < |src| - s { return None; }
    r := ReferenceDecoder.DecodeBodyLoop(src[s..], wantSize);
  }

  // ---------- where the two decoders differ ----------

  /**
   Ten groups from `s` on, nine of them continued, whose last one is even and not 0: more than 64 bits
   to `binary.Uvarint`, while the reference loop shifts it out.
   */
  predicate Overlong(b: seq<Byte>, s: nat, k: nat)
    requires k <= 9
    decreases 9 - k
  {
    s < |b| && if k == 9 then b[s] % 2 == 0 && 2 <= b[s] < 128 else b[s] >= 128 && Overlong(b, s + 1, k + 1)
  }

  ghost predicate Weight(k: nat, w: nat)
    requires k <= 9
    decreases 9 - k
  {
    w >= 1 && (if k == 9 then w > MAX_BLOCK_SIZE else Weight(k + 1, 128 * w))
  }

  lemma StartWeight()
    ensures Weight(0, 1)
  {
    assert Weight(9, 128 * 128 * 128 * 128 * 128 * 128 * 128 * 128 * 128);
    assert Weight(6, 128 * 128 * 128 * 128 * 128 * 128);
    assert Weight(3, 128 * 128 * 128);
  }

  lemma GroupWeight(low: nat, rest: nat, w: nat)
    ensures low * w + rest * (128 * w) == (low + 128 * rest) * w
  {
  }

  lemma Exceeds(acc: nat, low: nat, rest: nat, w: nat)
    requires acc + low * w > MAX_BLOCK_SIZE
    ensures acc + (low + 128 * rest) * w > MAX_BLOCK_SIZE
  {
    GroupWeight(low, rest, w);
  }

  /** The size that the reference loop arrives at, from what `binary.Uvarint` makes of the groups to come. */
  function SizeFrom(acc: nat, w: nat, t: (nat, nat)): (r: Option<(nat, nat)>) {
    if acc + t.0 * w > MAX_BLOCK_SIZE then None else Some((acc + t.0 * w, t.1))
  }

  /** A continued group, in front of the others. */
  lemma SizeFromGroup(acc: nat, low: nat, w: nat, t: (nat, nat))
    ensures acc + low * w <= MAX_BLOCK_SIZE ==>
              SizeFrom(acc + low * w, 128 * w, t) == SizeFrom(acc, w, (low + 128 * t.0, t.1))
    ensures acc + low * w > MAX_BLOCK_SIZE ==> SizeFrom(acc, w, (low + 128 * t.0, t.1)) == None
  {
    GroupWeight(low, t.0, w);
    if acc + low * w > MAX_BLOCK_SIZE { Exceeds(acc, low, t.0, w); }
  }

  /** The reference loop computes what `binary.Uvarint` does, up to the block size limit. */
  lemma {:induction false} SizesAgree(b: seq<Byte>, s: nat, k: nat, acc: nat, w: nat)
    requires k <= 9 && acc <= MAX_BLOCK_SIZE && Weight(k, w)
    ensures match GetUvarint(b, s, k)
            case Some(t) => ReferenceSize(b, s, k, acc, w) == SizeFrom(acc, w, t)
            case None => Overlong(b, s, k) || ReferenceSize(b, s, k, acc, w).None?
    decreases 9 - k
  {
    hide ReferenceSize; hide SizeFrom; hide Weight; hide GetUvarint; hide Overlong;
    WeightStep(k, w);
    if k == 9 {
      LastGroup(b, s, acc, w);
    } else if s >= |b| || Load8(b, s) < 128 {
      ShortGroup(b, s, k, acc, w);
    } else {
      var acc' := acc + (Load8(b, s) - 128) * w;
      if acc' <= MAX_BLOCK_SIZE { SizesAgree(b, s + 1, k + 1, acc', 128 * w); }
      ContinuedGroup(b, s, k, acc, w, acc');
    }
  }

  lemma WeightStep(k: nat, w: nat)
    requires k <= 9 && Weight(k, w)
    ensures if k == 9 then w > MAX_BLOCK_SIZE else Weight(k + 1, 128 * w)
  {
  }

  lemma LastGroup(b: seq<Byte>, s: nat, acc: nat, w: nat)
    requires acc <= MAX_BLOCK_SIZE < w
    ensures match GetUvarint(b, s, 9)
            case Some(t) => ReferenceSize(b, s, 9, acc, w) == SizeFrom(acc, w, t)
            case None => Overlong(b, s, 9) || ReferenceSize(b, s, 9, acc, w).None?
  {
  }

  lemma ShortGroup(b: seq<Byte>, s: nat, k: nat, acc: nat, w: nat)
    requires k < 9 && acc <= MAX_BLOCK_SIZE && (s >= |b| || Load8(b, s) < 128)
    ensures match GetUvarint(b, s, k)
            case Some(t) => ReferenceSize(b, s, k, acc, w) == SizeFrom(acc, w, t)
            case None => ReferenceSize(b, s, k, acc, w).None?
  {
    if s < |b| { assert Load8(b, s) % 128 == Load8(b, s); }
  }

  /** A group with another one behind it. */
  lemma ContinuedGroup(b: seq<Byte>, s: nat, k: nat, acc: nat, w: nat, acc': nat)
    requires k < 9 && acc <= MAX_BLOCK_SIZE && s < |b| && Load8(b, s) >= 128 && acc' == acc + (Load8(b, s) - 128) * w
    requires acc' <= MAX_BLOCK_SIZE ==>
               match GetUvarint(b, s + 1, k + 1)
               case Some(t) => ReferenceSize(b, s + 1, k + 1, acc', 128 * w) == SizeFrom(acc', 128 * w, t)
               case None => Overlong(b, s + 1, k + 1) || ReferenceSize(b, s + 1, k + 1, acc', 128 * w).None?
    ensures match GetUvarint(b, s, k)
            case Some(t) => ReferenceSize(b, s, k, acc, w) == SizeFrom(acc, w, t)
            case None => Overlong(b, s, k) || ReferenceSize(b, s, k, acc, w).None?
  {
    var low := Load8(b, s) - 128;
    assert Load8(b, s) % 128 == low;
    OneStep(b, s, k, acc, w, low);
    hide ReferenceSize; hide SizeFrom;
    if GetUvarint(b, s + 1, k + 1).Some? { SizeFromGroup(acc, low, w, GetUvarint(b, s + 1, k + 1).value); }
  }

  lemma OneStep(b: seq<Byte>, s: nat, k: nat, acc: nat, w: nat, low: nat)
    requires k < 9 && s < |b| && Load8(b, s) >= 128 && Load8(b, s) % 128 == low
    ensures ReferenceSize(b, s, k, acc, w) ==
            if acc + low * w > MAX_BLOCK_SIZE then None else ReferenceSize(b, s + 1, k + 1, acc + low * w, 128 * w)
  {
  }

  /** What the nine groups of an overlong size say. */
  function NineGroups(b: seq<Byte>, s: nat, k: nat): (r: nat)
    requires k <= 9 && Overlong(b, s, k)
    decreases 9 - k
  {
    if k == 9 then 0 else Load8(b, s) - 128 + 128 * NineGroups(b, s + 1, k + 1)
  }

  lemma {:induction false} OverlongSize(b: seq<Byte>, s: nat, k: nat, acc: nat, w: nat)
    requires k <= 9 && Overlong(b, s, k) && acc <= MAX_BLOCK_SIZE
    ensures s + 10 - k <= |b| && ReferenceSize(b, s, k, acc, w) == SizeFrom(acc, w, (NineGroups(b, s, k), s + 10 - k))
    decreases 9 - k
  {
    hide ReferenceSize; hide SizeFrom;
    if k == 9 {
      LastOverlong(b, s, acc, w);
    } else {
      var low := Load8(b, s) - 128;
      assert Load8(b, s) % 128 == low;
      OneStep(b, s, k, acc, w, low);
      SizeFromGroup(acc, low, w, (NineGroups(b, s + 1, k + 1), s + 10 - k));
      if acc + low * w <= MAX_BLOCK_SIZE {
        OverlongSize(b, s + 1, k + 1, acc + low * w, 128 * w);
      } else {
        OverlongLength(b, s + 1, k + 1);
      }
    }
  }

  lemma LastOverlong(b: seq<Byte>, s: nat, acc: nat, w: nat)
    requires Overlong(b, s, 9) && acc <= MAX_BLOCK_SIZE
    ensures s + 1 <= |b| && ReferenceSize(b, s, 9, acc, w) == SizeFrom(acc, w, (0, s + 1))
  {
  }

  lemma {:induction false} OverlongLength(b: seq<Byte>, s: nat, k: nat)
    requires k <= 9 && Overlong(b, s, k)
    ensures s + 10 - k <= |b|
    decreases 9 - k
  {
    if k < 9 { OverlongLength(b, s + 1, k + 1); }
  }

  /** The reference decoder has something to show for an overlong size: it goes by the nine groups. */
  predicate OverlongAccepted(src: seq<Byte>)
    requires Overlong(src, 1, 0) && |src| >= 11
  {
    var size, body := NineGroups(src, 1, 0), src[11..];
    size == 0 || (|body| <= size <= MAX_BLOCK_SIZE && DecodeBody(body, size).Some?)
  }

  /**
   Blocks that start with 0: `Decode` and the reference decoder agree on every one of them except when
   nothing follows a size of 0, which only the reference accepts, and when the size is a ten byte varint of
   more than 64 bits, which only the reference accepts if it does without the tenth byte.
   */
  lemma DecodersAgree(src: seq<Byte>)
    requires |src| >= 1 && src[0] == 0
    ensures Overlong(src, 1, 0) ==> |src| >= 11
    ensures Decoded(src) == ReferenceDecoded(src) <==>
            !(if Overlong(src, 1, 0) then OverlongAccepted(src)
              else |src| > 1 && GetUvarint(src, 1, 0) == Some((0, |src|)))
  {
    hide DecodeBody; hide ReferenceSize; hide Weight;
    StartWeight();
    if Overlong(src, 1, 0) {
      OverlongRefused(src, 1, 0);
      OverlongSize(src, 1, 0, 0, 1);
    } else {
      SizesAgree(src, 1, 0, 0, 1);
      match GetUvarint(src, 1, 0) {
        case None =>
        case Some(t) =>
          if t.1 == |src| {
            assert src[t.1..] == [];
            EmptyBody(t.0);
          }
      }
    }
  }

  /** A size of 0 with nothing behind it is an empty block to the reference decoder only. */
  lemma NothingBehindSize()
    ensures Decoded([0, 0]) == None && ReferenceDecoded([0, 0]) == Some([])
  {
    var src := [0, 0];
    assert GetUvarint(src, 1, 0) == Some((0, 2));
    assert ReferenceSize(src, 1, 0, 0, 1) == Some((0, 2));
    assert src[2..] == [];
  }

  /** So is a size of 71 bits of which the reference decoder sees 63. */
  lemma SizeOf71Bits()
    ensures var src := [0, 128, 128, 128, 128, 128, 128, 128, 128, 128, 2];
            Overlong(src, 1, 0) && Decoded(src) == None && ReferenceDecoded(src) == Some([])
  {
    var src := [0, 128, 128, 128, 128, 128, 128, 128, 128, 128, 2];
    ZeroGroups(src, 1, 0);
    OverlongRefused(src, 1, 0);
    OverlongSize(src, 1, 0, 0, 1);
    assert src[11..] == [];
  }

  lemma {:induction false} ZeroGroups(src: seq<Byte>, s: nat, k: nat)
    requires |src| == 11 && src[10] == 2 && s == k + 1 <= 10 && forall i :: 1 <= i < 10 ==> src[i] == 128
    ensures Overlong(src, s, k) && NineGroups(src, s, k) == 0
    decreases 9 - k
  {
    if k < 9 { ZeroGroups(src, s + 1, k + 1); }
  }

  lemma EmptyBody(n: nat)
    ensures n > 0 ==> DecodeBody([], n).None?
  {
  }

  lemma {:induction false} OverlongRefused(b: seq<Byte>, s: nat, k: nat)
    requires k <= 9 && Overlong(b, s, k)
    ensures GetUvarint(b, s, k).None?
    decreases 9 - k
  {
    if k < 9 { OverlongRefused(b, s + 1, k + 1); }
  }

  // ---------- encoding ----------

  function MaxEncodedLen(srcLen: nat): (r: int) {
    if srcLen > MAX_BLOCK_SIZE then -1 else if srcLen == 0 then 1 else srcLen + 2
  }

  function EncodeUncompressed(src: seq<Byte>): (r: seq<Byte>) {
    if |src| == 0 then [0] else [0, 0] + src
  }

  lemma UncompressedDecodes(src: seq<Byte>)
    ensures Decoded(EncodeUncompressed(src)) == Some(src)
    ensures ReferenceDecoded(EncodeUncompressed(src)) == Some(src)
  {
    var b := EncodeUncompressed(src);
    if |src| > 0 {
      assert b[2..] == src;
      assert GetUvarint(b, 1, 0) == Some((0, 2));
    }
  }

  /** A body in a block with its size in front decodes as the body does. */
  lemma CompressedDecodes(n: nat, body: seq<Byte>)
    requires 1 <= |body| <= n <= MAX_BLOCK_SIZE
    ensures Decoded([0] + PutUvarint(n) + body) == DecodeBody(body, n)
    ensures ReferenceDecoded([0] + PutUvarint(n) + body) == DecodeBody(body, n)
  {
    hide PutUvarint; hide GetUvarint; hide ReferenceSize; hide Overlong; hide DecodeBody; hide ReferenceDecoded;
    var b := [0] + PutUvarint(n) + body;
    UvarintReads([0], n, body);
    var e := 1 + |PutUvarint(n)|;
    assert b[e..] == body;
    if Overlong(b, 1, 0) { OverlongRefused(b, 1, 0); }
    DecodersAgree(b);
  }

  datatype Encoded = Block(bytes: seq<Byte>) | ErrTooLarge | ErrInvalidLevel | OutOfSpace

  /** The hash functions of the three levels; any functions into the tables will do. */
  datatype Hashes = Hashes(l1: Word -> nat, l2Long: Word -> nat, l2Short: Word -> nat, l3Long: Word -> nat,
                           l3Short: Word -> nat)

  ghost predicate GoodHashes(h: Hashes, n: nat) {
    && HashInto(h.l1, if n <= 65536 then 8192 else 32768)
    && HashInto(h.l2Long, if n <= 65536 then 32768 else 131072)
    && HashInto(h.l2Short, if n <= 65536 then 4096 else 16384)
    && HashInto(h.l3Long, 0x10_0000) && HashInto(h.l3Short, 0x4_0000)
  }

  /**
   `Encode`. Every block it returns is at most two bytes longer than `src`, and decodes to `src` in both
   decoders, except at level 1 when the input does not also repeat 2 MiB closer where a match was too `far`
   back; see `EncodeL1`. `OutOfSpace`, a panic of level 3, does not happen to inputs of up to 1194 bytes, and
   does happen; see `EncodeL3`. A run of equal bytes is compressed to a few bytes at every level, whatever the
   hashes.
   */
  method Encode(src: seq<Byte>, level: nat, h: Hashes) returns (r: Encoded, ghost far: seq<Far>)
    requires GoodHashes(h, |src|)
    ensures r.ErrTooLarge? <==> |src| > MAX_BLOCK_SIZE
    ensures r.ErrInvalidLevel? <==> 16 <= |src| <= MAX_BLOCK_SIZE && !(1 <= level <= 3)
    ensures r.OutOfSpace? ==> level == 3 && |src| > 1194
    ensures src == SpaceExample() && level == 3 ==> r.OutOfSpace?
    ensures r.Block? ==> |r.bytes| <= MaxEncodedLen(|src|) && ReferenceDecoded(r.bytes) == Decoded(r.bytes)
    ensures r.Block? ==> FarMatches(src, far) && (Decoded(r.bytes) == Some(src) <==> Harmless(src, far))
    ensures r.Block? && (level != 1 || |src| <= Encoding.MAX_COPY3_OFFSET + 10) ==> Decoded(r.bytes) == Some(src)
    ensures src == FarExample() && level == 1 && Apart(h.l1) ==> r.Block? && Decoded(r.bytes) != Some(src)
    ensures Uniform(src) && |src| >= 16 && r.Block? ==>
              |r.bytes| <= |PutUvarint(|src|)| + (if level == 1 then 15 else if level == 2 then 9 else 11)
    ensures Uniform(src) && level == 3 ==> !r.OutOfSpace?
  {
    hide Uniform;
    hide Decoded; hide ReferenceDecoded; hide DecodeBody; hide FarExample; hide Apart; hide SpaceExample;
    far := [];
    if MaxEncodedLen(|src|) < 0 { return ErrTooLarge, far; }
    UncompressedDecodes(src);
    if |src| < 16 { return Block(EncodeUncompressed(src)), far; }
    var header := [0] + PutUvarint(|src|);
    PutUvarintLength(|src|);
    var dst := new Byte[MaxEncodedLen(|src|) - |header|](_ => 0);
    var n: nat;
    if level == 1 {
      n, far := EncodeL1.EncodeBlock(dst, src, h.l1);
    } else if level == 2 {
      n := EncodeL2.EncodeBlockBetter(dst, src, h.l2Long, h.l2Short);
    } else if level == 3 {
      var best := EncodeL3.EncodeBlockBest(dst, src, h.l3Long, h.l3Short);
      if best.OutOfSpace? { return OutOfSpace, far; }
      n := best.d;
    } else {
      return ErrInvalidLevel, far;
    }
    if n > 0 {
      CompressedDecodes(|src|, dst[..n]);
      return Block(header + dst[..n]), far;
    }
    return Block(EncodeUncompressed(src)), [];
  }

  /** The reference `EncodeBlock`: the round trip, through both decoders. */
  method ReferenceEncode(src: seq<Byte>, hash: Word -> nat) returns (r: seq<Byte>)
    requires |src| <= MAX_BLOCK_SIZE && HashInto(hash, 65536)
    ensures Decoded(r) == Some(src) && ReferenceDecoded(r) == Some(src)
    ensures |r| <= |src| + 6
    ensures Uniform(src) && |src| > 16 ==> |r| <= |PutUvarint(|src|)| + 7
  {
    hide Uniform;
    UncompressedDecodes(src);
    if |src| <= 16 { return EncodeUncompressed(src); }
    PutUvarintLength(|src|);
    var dst := [0] + PutUvarint(|src|);
    var compressed := ReferenceEncoder.EncodeBody(dst, src, hash);
    if compressed.Some? {
      var body := compressed.value[|dst|..];
      assert compressed.value == dst + body;
      NonEmptyBody(body, src);
      CompressedDecodes(|src|, body);
      return compressed.value;
    }
    return EncodeUncompressed(src);
  }

  lemma NonEmptyBody(body: seq<Byte>, src: seq<Byte>)
    requires |src| > 0 && DecodeBody(body, |src|) == Some(src)
    ensures |body| > 0
  {
  }
}
