/** index.go: the serialised form of the index, `appendTo`, `Load` and the trimming of its headers. */
module IndexCodec {
  import opened Bytes
  import opened Varint
  import opened Index
  import opened Encoding

  const CHUNK_TYPE_INDEX: Byte := 0x40
  const LEGACY_INDEX_CHUNK: Byte := 0x99
  /** "s2idx\0" and "\0xdi2s". */
  const INDEX_HEADER: seq<Byte> := [0x73, 0x32, 0x69, 0x64, 0x78, 0]
  const INDEX_TRAILER: seq<Byte> := [0, 0x78, 0x64, 0x69, 0x32, 0x73]

  /** The value of an `int64` computation. */
  function Wrap(x: int): (r: int)
    ensures -0x8000_0000_0000_0000 <= r < 0x8000_0000_0000_0000
  {
    (x + 0x8000_0000_0000_0000) % 0x1_0000_0000_0000_0000 - 0x8000_0000_0000_0000
  }

  ghost predicate Int64(x: int) { -0x8000_0000_0000_0000 <= x < 0x8000_0000_0000_0000 }

  /** Subtracting and adding back gives the value again, even if both overflow. */
  lemma WrapUndo(x: int, y: int)
    requires Int64(x)
    ensures Wrap(Wrap(x - y) + y) == x
  {
    var m := 0x1_0000_0000_0000_0000;
    var a := x - y + 0x8000_0000_0000_0000;
    assert Wrap(x - y) + y + 0x8000_0000_0000_0000 == x + 0x8000_0000_0000_0000 - m * (a / m);
    ModShift(x + 0x8000_0000_0000_0000, a / m, m);
  }

  lemma WrapId(x: int)
    requires Int64(x)
    ensures Wrap(x) == x
  {
  }

  lemma ModShift(r: nat, k: int, m: nat)
    requires r < m
    ensures (r - m * k) % m == r
  {
    var x := r - m * k;
    assert x == m * (x / m) + x % m;
    var d := x / m + k;
    assert m * d == r - x % m;
    OnlyMultiple(m, d);
  }

  /** Go's division truncates towards zero. */
  function Half(x: int): (r: int) { if x >= 0 then x / 2 else -(-x / 2) }

  // ---------- the serialised form ----------

  datatype Value = Value(uncompressed: int, compressed: int, est: int, offs: seq<OffsetPair>)

  /** What the decoder assumes an uncompressed offset is, before the delta. */
  function Expected(offs: seq<OffsetPair>, idx: nat, est: int): (r: int)
    requires idx <= |offs|
  {
    if idx == 0 then 0 else Wrap(offs[idx - 1].u + est)
  }

  /** Whether uncompressed offsets must be stored: some entry is not where the estimate puts it. */
  function HasUncompressed(offs: seq<OffsetPair>, est: int, idx: nat): (r: bool)
    requires idx <= |offs|
    decreases |offs| - idx
  {
    idx < |offs| && (offs[idx].u != Expected(offs, idx, est) || HasUncompressed(offs, est, idx + 1))
  }

  function UncompressedBytes(offs: seq<OffsetPair>, est: int, idx: nat): (r: seq<Byte>)
    requires idx <= |offs|
    decreases |offs| - idx
  {
    if idx == |offs| then []
    else PutVarint(Wrap(offs[idx].u - Expected(offs, idx, est))) + UncompressedBytes(offs, est, idx + 1)
  }

  /** The stored compressed offset of an entry: for all but the first, how far the prediction was off. */
  function CompressedDelta(offs: seq<OffsetPair>, idx: nat, predict: int): (r: int)
    requires idx < |offs|
  {
    if idx == 0 then offs[0].c else Wrap(offs[idx].c - Wrap(offs[idx - 1].c + predict))
  }

  function NextPredict(idx: nat, predict: int, delta: int): (r: int) {
    if idx == 0 then predict else Wrap(predict + Half(delta))
  }

  function CompressedBytes(offs: seq<OffsetPair>, idx: nat, predict: int): (r: seq<Byte>)
    requires idx <= |offs|
    decreases |offs| - idx
  {
    if idx == |offs| then []
    else
      var delta := CompressedDelta(offs, idx, predict);
      PutVarint(delta) + CompressedBytes(offs, idx + 1, NextPredict(idx, predict, delta))
  }

  function Payload(v: Value): (r: seq<Byte>) {
    var has := HasUncompressed(v.offs, v.est, 0);
    PutVarint(v.uncompressed) + (PutVarint(v.compressed) + (PutVarint(v.est) + (PutVarint(|v.offs|)
    + ([if has then 1 else 0] + ((if has then UncompressedBytes(v.offs, v.est, 0) else [])
    + CompressedBytes(v.offs, 0, Half(v.est)))))))
  }

  /** A payload with the headers and the trailer around it. */
  function Framed(payload: seq<Byte>): (r: seq<Byte>) {
    var size := 20 + |payload|;
    [CHUNK_TYPE_INDEX] + LE24(size - 4) + INDEX_HEADER + payload + LE32(size) + INDEX_TRAILER
  }

  // ---------- appendTo ----------

  /** The test whether uncompressed offsets are needed. */
  method NeedsUncompressed(offs: seq<OffsetPair>, est: int) returns (r: bool)
    ensures r == HasUncompressed(offs, est, 0)
  {
    var idx := 0;
    while idx < |offs|
      invariant idx <= |offs| && HasUncompressed(offs, est, 0) == HasUncompressed(offs, est, idx)
    {
      if idx == 0 {
        if offs[0].u != 0 { return true; }
      } else if offs[idx].u != Wrap(offs[idx - 1].u + est) {
        return true;
      }
      idx := idx + 1;
    }
    return false;
  }

  method AppendUncompressed(p0: seq<Byte>, offs: seq<OffsetPair>, est: int) returns (p: seq<Byte>)
    ensures p == p0 + UncompressedBytes(offs, est, 0)
  {
    hide PutVarint;
    p := p0;
    var idx := 0;
    while idx < |offs|
      invariant idx <= |offs|
      invariant p + UncompressedBytes(offs, est, idx) == p0 + UncompressedBytes(offs, est, 0)
    {
      var uOff := offs[idx].u;
      if idx > 0 { uOff := Wrap(uOff - Wrap(offs[idx - 1].u + est)); } else { uOff := Wrap(uOff); }
      p := p + PutVarint(uOff);
      idx := idx + 1;
    }
    assert UncompressedBytes(offs, est, idx) == [];
  }

  method AppendCompressed(p0: seq<Byte>, offs: seq<OffsetPair>, est: int) returns (p: seq<Byte>)
    ensures p == p0 + CompressedBytes(offs, 0, Half(est))
  {
    hide PutVarint;
    p := p0;
    var cPredict := Half(est);
    var idx := 0;
    while idx < |offs|
      invariant idx <= |offs|
      invariant p + CompressedBytes(offs, idx, cPredict) == p0 + CompressedBytes(offs, 0, Half(est))
    {
      var cOff := offs[idx].c;
      if idx > 0 {
        cOff := Wrap(cOff - Wrap(offs[idx - 1].c + cPredict));
        cPredict := Wrap(cPredict + Half(cOff));
      }
      p := p + PutVarint(cOff);
      idx := idx + 1;
    }
    assert CompressedBytes(offs, idx, cPredict) == [];
  }

  /** `appendTo`: the index is reduced and then appended in serialised form. */
  method AppendTo(ix: SeekIndex, b: seq<Byte>, uncompTotal: int, compTotal: int) returns (r: seq<Byte>)
    requires ix.estBlockUncomp >= 0
    modifies ix`offsets, ix`estBlockUncomp
    ensures ix.Value() == ReduceState(old(ix.Value()))
    ensures r == b + Framed(Payload(Value(uncompTotal, compTotal, ix.estBlockUncomp, ix.offsets)))
  {
    hide ReduceState; hide PutVarint; hide UncompressedBytes; hide CompressedBytes; hide HasUncompressed;
    ix.Reduce();
    var p := PutVarint(uncompTotal);
    p := p + PutVarint(compTotal);
    p := p + PutVarint(ix.estBlockUncomp);
    p := p + PutVarint(|ix.offsets|);
    ghost var totals := p;
    var hasUncompressed := NeedsUncompressed(ix.offsets, ix.estBlockUncomp);
    p := p + [if hasUncompressed then 1 else 0];
    if hasUncompressed { p := AppendUncompressed(p, ix.offsets, ix.estBlockUncomp); }
    p := AppendCompressed(p, ix.offsets, ix.estBlockUncomp);
    assert p == Payload(Value(uncompTotal, compTotal, ix.estBlockUncomp, ix.offsets));
    var size := 4 + |INDEX_HEADER| + |p| + 4 + |INDEX_TRAILER|;
    r := b + ([CHUNK_TYPE_INDEX] + LE24(size - 4) + INDEX_HEADER + p + LE32(size) + INDEX_TRAILER);
  }

  // ---------- Load ----------

  datatype LoadError = UnexpectedEof | Corrupt | Unsupported

  datatype Outcome<+T> = Bad(error: LoadError) | Fine(value: T)

  /** Read the uncompressed offsets from entry `|us|` on. */
  function LoadUncompressed(b: seq<Byte>, s: nat, us: seq<int>, entries: nat, has: bool,
                            est: int): (r: Option<(seq<int>, nat)>)
    requires s <= |b| && |us| <= entries
    ensures r.Some? ==> |r.value.0| == entries && s <= r.value.1 <= |b|
    decreases entries - |us|
  {
    if |us| == entries then Some((us, s))
    else
      match (if has then GetVarint(b, s) else Some((0, s)))
      case None => None
      case Some(t) =>
        var prev := if |us| > 0 then us[|us| - 1] else 0;
        var u := if |us| > 0 then Wrap(t.0 + Wrap(prev + est)) else t.0;
        if (|us| > 0 && u <= prev) || u < 0 then None
        else LoadUncompressed(b, t.1, us + [u], entries, has, est)
  }

  function LoadCompressed(b: seq<Byte>, s: nat, cs: seq<int>, entries: nat, predict: int): (r: Option<(seq<int>, nat)>)
    requires s <= |b| && |cs| <= entries
    ensures r.Some? ==> |r.value.0| == entries && s <= r.value.1 <= |b|
    decreases entries - |cs|
  {
    if |cs| == entries then Some((cs, s))
    else
      match GetVarint(b, s)
      case None => None
      case Some(t) =>
        var prev := if |cs| > 0 then cs[|cs| - 1] else 0;
        var c := if |cs| > 0 then Wrap(t.0 + Wrap(prev + predict)) else t.0;
        if (|cs| > 0 && c <= prev) || c < 0 then None
        else LoadCompressed(b, t.1, cs + [c], entries, NextPredict(|cs|, predict, t.0))
  }

  function Pairs(cs: seq<int>, us: seq<int>): (r: seq<OffsetPair>)
    requires |cs| == |us|
    ensures |r| == |cs|
  {
    seq(|cs|, i requires 0 <= i < |cs| => OffsetPair(cs[i], us[i]))
  }

  /** The entries and the end of the payload, from the flag byte at `s` on. */
  function LoadEntries(b: seq<Byte>, s: nat, entries: nat, est: int): (r: Outcome<(seq<OffsetPair>, nat)>)
    requires s <= |b|
    ensures r.Fine? ==> r.value.1 <= |b|
  {
    if s >= |b| then Bad(UnexpectedEof)
    else if b[s] > 1 then Bad(Corrupt)
    else
      match LoadUncompressed(b, s + 1, [], entries, b[s] != 0, est)
      case None => Bad(Corrupt)
      case Some(u) =>
        match LoadCompressed(b, u.1, [], entries, Half(est))
        case None => Bad(Corrupt)
        case Some(c) => Fine((Pairs(c.0, u.0), c.1))
  }

  /** The payload at `s`. */
  function LoadPayload(b: seq<Byte>, s: nat): (r: Outcome<(Value, nat)>)
    requires s <= |b|
    ensures r.Fine? ==> r.value.1 <= |b|
  {
    match GetVarint(b, s)
    case None => Bad(Corrupt)
    case Some(un) =>
      if un.0 < 0 then Bad(Corrupt)
      else
        match GetVarint(b, un.1)
        case None => Bad(Corrupt)
        case Some(co) =>
          match GetVarint(b, co.1)
          case None => Bad(Corrupt)
          case Some(est) =>
            if est.0 < 0 then Bad(Corrupt)
            else
              match GetVarint(b, est.1)
              case None => Bad(Corrupt)
              case Some(n) =>
                if n.0 < 0 || n.0 > MAX_INDEX_ENTRIES then Bad(Corrupt)
                else
                  match LoadEntries(b, n.1, n.0, est.0)
                  case Bad(e) => Bad(e)
                  case Fine(t) => Fine((Value(un.0, co.0, est.0, t.0), t.1))
  }

  /** What `Load` makes of `b`: the index and the bytes after it. */
  function Loaded(b: seq<Byte>): (r: Outcome<(Value, seq<Byte>)>) {
    if |b| <= 16 then Bad(UnexpectedEof)
    else if b[0] != CHUNK_TYPE_INDEX && b[0] != LEGACY_INDEX_CHUNK then Bad(Corrupt)
    else if |b| - 4 < Load24(b, 1) then Bad(UnexpectedEof)
    else if b[4..10] != INDEX_HEADER then Bad(Unsupported)
    else
      match LoadPayload(b, 10)
      case Bad(e) => Bad(e)
      case Fine(p) =>
        if |b| - p.1 < 10 then Bad(UnexpectedEof)
        else if b[p.1 + 4..p.1 + 10] != INDEX_TRAILER then Bad(Corrupt)
        else Fine((p.0, b[p.1 + 10..]))
  }

  /** `Load`: the loops that fill `Offsets` in two passes, and the checks before and after them. */
  method Load(ix: SeekIndex, b: seq<Byte>) returns (r: Outcome<seq<Byte>>)
    modifies ix
    ensures match Loaded(b)
            case Bad(e) => r == Bad(e)
            case Fine(t) =>
              r == Fine(t.1) && Value(ix.totalUncompressed, ix.totalCompressed, ix.estBlockUncomp, ix.offsets) == t.0
  {
    hide GetVarint;
    if |b| <= 16 { return Bad(UnexpectedEof); }
    if b[0] != CHUNK_TYPE_INDEX && b[0] != LEGACY_INDEX_CHUNK { return Bad(Corrupt); }
    if |b| - 4 < Load24(b, 1) { return Bad(UnexpectedEof); }
    if b[4..10] != INDEX_HEADER { return Bad(Unsupported); }
    var v := GetVarint(b, 10);
    if v.None? || v.value.0 < 0 { return Bad(Corrupt); }
    ix.totalUncompressed := v.value.0;
    v := GetVarint(b, v.value.1);
    if v.None? { return Bad(Corrupt); }
    ix.totalCompressed := v.value.0;
    v := GetVarint(b, v.value.1);
    if v.None? || v.value.0 < 0 { return Bad(Corrupt); }
    ix.estBlockUncomp := v.value.0;
    v := GetVarint(b, v.value.1);
    if v.None? || v.value.0 < 0 || v.value.0 > MAX_INDEX_ENTRIES { return Bad(Corrupt); }
    var body := LoadBody(ix, b, v.value.1, v.value.0);
    if body.Bad? { return Bad(body.error); }
    var s := body.value;
    if |b| - s < 10 { return Bad(UnexpectedEof); }
    if b[s + 4..s + 10] != INDEX_TRAILER { return Bad(Corrupt); }
    return Fine(b[s + 10..]);
  }

  /** The two passes of `Load` over the entries. */
  method LoadBody(ix: SeekIndex, b: seq<Byte>, s0: nat, entries: nat) returns (r: Outcome<nat>)
    requires s0 <= |b|
    modifies ix`offsets
    ensures r.Fine? ==> r.value <= |b|
    ensures match LoadEntries(b, s0, entries, ix.estBlockUncomp)
            case Bad(e) => r == Bad(e)
            case Fine(t) => r == Fine(t.1) && ix.offsets == t.0
  {
    hide GetVarint;
    var s: nat := s0;
    ghost var est := ix.estBlockUncomp;
    ix.offsets := seq(entries, _ => OffsetPair(0, 0));
    if |b| - s < 1 { return Bad(UnexpectedEof); }
    var hasUncompressed := b[s];
    s := s + 1;
    if hasUncompressed > 1 { return Bad(Corrupt); }
    ghost var us: seq<int> := [];
    var idx := 0;
    while idx < |ix.offsets|
      invariant idx == |us| <= |ix.offsets| == entries && s <= |b|
      invariant forall k :: 0 <= k < idx ==> ix.offsets[k].u == us[k]
      invariant LoadUncompressed(b, s0 + 1, [], entries, hasUncompressed != 0, est)
             == LoadUncompressed(b, s, us, entries, hasUncompressed != 0, est)
    {
      var uOff := 0;
      if hasUncompressed != 0 {
        var v := GetVarint(b, s);
        if v.None? { return Bad(Corrupt); }
        uOff, s := v.value.0, v.value.1;
      }
      if idx > 0 {
        var prev := ix.offsets[idx - 1].u;
        uOff := Wrap(uOff + Wrap(prev + ix.estBlockUncomp));
        if uOff <= prev { return Bad(Corrupt); }
      }
      if uOff < 0 { return Bad(Corrupt); }
      ix.offsets := ix.offsets[idx := ix.offsets[idx].(u := uOff)];
      us := us + [uOff];
      idx := idx + 1;
    }
    var ok;
    ok, s := LoadSecondPass(ix, b, s, entries, us);
    r := if ok then Fine(s) else Bad(Corrupt);
  }

  method LoadSecondPass(ix: SeekIndex, b: seq<Byte>, s0: nat, entries: nat, ghost us: seq<int>)
      returns (ok: bool, s: nat)
    requires s0 <= |b| && |us| == entries == |ix.offsets|
    requires forall k :: 0 <= k < entries ==> ix.offsets[k].u == us[k]
    modifies ix`offsets
    ensures ok ==> s <= |b|
    ensures match LoadCompressed(b, s0, [], entries, Half(ix.estBlockUncomp))
            case None => !ok
            case Some(c) => ok && s == c.1 && ix.offsets == Pairs(c.0, us)
  {
    hide GetVarint;
    s := s0;
    ghost var cs: seq<int> := [];
    var cPredict := Half(ix.estBlockUncomp);
    ghost var predict := cPredict;
    var idx := 0;
    while idx < |ix.offsets|
      invariant idx == |cs| <= |ix.offsets| == entries && s <= |b|
      invariant forall k :: 0 <= k < entries ==> ix.offsets[k].u == us[k]
      invariant forall k :: 0 <= k < idx ==> ix.offsets[k].c == cs[k]
      invariant LoadCompressed(b, s0, [], entries, predict) == LoadCompressed(b, s, cs, entries, cPredict)
    {
      var v := GetVarint(b, s);
      if v.None? { return false, s; }
      var cOff := v.value.0;
      s := v.value.1;
      if idx > 0 {
        var cPredictNew := Wrap(cPredict + Half(cOff));
        var prev := ix.offsets[idx - 1].c;
        cOff := Wrap(cOff + Wrap(prev + cPredict));
        if cOff <= prev { return false, s; }
        cPredict := cPredictNew;
      }
      if cOff < 0 { return false, s; }
      ix.offsets := ix.offsets[idx := ix.offsets[idx].(c := cOff)];
      cs := cs + [cOff];
      idx := idx + 1;
    }
    ok := true;
    assert ix.offsets == Pairs(cs, us);
  }

  // ---------- round trips ----------

  /** An index as the writer leaves it: non-negative, strictly increasing, in 64 bits. */
  ghost predicate Loadable(v: Value) {
    && Int64(v.uncompressed) && v.uncompressed >= 0 && Int64(v.compressed) && Int64(v.est) && v.est >= 0
    && |v.offs| <= MAX_INDEX_ENTRIES && Ordered(v.offs)
  }

  ghost predicate Ordered(offs: seq<OffsetPair>) {
    && (forall i {:trigger offs[i]} :: 0 <= i < |offs| ==>
          0 <= offs[i].u < 0x8000_0000_0000_0000 && 0 <= offs[i].c < 0x8000_0000_0000_0000)
    && (forall i {:trigger offs[i]} :: 0 < i < |offs| ==>
          offs[i].u > offs[i - 1].u && offs[i].c > offs[i - 1].c)
  }

  function Us(offs: seq<OffsetPair>): (r: seq<int>)
    ensures |r| == |offs|
  {
    seq(|offs|, i requires 0 <= i < |offs| => offs[i].u)
  }

  function Cs(offs: seq<OffsetPair>): (r: seq<int>)
    ensures |r| == |offs|
  {
    seq(|offs|, i requires 0 <= i < |offs| => offs[i].c)
  }

  /** One entry of the first pass. */
  lemma UncompressedStep(b: seq<Byte>, s: nat, offs: seq<OffsetPair>, est: int, idx: nat, next: nat)
    requires idx < |offs| && Ordered(offs) && s <= |b|
    requires GetVarint(b, s) == Some((Wrap(offs[idx].u - Expected(offs, idx, est)), next))
    ensures next <= |b|
    ensures LoadUncompressed(b, s, Us(offs)[..idx], |offs|, true, est)
         == LoadUncompressed(b, next, Us(offs)[..idx + 1], |offs|, true, est)
  {
    hide GetVarint; hide Wrap;
    var us, o := Us(offs), offs[idx];
    assert 0 <= o.u && (idx > 0 ==> o.u > offs[idx - 1].u);
    WrapUndo(o.u, Expected(offs, idx, est));
    if idx > 0 { assert us[..idx][idx - 1] == offs[idx - 1].u; } else { WrapId(o.u); }
    assert us[..idx] + [o.u] == us[..idx + 1];
  }

  lemma {:induction false} UncompressedRoundTrip(p: seq<Byte>, offs: seq<OffsetPair>, est: int, idx: nat, q: seq<Byte>)
    requires idx <= |offs| && Ordered(offs)
    ensures LoadUncompressed(p + UncompressedBytes(offs, est, idx) + q, |p|, Us(offs)[..idx], |offs|, true, est)
         == Some((Us(offs), |p| + |UncompressedBytes(offs, est, idx)|))
    decreases |offs| - idx
  {
    hide PutVarint; hide GetVarint; hide Wrap; hide Ordered; hide Expected;
    var us := Us(offs);
    var b := p + UncompressedBytes(offs, est, idx) + q;
    if idx == |offs| {
      assert us[..idx] == us;
    } else {
      hide LoadUncompressed;
      var delta := Wrap(offs[idx].u - Expected(offs, idx, est));
      var w := PutVarint(delta);
      var rest := UncompressedBytes(offs, est, idx + 1);
      assert b == p + w + (rest + q);
      VarintReads(p, delta, rest + q);
      UncompressedStep(b, |p|, offs, est, idx, |p| + |w|);
      assert b == (p + w) + rest + q;
      UncompressedRoundTrip(p + w, offs, est, idx + 1, q);
    }
  }

  /** When every offset is where the estimate puts it, none needs to be stored. */
  lemma {:induction false} ImpliedOffsets(b: seq<Byte>, s: nat, offs: seq<OffsetPair>, est: int, idx: nat)
    requires idx <= |offs| && s <= |b| && Ordered(offs) && !HasUncompressed(offs, est, idx)
    ensures LoadUncompressed(b, s, Us(offs)[..idx], |offs|, false, est) == Some((Us(offs), s))
    decreases |offs| - idx
  {
    var us := Us(offs);
    if idx == |offs| {
      assert us[..idx] == us;
    } else {
      assert us[..idx] + [offs[idx].u] == us[..idx + 1];
      WrapUndo(offs[idx].u, 0);
      ImpliedOffsets(b, s, offs, est, idx + 1);
    }
  }

  /** One entry of the second pass, its prediction included. */
  lemma CompressedStep(b: seq<Byte>, s: nat, offs: seq<OffsetPair>, idx: nat, predict: int, next: nat)
    requires idx < |offs| && Ordered(offs) && s <= |b|
    requires GetVarint(b, s) == Some((CompressedDelta(offs, idx, predict), next))
    ensures next <= |b|
    ensures LoadCompressed(b, s, Cs(offs)[..idx], |offs|, predict)
         == LoadCompressed(b, next, Cs(offs)[..idx + 1], |offs|,
                           NextPredict(idx, predict, CompressedDelta(offs, idx, predict)))
  {
    hide GetVarint; hide Wrap; hide Half;
    var cs, o := Cs(offs), offs[idx];
    assert 0 <= o.c && (idx > 0 ==> o.c > offs[idx - 1].c);
    if idx > 0 {
      WrapUndo(o.c, Wrap(offs[idx - 1].c + predict));
      assert cs[..idx][idx - 1] == offs[idx - 1].c;
    }
    assert cs[..idx] + [o.c] == cs[..idx + 1];
  }

  lemma {:induction false} CompressedRoundTrip(p: seq<Byte>, offs: seq<OffsetPair>, idx: nat, predict: int,
                                               q: seq<Byte>)
    requires idx <= |offs| && Ordered(offs)
    ensures LoadCompressed(p + CompressedBytes(offs, idx, predict) + q, |p|, Cs(offs)[..idx], |offs|, predict)
         == Some((Cs(offs), |p| + |CompressedBytes(offs, idx, predict)|))
    decreases |offs| - idx
  {
    hide PutVarint; hide GetVarint; hide CompressedDelta; hide NextPredict;
    var cs := Cs(offs);
    var b := p + CompressedBytes(offs, idx, predict) + q;
    if idx == |offs| {
      assert cs[..idx] == cs;
    } else {
      assert Int64(offs[idx].c);
      hide LoadCompressed; hide Ordered;
      var delta := CompressedDelta(offs, idx, predict);
      DeltaRange(offs, idx, predict);
      var w := PutVarint(delta);
      var next := NextPredict(idx, predict, delta);
      var rest := CompressedBytes(offs, idx + 1, next);
      assert b == p + w + (rest + q);
      VarintReads(p, delta, rest + q);
      CompressedStep(b, |p|, offs, idx, predict, |p| + |w|);
      assert b == (p + w) + rest + q;
      CompressedRoundTrip(p + w, offs, idx + 1, next, q);
    }
  }

  lemma DeltaRange(offs: seq<OffsetPair>, idx: nat, predict: int)
    requires idx < |offs| && Int64(offs[idx].c)
    ensures Int64(CompressedDelta(offs, idx, predict))
  {
  }

  lemma PairsOf(offs: seq<OffsetPair>)
    ensures Pairs(Cs(offs), Us(offs)) == offs
  {
  }

  function EntriesBytes(v: Value): (r: seq<Byte>) {
    var has := HasUncompressed(v.offs, v.est, 0);
    [if has then 1 else 0] + ((if has then UncompressedBytes(v.offs, v.est, 0) else [])
    + CompressedBytes(v.offs, 0, Half(v.est)))
  }

  lemma EntriesRoundTrip(p: seq<Byte>, v: Value, q: seq<Byte>)
    requires Loadable(v)
    ensures LoadEntries(p + EntriesBytes(v) + q, |p|, |v.offs|, v.est)
         == Fine((v.offs, |p| + |EntriesBytes(v)|))
  {
    hide LoadUncompressed; hide LoadCompressed; hide HasUncompressed; hide UncompressedBytes; hide CompressedBytes;
    hide Ordered;
    var has := HasUncompressed(v.offs, v.est, 0);
    var f: seq<Byte> := [if has then 1 else 0];
    var u := if has then UncompressedBytes(v.offs, v.est, 0) else [];
    var c := CompressedBytes(v.offs, 0, Half(v.est));
    var b := p + EntriesBytes(v) + q;
    assert b[|p|] == f[0];
    assert Us(v.offs)[..0] == [] && Cs(v.offs)[..0] == [];
    if has {
      assert b == (p + f) + u + (c + q);
      UncompressedRoundTrip(p + f, v.offs, v.est, 0, c + q);
    } else {
      ImpliedOffsets(b, |p| + 1, v.offs, v.est, 0);
    }
    assert b == (p + f + u) + c + q;
    CompressedRoundTrip(p + f + u, v.offs, 0, Half(v.est), q);
    PairsOf(v.offs);
  }

  lemma PayloadRoundTrip(p: seq<Byte>, v: Value, q: seq<Byte>)
    requires Loadable(v)
    ensures LoadPayload(p + Payload(v) + q, |p|) == Fine((v, |p| + |Payload(v)|))
  {
    hide PutVarint; hide GetVarint; hide LoadEntries; hide Ordered;
    var b := p + Payload(v) + q;
    var w1, w2, w3, w4 := PutVarint(v.uncompressed), PutVarint(v.compressed), PutVarint(v.est), PutVarint(|v.offs|);
    var e := EntriesBytes(v);
    assert Payload(v) == w1 + (w2 + (w3 + (w4 + e)));
    assert b == p + w1 + (w2 + (w3 + (w4 + (e + q))));
    VarintReads(p, v.uncompressed, w2 + (w3 + (w4 + (e + q))));
    assert b == (p + w1) + w2 + (w3 + (w4 + (e + q)));
    VarintReads(p + w1, v.compressed, w3 + (w4 + (e + q)));
    assert b == (p + w1 + w2) + w3 + (w4 + (e + q));
    VarintReads(p + w1 + w2, v.est, w4 + (e + q));
    assert b == (p + w1 + w2 + w3) + w4 + (e + q);
    VarintReads(p + w1 + w2 + w3, |v.offs|, e + q);
    assert b == (p + w1 + w2 + w3 + w4) + e + q;
    EntriesRoundTrip(p + w1 + w2 + w3 + w4, v, q);
  }

  /** A serialised index is never larger than the three byte chunk length can say. */
  lemma PayloadSize(v: Value)
    requires Loadable(v)
    ensures |Payload(v)| < 0x100_0000 - 20
  {
    hide PutVarint;
    if |v.offs| > 0 { assert 0 <= v.offs[0].c < 0x8000_0000_0000_0000; }
    VarintSize(v.uncompressed); VarintSize(v.compressed); VarintSize(v.est); VarintSize(|v.offs|);
    UncompressedSize(v.offs, v.est, 0);
    CompressedSize(v.offs, 0, Half(v.est));
  }

  lemma VarintSize(x: int)
    requires Int64(x)
    ensures |PutVarint(x)| <= 10
  {
    CapIs64Bits();
    PutUvarintAtMost(if x < 0 then -2 * x - 1 else 2 * x, 0);
  }

  lemma {:induction false} UncompressedSize(offs: seq<OffsetPair>, est: int, idx: nat)
    requires idx <= |offs|
    ensures |UncompressedBytes(offs, est, idx)| <= 10 * (|offs| - idx)
    decreases |offs| - idx
  {
    hide PutVarint;
    if idx < |offs| {
      VarintSize(Wrap(offs[idx].u - Expected(offs, idx, est)));
      UncompressedSize(offs, est, idx + 1);
    }
  }

  lemma {:induction false} CompressedSize(offs: seq<OffsetPair>, idx: nat, predict: int)
    requires idx <= |offs| && (idx == 0 && |offs| > 0 ==> Int64(offs[0].c))
    ensures |CompressedBytes(offs, idx, predict)| <= 10 * (|offs| - idx)
    decreases |offs| - idx
  {
    hide PutVarint;
    if idx < |offs| {
      var delta := CompressedDelta(offs, idx, predict);
      VarintSize(delta);
      CompressedSize(offs, idx + 1, NextPredict(idx, predict, delta));
    }
  }

  /** `Load` gives back every serialised index, whatever follows it. */
  lemma LoadRoundTrip(v: Value, q: seq<Byte>)
    requires Loadable(v)
    ensures Loaded(Framed(Payload(v)) + q) == Fine((v, q))
  {
    hide LoadPayload; hide Payload; hide Loadable;
    var p := Payload(v);
    PayloadSize(v);
    var size := 20 + |p|;
    var head := [CHUNK_TYPE_INDEX] + LE24(size - 4) + INDEX_HEADER;
    var tail := LE32(size) + INDEX_TRAILER;
    var b := Framed(p) + q;
    assert b == [CHUNK_TYPE_INDEX] + LE24(size - 4) + (INDEX_HEADER + p + tail + q);
    LoadLE24([CHUNK_TYPE_INDEX], size - 4, INDEX_HEADER + p + tail + q);
    assert b[4..10] == INDEX_HEADER;
    assert b == head + p + (tail + q);
    PayloadRoundTrip(head, v, tail + q);
    var e := 10 + |p|;
    assert b[e + 4..e + 10] == INDEX_TRAILER;
    assert b[e + 10..] == q;
  }

  // ---------- headers ----------

  /** `RemoveIndexHeaders`. */
  function RemoveIndexHeaders(b: seq<Byte>): (r: Option<seq<Byte>>) {
    if |b| <= 20 || b[0] != CHUNK_TYPE_INDEX || |b| - 4 < Load24(b, 1) then None
    else
      var c := b[4..4 + Load24(b, 1)];
      if |c| < 6 || c[..6] != INDEX_HEADER then None
      else
        var d := c[6..];
        if |d| < 6 || d[|d| - 6..] != INDEX_TRAILER then None
        else
          var e := d[..|d| - 6];
          if |e| < 4 then None else Some(e[..|e| - 4])
  }

  /** `RestoreIndexHeaders`. */
  function RestoreIndexHeaders(in_: seq<Byte>): (r: seq<Byte>) {
    if |in_| == 0 then in_ else Framed(in_)
  }

  /** Where the parts of a framed payload lie. */
  lemma FramedParts(p: seq<Byte>)
    requires |p| < 0x100_0000 - 20
    ensures var b := Framed(p);
            && |b| == |p| + 20 && b[0] == CHUNK_TYPE_INDEX && Load24(b, 1) == |b| - 4
            && b[4..10] == INDEX_HEADER && b[10..10 + |p|] == p && b[|p| + 14..] == INDEX_TRAILER
  {
    hide Low; hide Load24;
    var size := 20 + |p|;
    var rest := INDEX_HEADER + p + LE32(size) + INDEX_TRAILER;
    assert Framed(p) == [CHUNK_TYPE_INDEX] + LE24(size - 4) + rest;
    LoadLE24([CHUNK_TYPE_INDEX], size - 4, rest);
  }

  lemma RemoveFramed(p: seq<Byte>)
    requires 1 <= |p| < 0x100_0000 - 20
    ensures RemoveIndexHeaders(Framed(p)) == Some(p)
  {
    hide Framed; hide Load24;
    FramedParts(p);
    var b := Framed(p);
    var n := |p|;
    assert b[4..4 + (|b| - 4)] == b[4..];
    assert b[4..][..6] == b[4..10];
    assert b[4..][6..] == b[10..];
    assert b[10..][|b| - 10 - 6..] == b[n + 14..];
    assert b[10..][..|b| - 10 - 6] == b[10..n + 14];
    assert b[10..n + 14][..n] == b[10..10 + n];
  }

  /** Trimming a serialised index leaves its payload, and the headers can be put back. */
  lemma HeadersRoundTrip(v: Value)
    requires Loadable(v)
    ensures RemoveIndexHeaders(Framed(Payload(v))) == Some(Payload(v))
    ensures RestoreIndexHeaders(Payload(v)) == Framed(Payload(v))
  {
    hide RemoveIndexHeaders; hide Framed;
    assert |Payload(v)| > 0;
    PayloadSize(v);
    RemoveFramed(Payload(v));
  }
}
