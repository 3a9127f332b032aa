/** What `Load` (index.go) lets through, and what it refuses, for any bytes. */
module IndexChecks {
  import opened Bytes
  import opened Encoding
  import opened Varint
  import opened Index
  import opened IndexCodec

  ghost predicate Grows(xs: seq<int>) {
    (forall i {:trigger xs[i]} :: 0 <= i < |xs| ==> xs[i] >= 0)
    && forall i {:trigger xs[i]} :: 0 < i < |xs| ==> xs[i] > xs[i - 1]
  }

  lemma GrowsAppend(xs: seq<int>, x: int)
    requires Grows(xs) && x >= 0 && (xs != [] ==> x > xs[|xs| - 1])
    ensures Grows(xs + [x])
  {
    var ys := xs + [x];
    forall i | 0 <= i < |ys|
      ensures ys[i] >= 0 && (i > 0 ==> ys[i] > ys[i - 1])
    {
      if i < |xs| { assert ys[i] == xs[i] && (i > 0 ==> ys[i - 1] == xs[i - 1]); }
    }
  }

  lemma {:induction false} UncompressedGrow(b: seq<Byte>, s: nat, us: seq<int>, entries: nat, has: bool, est: int)
    requires s <= |b| && |us| <= entries && Grows(us)
    ensures var r := LoadUncompressed(b, s, us, entries, has, est); r.Some? ==> Grows(r.value.0)
    decreases entries - |us|
  {
    hide Grows; hide GetVarint; hide Wrap;
    if |us| < entries {
      var next := if has then GetVarint(b, s) else Some((0, s));
      if next.Some? {
        var t := next.value;
        var prev := if |us| > 0 then us[|us| - 1] else 0;
        var u := if |us| > 0 then Wrap(t.0 + Wrap(prev + est)) else t.0;
        if !((|us| > 0 && u <= prev) || u < 0) {
          GrowsAppend(us, u);
          UncompressedGrow(b, t.1, us + [u], entries, has, est);
        }
      }
    }
  }

  lemma {:induction false} CompressedGrow(b: seq<Byte>, s: nat, cs: seq<int>, entries: nat, predict: int)
    requires s <= |b| && |cs| <= entries && Grows(cs)
    ensures var r := LoadCompressed(b, s, cs, entries, predict); r.Some? ==> Grows(r.value.0)
    decreases entries - |cs|
  {
    hide Grows; hide GetVarint; hide Wrap; hide NextPredict;
    if |cs| < entries {
      var next := GetVarint(b, s);
      if next.Some? {
        var t := next.value;
        var prev := if |cs| > 0 then cs[|cs| - 1] else 0;
        var c := if |cs| > 0 then Wrap(t.0 + Wrap(prev + predict)) else t.0;
        if !((|cs| > 0 && c <= prev) || c < 0) {
          GrowsAppend(cs, c);
          CompressedGrow(b, t.1, cs + [c], entries, NextPredict(|cs|, predict, t.0));
        }
      }
    }
  }

  /** An index that can be searched: both offsets go up from entry to entry. */
  ghost predicate Searchable(v: Value) {
    && v.uncompressed >= 0 && v.est >= 0 && |v.offs| <= MAX_INDEX_ENTRIES
    && (forall i {:trigger v.offs[i]} :: 0 <= i < |v.offs| ==> v.offs[i].c >= 0 && v.offs[i].u >= 0)
    && (forall i {:trigger v.offs[i]} :: 0 < i < |v.offs| ==>
          v.offs[i].c > v.offs[i - 1].c && v.offs[i].u > v.offs[i - 1].u)
  }

  lemma PairsSearchable(un: int, co: int, est: int, cs: seq<int>, us: seq<int>)
    requires un >= 0 && est >= 0 && |cs| == |us| <= MAX_INDEX_ENTRIES && Grows(cs) && Grows(us)
    ensures Searchable(Value(un, co, est, Pairs(cs, us)))
  {
    var offs := Pairs(cs, us);
    forall i | 0 <= i < |offs|
      ensures offs[i].c >= 0 && offs[i].u >= 0
      ensures i > 0 ==> offs[i].c > offs[i - 1].c && offs[i].u > offs[i - 1].u
    {
      assert cs[i] >= 0 && us[i] >= 0;
      assert i > 0 ==> cs[i] > cs[i - 1] && us[i] > us[i - 1];
    }
  }

  lemma EntriesSearchable(b: seq<Byte>, s: nat, un: int, co: int, est: int, entries: nat)
    requires s <= |b| && un >= 0 && est >= 0 && entries <= MAX_INDEX_ENTRIES
    ensures var r := LoadEntries(b, s, entries, est); r.Fine? ==> Searchable(Value(un, co, est, r.value.0))
  {
    hide Searchable; hide LoadUncompressed; hide LoadCompressed; hide Pairs;
    if s < |b| && b[s] <= 1 {
      assert Grows([]);
      UncompressedGrow(b, s + 1, [], entries, b[s] != 0, est);
      var u := LoadUncompressed(b, s + 1, [], entries, b[s] != 0, est);
      if u.Some? {
        CompressedGrow(b, u.value.1, [], entries, Half(est));
        var c := LoadCompressed(b, u.value.1, [], entries, Half(est));
        if c.Some? { PairsSearchable(un, co, est, c.value.0, u.value.0); }
      }
    }
  }

  /** Whatever bytes are loaded, an index that comes out can be searched, and its chunk has both frames. */
  lemma LoadedSearchable(b: seq<Byte>)
    requires Loaded(b).Fine?
    ensures Searchable(Loaded(b).value.0)
    ensures |b| > 16 && (b[0] == 0x40 || b[0] == 0x99) && Load24(b, 1) <= |b| - 4 && b[4..10] == INDEX_HEADER
    ensures var rest := Loaded(b).value.1;
            |rest| + 10 <= |b| && b[|b| - |rest|..] == rest && b[|b| - |rest| - 6..|b| - |rest|] == INDEX_TRAILER
  {
    hide Searchable; hide GetVarint; hide LoadEntries; hide Load24;
    var un := GetVarint(b, 10).value;
    var co := GetVarint(b, un.1).value;
    var est := GetVarint(b, co.1).value;
    var n := GetVarint(b, est.1).value;
    EntriesSearchable(b, n.1, un.0, co.0, est.0, n.0);
  }

  /** The old chunk type is loaded like the new one. */
  lemma LegacyLoads(b: seq<Byte>)
    requires |b| > 0 && b[0] == CHUNK_TYPE_INDEX
    ensures Loaded([LEGACY_INDEX_CHUNK] + b[1..]) == Loaded(b)
  {
    hide LoadPayload; hide Load24;
    var d := [LEGACY_INDEX_CHUNK] + b[1..];
    if |b| > 16 {
      SameMiddle(b, d, 4, 10);
      SameLengths(b, d);
      SamePayload(b, d);
      PayloadAfter(b, 10);
      var p := LoadPayload(b, 10);
      if p.Fine? && |b| - p.value.1 >= 10 {
        SameMiddle(b, d, p.value.1 + 4, p.value.1 + 10);
        SameMiddle(b, d, p.value.1 + 10, |b|);
        assert d[p.value.1 + 10..] == d[p.value.1 + 10..|d|] && b[p.value.1 + 10..] == b[p.value.1 + 10..|b|];
      }
    }
  }

  lemma SameMiddle(b: seq<Byte>, d: seq<Byte>, i: nat, j: nat)
    requires |b| == |d| && 1 <= i <= j <= |b| && b[1..] == d[1..]
    ensures b[i..j] == d[i..j]
  {
    assert b[i..j] == b[1..][i - 1..j - 1] == d[1..][i - 1..j - 1] == d[i..j];
  }

  lemma SameLengths(b: seq<Byte>, d: seq<Byte>)
    requires |b| == |d| >= 4 && b[1..] == d[1..]
    ensures Load24(b, 1) == Load24(d, 1)
  {
    assert b[1] == b[1..][0] && b[2] == b[1..][1] && b[3] == b[1..][2];
    assert d[1] == d[1..][0] && d[2] == d[1..][1] && d[3] == d[1..][2];
  }

  lemma {:induction false} SameUvarint(b: seq<Byte>, d: seq<Byte>, s: nat, k: nat)
    requires |b| == |d| >= 1 && b[1..] == d[1..] && s >= 1 && k <= 10
    ensures GetUvarint(b, s, k) == GetUvarint(d, s, k)
    decreases 10 - k
  {
    if s < |b| && k < 10 {
      assert b[s] == b[1..][s - 1] == d[1..][s - 1] == d[s];
      SameUvarint(b, d, s + 1, k + 1);
    }
  }

  lemma SameVarint(b: seq<Byte>, d: seq<Byte>, s: nat)
    requires |b| == |d| >= 1 && b[1..] == d[1..] && s >= 1
    ensures GetVarint(b, s) == GetVarint(d, s)
  {
    SameUvarint(b, d, s, 0);
  }

  lemma {:induction false} SameUncompressed(b: seq<Byte>, d: seq<Byte>, s: nat, us: seq<int>, entries: nat, has: bool,
                                            est: int)
    requires |b| == |d| >= 1 && b[1..] == d[1..] && 1 <= s <= |b| && |us| <= entries
    ensures LoadUncompressed(b, s, us, entries, has, est) == LoadUncompressed(d, s, us, entries, has, est)
    ensures var r := LoadUncompressed(b, s, us, entries, has, est); r.Some? ==> r.value.1 >= s
    decreases entries - |us|
  {
    hide GetVarint; hide Wrap;
    if |us| < entries {
      SameVarint(b, d, s);
      var next := if has then GetVarint(b, s) else Some((0, s));
      if next.Some? {
        var t := next.value;
        var prev := if |us| > 0 then us[|us| - 1] else 0;
        var u := if |us| > 0 then Wrap(t.0 + Wrap(prev + est)) else t.0;
        if !((|us| > 0 && u <= prev) || u < 0) { SameUncompressed(b, d, t.1, us + [u], entries, has, est); }
      }
    }
  }

  lemma {:induction false} SameCompressed(b: seq<Byte>, d: seq<Byte>, s: nat, cs: seq<int>, entries: nat, predict: int)
    requires |b| == |d| >= 1 && b[1..] == d[1..] && 1 <= s <= |b| && |cs| <= entries
    ensures LoadCompressed(b, s, cs, entries, predict) == LoadCompressed(d, s, cs, entries, predict)
    ensures var r := LoadCompressed(b, s, cs, entries, predict); r.Some? ==> r.value.1 >= s
    decreases entries - |cs|
  {
    hide GetVarint; hide Wrap; hide NextPredict;
    if |cs| < entries {
      SameVarint(b, d, s);
      var next := GetVarint(b, s);
      if next.Some? {
        var t := next.value;
        var prev := if |cs| > 0 then cs[|cs| - 1] else 0;
        var c := if |cs| > 0 then Wrap(t.0 + Wrap(prev + predict)) else t.0;
        if !((|cs| > 0 && c <= prev) || c < 0) {
          SameCompressed(b, d, t.1, cs + [c], entries, NextPredict(|cs|, predict, t.0));
        }
      }
    }
  }

  lemma SameEntries(b: seq<Byte>, d: seq<Byte>, s: nat, entries: nat, est: int)
    requires |b| == |d| >= 1 && b[1..] == d[1..] && 1 <= s <= |b|
    ensures LoadEntries(b, s, entries, est) == LoadEntries(d, s, entries, est)
  {
    hide LoadUncompressed; hide LoadCompressed; hide Pairs;
    if s < |b| {
      assert b[s] == b[1..][s - 1] == d[1..][s - 1] == d[s];
      SameUncompressed(b, d, s + 1, [], entries, b[s] != 0, est);
      var u := LoadUncompressed(b, s + 1, [], entries, b[s] != 0, est);
      if u.Some? { SameCompressed(b, d, u.value.1, [], entries, Half(est)); }
    }
  }

  lemma SamePayload(b: seq<Byte>, d: seq<Byte>)
    requires |b| == |d| >= 10 && b[1..] == d[1..]
    ensures LoadPayload(b, 10) == LoadPayload(d, 10)
  {
    hide GetVarint; hide LoadEntries;
    SameVarint(b, d, 10);
    var un := GetVarint(b, 10);
    if un.Some? {
      SameVarint(b, d, un.value.1);
      var co := GetVarint(b, un.value.1);
      if co.Some? {
        SameVarint(b, d, co.value.1);
        var est := GetVarint(b, co.value.1);
        if est.Some? {
          SameVarint(b, d, est.value.1);
          var n := GetVarint(b, est.value.1);
          if n.Some? && 0 <= n.value.0 { SameEntries(b, d, n.value.1, n.value.0, est.value.0); }
        }
      }
    }
  }

  lemma PayloadAfter(b: seq<Byte>, s: nat)
    requires 1 <= s <= |b|
    ensures LoadPayload(b, s).Fine? ==> LoadPayload(b, s).value.1 >= s
  {
    hide GetVarint; hide LoadEntries;
    if LoadPayload(b, s).Fine? {
      var n := GetVarint(b, GetVarint(b, GetVarint(b, GetVarint(b, s).value.1).value.1).value.1).value;
      EntriesAfter(b, n.1, n.0, GetVarint(b, GetVarint(b, GetVarint(b, s).value.1).value.1).value.0);
    }
  }

  lemma EntriesAfter(b: seq<Byte>, s: nat, entries: nat, est: int)
    requires 1 <= s <= |b|
    ensures LoadEntries(b, s, entries, est).Fine? ==> LoadEntries(b, s, entries, est).value.1 >= s
  {
    hide LoadUncompressed; hide LoadCompressed; hide Pairs;
    if s < |b| {
      SameUncompressed(b, b, s + 1, [], entries, b[s] != 0, est);
      var u := LoadUncompressed(b, s + 1, [], entries, b[s] != 0, est);
      if u.Some? { SameCompressed(b, b, u.value.1, [], entries, Half(est)); }
    }
  }

  /** Every proper prefix of a serialised index is an unexpected end. */
  lemma TruncatedIndex(v: Value, n: nat)
    requires Loadable(v) && n < |Framed(Payload(v))|
    ensures Loaded(Framed(Payload(v))[..n]) == Bad(UnexpectedEof)
  {
    hide Framed; hide Payload; hide Loadable; hide Load24; hide LoadPayload;
    PayloadSize(v);
    FramedParts(Payload(v));
    var b := Framed(Payload(v));
    if n > 16 { SameLength(b, n); }
  }

  lemma SameLength(b: seq<Byte>, n: nat)
    requires 4 <= n <= |b|
    ensures Load24(b[..n], 1) == Load24(b, 1)
  {
  }

  /** A frame that is not that of an index. */
  lemma WrongFrame(b: seq<Byte>)
    ensures |b| <= 16 ==> Loaded(b) == Bad(UnexpectedEof)
    ensures |b| > 16 && b[0] != 0x40 && b[0] != 0x99 ==> Loaded(b) == Bad(Corrupt)
    ensures |b| > 16 && (b[0] == 0x40 || b[0] == 0x99) && |b| - 4 >= Load24(b, 1) && b[4..10] != INDEX_HEADER ==>
              Loaded(b) == Bad(Unsupported)
  {
    hide LoadPayload; hide Load24;
  }

  /** A serialised index with another trailer. */
  lemma WrongTrailer(v: Value, trailer: seq<Byte>, q: seq<Byte>)
    requires Loadable(v) && |trailer| == 6 && trailer != INDEX_TRAILER
    ensures var b := Framed(Payload(v)); Loaded(b[..|b| - 6] + trailer + q) == Bad(Corrupt)
  {
    hide Payload; hide Loadable; hide Load24; hide LoadPayload; hide LE32; hide LE24;
    var p := Payload(v);
    PayloadSize(v);
    FramedParts(p);
    var size := 20 + |p|;
    var head := [CHUNK_TYPE_INDEX] + LE24(size - 4) + INDEX_HEADER;
    var b := Framed(p);
    var d := b[..|b| - 6] + trailer + q;
    assert b == head + p + LE32(size) + INDEX_TRAILER;
    assert d == head + p + (LE32(size) + trailer + q);
    PayloadRoundTrip(head, v, LE32(size) + trailer + q);
    assert d[0] == CHUNK_TYPE_INDEX && Load24(d, 1) == Load24(b, 1) by { SameStart(b, d); }
    assert d[4..10] == INDEX_HEADER;
    assert d[|p| + 14..|p| + 20] == trailer;
  }

  lemma SameStart(b: seq<Byte>, d: seq<Byte>)
    requires |b| >= 10 && |d| >= 10 && b[..4] == d[..4]
    ensures b[0] == d[0] && Load24(b, 1) == Load24(d, 1)
  {
    assert b[0] == b[..4][0] && b[1] == b[..4][1] && b[2] == b[..4][2] && b[3] == b[..4][3];
    assert d[0] == d[..4][0] && d[1] == d[..4][1] && d[2] == d[..4][2] && d[3] == d[..4][3];
  }

  /** The offsets that need not be written are the multiples of the estimate. */
  lemma {:induction false} Guessed(offs: seq<OffsetPair>, est: nat, idx: nat)
    requires idx <= |offs| && (forall i {:trigger offs[i]} :: 0 <= i < idx ==> offs[i].u == i * est)
    requires |offs| * est < 0x8000_0000_0000_0000
    ensures !HasUncompressed(offs, est, idx) <==>
            forall i {:trigger offs[i]} :: idx <= i < |offs| ==> offs[i].u == i * est
    decreases |offs| - idx
  {
    if idx < |offs| {
      NextGuess(offs, est, idx);
      hide Expected;
      if offs[idx].u == idx * est { Guessed(offs, est, idx + 1); }
    }
  }

  lemma NextGuess(offs: seq<OffsetPair>, est: nat, idx: nat)
    requires idx < |offs| && |offs| * est < 0x8000_0000_0000_0000
    requires idx > 0 ==> offs[idx - 1].u == (idx - 1) * est
    ensures Expected(offs, idx, est) == idx * est
  {
    if idx > 0 {
      assert (idx - 1) * est + est == idx * est;
      assert (|offs| - idx) * est >= 0;
      assert |offs| * est == idx * est + (|offs| - idx) * est;
      WrapId(idx * est);
    }
  }
}
