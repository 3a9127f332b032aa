/**
 encode_l1.go: the shortest input with a match that level 1 takes although a copy3 cannot hold it, and how
 the search comes to it.
 */
module FarInput {
  import opened Bytes
  import opened Encoding
  import opened Matching
  import opened FarMatch
  import opened OutputBound

  /** Where the match is found. */
  const FAR: nat := MAX_COPY3_OFFSET + 1

  /** Four ones, zeros, two other bytes, the four ones again and a few more bytes. */
  function FarExample(): (r: seq<Byte>)
    ensures |r| == FAR + 10
  {
    [1, 1, 1, 1] + seq(FAR - 6, _ => 0) + [2, 3, 1, 1, 1, 1] + [4, 5, 6, 7, 8, 9]
  }

  /** The hash of the four ones is none of those that the search has stored by then. */
  ghost predicate Apart(hash: Word -> nat) {
    var src := FarExample();
    var far := hash(src[FAR..FAR + 6]);
    && hash(src[1..9]) != far && hash(src[2..9]) != far && hash(src[3..9]) != far
    && hash(src[5..13]) != far && hash(src[6..13]) != far
    && hash(src[FAR - 2..FAR + 6]) != far && hash(src[FAR - 1..FAR + 6]) != far
  }

  /** How far the search is: at its start, at the zeros, and behind the repeat that covers them. */
  ghost predicate Stage(k: nat, src: seq<Byte>, hash: Word -> nat, table: seq<nat>, s: int, nextEmit: int, repeat: int,
                        d: int) {
    k > 0 ==>
      && src == FarExample() && Apart(hash) && repeat == 1 && hash(src[FAR..FAR + 6]) < |table|
      && table[hash(src[FAR..FAR + 6])] == 0
      && (k == 1 ==> s == 1 && nextEmit == 0 && d == 0 && forall i :: 0 <= i < |table| ==> table[i] == 0)
      && (k == 2 ==> s == 5 && nextEmit == 0 && d == 0)
      && (k == 3 ==> s == FAR - 2 == nextEmit && 0 <= d <= 20)
      && k <= 3
  }

  /** The bytes of the example, and the words of it as the search loads them. */
  lemma Parts()
    ensures var src := FarExample();
            && src[0..4] == [1, 1, 1, 1] && src[1] == 1 && src[2] == 1 && src[3] == 1
            && (forall i :: 4 <= i < FAR - 2 ==> src[i] == 0)
            && src[FAR - 2] == 2 && src[FAR - 1] == 3 && src[FAR..FAR + 4] == [1, 1, 1, 1] && src[FAR + 4] == 4
  {
    var src := FarExample();
    assert src[..FAR - 2] == [1, 1, 1, 1] + seq(FAR - 6, _ => 0);
    assert src[FAR - 2..FAR + 4] == [2, 3, 1, 1, 1, 1];
    forall i | 4 <= i < FAR - 2
      ensures src[i] == 0
    {
      assert src[i] == src[..FAR - 2][i];
    }
    assert src[FAR - 2] == src[FAR - 2..FAR + 4][0] && src[FAR - 1] == src[FAR - 2..FAR + 4][1];
    assert src[FAR..FAR + 4] == src[FAR - 2..FAR + 4][2..6];
  }

  /** Nothing is found at the start. */
  lemma NothingAtStart(c: nat)
    requires c <= 2
    ensures var src := FarExample();
            && src[2..6] != src[1..5] && src[1..5] != src[0..4] && src[2..6] != src[0..4] && src[3..7] != src[c..c + 4]
  {
    Parts();
    var src := FarExample();
    assert src[4] == 0 && src[5] == 0;
    assert src[1..5][3] == 0 && src[0..4][3] == 1 && src[2..6][2] == 0 && src[1..5][2] == 1 && src[3..7][1] == 0;
    assert src[c..c + 4][1] == 1;
  }

  /** The zeros are a repeat that ends in front of the 2. */
  lemma ZerosRepeat(s: nat)
    requires 10 <= s <= |FarExample()| && IsMatch(FarExample(), 6, 1, s - 6)
    requires s > |FarExample()| - 8 || FarExample()[s] != FarExample()[s - 1]
    ensures s == FAR - 2
  {
    Parts();
    hide FarExample;
    var src := FarExample();
    if s > FAR - 2 {
      MatchedByte(src, 6, 1, s - 6, FAR - 2);
      assert false;
    }
  }

  lemma ZerosFound()
    ensures FarExample()[6..10] == FarExample()[5..9]
  {
    Parts();
  }

  /** Behind them, only the four ones are found. */
  lemma OnesFound(c: nat)
    requires c < FAR - 2
    ensures var src := FarExample();
            && src[FAR - 1..FAR + 3] != src[FAR - 2..FAR + 2]
            && src[FAR - 2..FAR + 2] != src[c..c + 4] && src[FAR - 1..FAR + 3] != src[c..c + 4]
            && src[FAR..FAR + 4] == src[0..4]
  {
    Parts();
    var src := FarExample();
    assert src[FAR - 2..FAR + 2][0] == 2 && src[FAR - 1..FAR + 3][0] == 3;
    assert src[c..c + 4][0] == src[c];
  }

  /** They go on no further than four bytes, and two MiB closer there are zeros. */
  lemma OnesEnd()
    ensures var src := FarExample(); src[FAR + 4] != src[4] && !IsMatch(src, FAR, FAR - 0x20_0000, 4)
  {
    Parts();
    var src := FarExample();
    assert src[FAR] == src[FAR..FAR + 4][0];
    assert src[0x20_0000] == 0;
  }

  // ---------- from stage to stage ----------

  lemma StageInput(first: bool, src: seq<Byte>, hash: Word -> nat, table: seq<nat>, s: int, nextEmit: int, repeat: int,
                   d: int)
    requires first ==> Stage(1, src, hash, table, s, nextEmit, repeat, d)
    ensures first ==> src == FarExample()
  {
  }

  /** Where one position of the search loop leads. */
  datatype Kind = GaveUp | AtEnd | Again | Found

  datatype StepResult = StepResult(kind: Kind, s: nat, candidate: nat, nextEmit: nat, d: nat)

  /** The position after `s`. */
  function NextS(s: nat, nextEmit: nat, small: bool): (r: nat)
    requires nextEmit <= s
  {
    s + (s - nextEmit) / (if small then 32 else 64) + 4
  }

  /** The three slots that are looked up at `s`. */
  ghost predicate SlotsIn(src: seq<Byte>, hash: Word -> nat, n: nat, s: nat) {
    s + 8 <= |src| && hash(src[s..s + 8]) < n && hash(src[s + 1..s + 8]) < n && hash(src[s + 2..s + 8]) < n
  }

  function Marked(src: seq<Byte>, hash: Word -> nat, table: seq<nat>, s: nat): (r: seq<nat>)
    requires SlotsIn(src, hash, |table|, s)
  {
    table[hash(src[s..s + 8]) := s][hash(src[s + 1..s + 8]) := s + 1]
  }

  /** Literals and a repeat that goes on to `q.s`. */
  ghost predicate Repeated(src: seq<Byte>, s: nat, nextEmit: nat, repeat: nat, d: nat, q: StepResult)
    requires nextEmit <= s
  {
    if q.kind == GaveUp then d + (s + 1 - nextEmit) > DstLimit(|src|)
    else
      && s + 5 <= q.s == q.nextEmit <= |src| && q.d <= d + (s + 1 - nextEmit) + 8
      && IsMatch(src, s + 1, repeat, q.s - (s + 1)) && (q.s > |src| - 8 || src[q.s] != src[q.s - repeat])
      && q.kind == if q.s >= |src| - 8 then AtEnd else Again
  }

  /** What the three probes find, the first that finds anything. */
  ghost predicate Finds(src: seq<Byte>, small: bool, s: nat, c0: nat, c1: nat, c2: nat, hit: bool, at: nat,
                        candidate: nat)
    requires s + 6 <= |src| && c0 < s && c1 < s && c2 < s + 2
  {
    if Hits(src, small, s, s, c0) then hit && at == s && candidate == c0
    else if Hits(src, small, s, s + 1, c1) then hit && at == s + 1 && candidate == c1
    else if Hits(src, small, s, s + 2, c2) then hit && at == s + 2 && candidate == c2
    else !hit
  }

  lemma FindsWhich(src: seq<Byte>, small: bool, s: nat, c0: nat, c1: nat, c2: nat)
    requires s + 6 <= |src| && c0 < s && c1 < s && c2 < s + 2
    ensures if Hits(src, small, s, s, c0) then Finds(src, small, s, c0, c1, c2, true, s, c0)
            else if Hits(src, small, s, s + 1, c1) then Finds(src, small, s, c0, c1, c2, true, s + 1, c1)
            else if Hits(src, small, s, s + 2, c2) then Finds(src, small, s, c0, c1, c2, true, s + 2, c2)
            else forall at, candidate :: Finds(src, small, s, c0, c1, c2, false, at, candidate)
  {
  }

  lemma FindsNothing(src: seq<Byte>, small: bool, s: nat, c0: nat, c1: nat, c2: nat, at: nat, candidate: nat, at': nat)
    requires s + 6 <= |src| && c0 < s && c1 < s && c2 < s + 2 && Finds(src, small, s, c0, c1, c2, false, at, candidate)
    ensures Finds(src, small, s, c0, c1, c2, false, at', 0)
  {
  }

  /** The three probes, after the repeat probe has failed. */
  ghost predicate Probed(src: seq<Byte>, hash: Word -> nat, small: bool, table: seq<nat>, s: nat, nextEmit: nat, d: nat,
                         q: StepResult)
    requires SlotsIn(src, hash, |table|, s) && s + 12 <= |src| && nextEmit <= s
    requires forall i :: 0 <= i < |table| ==> table[i] < s
  {
    var c0, c1, c2 := table[hash(src[s..s + 8])], table[hash(src[s + 1..s + 8])],
                      Marked(src, hash, table, s)[hash(src[s + 2..s + 8])];
    && q.nextEmit == nextEmit && q.d == d && Finds(src, small, s, c0, c1, c2, q.kind == Found, q.s, q.candidate)
    && (q.kind != Found ==> q.kind == Again && q.s == NextS(s, nextEmit, small))
  }

  predicate RepeatProbe(src: seq<Byte>, s: nat, repeat: nat)
    requires 1 <= repeat <= s && s + 8 <= |src|
  {
    src[s + 1..s + 5] == src[s - repeat + 1..s - repeat + 5]
  }

  /** What one position of the search loop does: to the table, and on. */
  ghost predicate SearchStepped(src: seq<Byte>, hash: Word -> nat, small: bool, table: seq<nat>, s: nat, nextEmit: nat,
                                repeat: nat, d: nat,
                          q: StepResult, table': seq<nat>)
    requires SlotsIn(src, hash, |table|, s) && nextEmit <= s && 1 <= repeat <= s
    requires forall i :: 0 <= i < |table| ==> table[i] < s
  {
    if NextS(s, nextEmit, small) > |src| - 8 then q.kind == AtEnd
    else
      var marked := Marked(src, hash, table, s);
      if RepeatProbe(src, s, repeat) then table' == marked && Repeated(src, s, nextEmit, repeat, d, q)
      else OnlyThird(src, hash, marked, table', s) && Probed(src, hash, small, table, s, nextEmit, d, q)
  }

  /** No slot but the third differs. */
  ghost predicate OnlyThird(src: seq<Byte>, hash: Word -> nat, table: seq<nat>, table': seq<nat>, s: nat)
    requires s + 8 <= |src|
  {
    |table'| == |table| && forall i :: 0 <= i < |table| && i != hash(src[s + 2..s + 8]) ==> table'[i] == table[i]
  }

  /** The next position is not past the limit. */
  lemma StageLimit(k: nat, src: seq<Byte>, hash: Word -> nat, table: seq<nat>, s: nat, nextEmit: nat, repeat: int,
                   d: int, small: bool)
    requires Stage(k, src, hash, table, s, nextEmit, repeat, d) && nextEmit <= s && small == (|src| <= 65536)
    ensures k > 0 ==> !small && NextS(s, nextEmit, small) <= |src| - 8 && (k == 1 ==> NextS(s, nextEmit, small) == 5)
  {
  }

  /** Only at the zeros the repeat probe succeeds. */
  lemma StageProbes(k: nat, src: seq<Byte>, hash: Word -> nat, table: seq<nat>, s: nat, nextEmit: nat, repeat: nat,
                    d: int)
    requires Stage(k, src, hash, table, s, nextEmit, repeat, d) && 1 <= repeat <= s && s + 8 <= |src|
    ensures k > 0 ==> (RepeatProbe(src, s, repeat) <==> k == 2)
  {
    hide FarExample;
    if k == 1 { NothingAtStart(0); } else if k == 2 { ZerosFound(); } else if k == 3 { OnesFound(0); }
  }

  /** The slots that are set meanwhile are others. */
  lemma KeySlot(k: nat, src: seq<Byte>, hash: Word -> nat, table: seq<nat>, s: nat, nextEmit: nat, repeat: nat, d: int)
    requires Stage(k, src, hash, table, s, nextEmit, repeat, d) && s + 8 <= |src| && k > 0
    ensures var key := hash(FarExample()[FAR..FAR + 6]);
            && key != hash(src[s..s + 8]) && key != hash(src[s + 1..s + 8])
            && (k == 1 ==> key != hash(src[s + 2..s + 8]))
            && (k == 3 ==> key == hash(src[s + 2..s + 8]))
  {
    hide FarExample;
  }

  /** From one stage to the next, and from the last to the match. */
  lemma StageStep(k: nat, src: seq<Byte>, hash: Word -> nat, small: bool, table: seq<nat>, s: nat, nextEmit: nat,
                  repeat: nat, d: nat,
                  q: StepResult, table': seq<nat>)
    requires SlotsIn(src, hash, |table|, s) && nextEmit <= s && 1 <= repeat <= s && small == (|src| <= 65536)
    requires forall i :: 0 <= i < |table| ==> table[i] < s
    requires k > 0 && Stage(k, src, hash, table, s, nextEmit, repeat, d) &&
             SearchStepped(src, hash, small, table, s, nextEmit, repeat, d, q, table')
    ensures k < 3 ==> q.kind == Again && Stage(k + 1, src, hash, table', q.s, q.nextEmit, repeat, q.d)
    ensures k >= 3 ==> q.kind == Found && q.s == FAR && q.candidate == 0 && q.nextEmit == FAR - 2 && q.d <= 20
  {
    hide FarExample; hide Apart; hide IsMatch; hide Hits; hide DstLimit;
    StageLimit(k, src, hash, table, s, nextEmit, repeat, d, small);
    StageProbes(k, src, hash, table, s, nextEmit, repeat, d);
    KeySlot(k, src, hash, table, s, nextEmit, repeat, d);
    if k == 1 {
      FirstStage(hash, table, q, d);
    } else if k == 2 {
      assert DstLimit(|src|) >= 100 by { LargeLimit(); }
      if q.kind != GaveUp { ZerosRepeat(q.s); }
    } else {
      LastStage(hash, table, q, d);
    }
  }

  lemma LargeLimit()
    ensures DstLimit(|FarExample()|) >= 100
  {
  }

  lemma FirstStage(hash: Word -> nat, table: seq<nat>, q: StepResult, d: nat)
    requires SlotsIn(FarExample(), hash, |table|, 1) && forall i :: 0 <= i < |table| ==> table[i] == 0
    requires Probed(FarExample(), hash, false, table, 1, 0, d, q)
    ensures q.kind == Again && q.s == NextS(1, 0, false) && q.nextEmit == 0 && q.d == d
  {
    NothingAtStart(Marked(FarExample(), hash, table, 1)[hash(FarExample()[3..9])]);
    hide FarExample;
  }

  lemma LastStage(hash: Word -> nat, table: seq<nat>, q: StepResult, d: nat)
    requires SlotsIn(FarExample(), hash, |table|, FAR - 2) && forall i :: 0 <= i < |table| ==> table[i] < FAR - 2
    requires Probed(FarExample(), hash, false, table, FAR - 2, FAR - 2, d, q)
    requires Marked(FarExample(), hash, table, FAR - 2)[hash(FarExample()[FAR..FAR + 6])] == 0
    ensures q.kind == Found && q.s == FAR && q.candidate == 0 && q.nextEmit == FAR - 2 && q.d == d
  {
    OnesFound(table[hash(FarExample()[FAR - 2..FAR + 6])]);
    OnesFound(table[hash(FarExample()[FAR - 1..FAR + 6])]);
    hide FarExample;
  }

  lemma StageOne(hash: Word -> nat, table: seq<nat>)
    requires Apart(hash) && hash(FarExample()[FAR..FAR + 6]) < |table| && forall i :: 0 <= i < |table| ==> table[i] == 0
    ensures Stage(1, FarExample(), hash, table, 1, 0, 1, 0)
  {
    hide FarExample; hide Apart;
  }

  /** The match is the four ones and no more. */
  lemma FourOnes(s: nat)
    requires s >= FAR + 4 && IsMatch(FarExample(), FAR + 4, FAR, s - (FAR + 4))
    ensures s == FAR + 4
  {
    OnesEnd();
    hide FarExample;
    if s > FAR + 4 {
      MatchedByte(FarExample(), FAR + 4, FAR, s - (FAR + 4), FAR + 4);
      assert false;
    }
  }

  lemma OnesSpoil(far: seq<Far>)
    requires far == [Far(FAR, FAR, 4)] && FarMatches(FarExample(), far)
    ensures !Harmless(FarExample(), far)
  {
    OnesEnd();
    hide FarExample;
    assert far[0] == Far(FAR, FAR, 4);
  }

  // ---------- the hash of the source ----------

  /** The lowest six bytes of a word. */
  function Low48(w: Word): (r: nat) { if |w| < 6 then 0 else Load24(w, 0) + 0x100_0000 * Load24(w, 3) }

  /** `hash6(u, 15)`, by the lowest six bytes of `u`. */
  function Hash6(w: Word): (r: nat)
    ensures r < 32768
  {
    Scrambled(Low48(w))
  }

  function Scrambled(x: nat): (r: nat)
    ensures r < 32768
  {
    x * 0x1_0000 * 227718039650203 % 0x1_0000_0000_0000_0000 / 0x2_0000_0000_0000
  }

  lemma SixBytes(i: nat, w: Word, a: Byte, b: Byte, c: Byte, d: Byte, e: Byte, f: Byte)
    requires i + 6 <= |FarExample()| && |w| >= 6 && w[..6] == FarExample()[i..i + 6]
    requires FarExample()[i..i + 6] == [a, b, c, d, e, f]
    ensures Low48(w) == Load24([a, b, c, d, e, f], 0) + 0x100_0000 * Load24([a, b, c, d, e, f], 3)
  {
    hide FarExample;
    forall k | 0 <= k < 6
      ensures w[k] == [a, b, c, d, e, f][k]
    {
      assert w[k] == w[..6][k];
    }
  }

  lemma Scrambles()
    ensures Scrambled(0x0504_0101_0101) == 17648
    ensures Scrambled(0x01_0101) == 21466 && Scrambled(0x0101) == 30060 && Scrambled(0x01) == 26509 && Scrambled(0) == 0
    ensures Scrambled(0x0101_0101_0302) == 29394 && Scrambled(0x0401_0101_0103) == 10019
  {
  }

  lemma FirstWords()
    ensures var src := FarExample();
            && src[1..7] == [1, 1, 1, 0, 0, 0] && src[2..8] == [1, 1, 0, 0, 0, 0] && src[3..9] == [1, 0, 0, 0, 0, 0]
            && src[5..11] == [0, 0, 0, 0, 0, 0] == src[6..12]
  {
    Parts();
    hide FarExample;
  }

  lemma LastWords()
    ensures var src := FarExample();
            && src[FAR - 2..FAR + 4] == [2, 3, 1, 1, 1, 1] && src[FAR - 1..FAR + 5] == [3, 1, 1, 1, 1, 4]
            && src[FAR..FAR + 6] == [1, 1, 1, 1, 4, 5]
  {
    var src := FarExample();
    assert src[FAR - 2..] == [2, 3, 1, 1, 1, 1, 4, 5, 6, 7, 8, 9];
    assert src[FAR - 2..FAR + 4] == src[FAR - 2..][..6] && src[FAR - 1..FAR + 5] == src[FAR - 2..][1..7];
    assert src[FAR..FAR + 6] == src[FAR - 2..][2..8];
  }

  /** With it, the four ones are found. */
  lemma Hash6Apart()
    ensures Apart(Hash6)
  {
    var src := FarExample();
    FirstWords();
    LastWords();
    Scrambles();
    hide FarExample; hide Scrambled; hide Low48;
    SixBytes(FAR, src[FAR..FAR + 6], 1, 1, 1, 1, 4, 5);
    SixBytes(1, src[1..9], 1, 1, 1, 0, 0, 0);
    SixBytes(2, src[2..9], 1, 1, 0, 0, 0, 0);
    SixBytes(3, src[3..9], 1, 0, 0, 0, 0, 0);
    SixBytes(5, src[5..13], 0, 0, 0, 0, 0, 0);
    SixBytes(6, src[6..13], 0, 0, 0, 0, 0, 0);
    SixBytes(FAR - 2, src[FAR - 2..FAR + 6], 2, 3, 1, 1, 1, 1);
    SixBytes(FAR - 1, src[FAR - 1..FAR + 6], 3, 1, 1, 1, 1, 4);
  }
}
