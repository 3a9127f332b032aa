/**
 encode_l3.go: an input on which level 3 leaves its buffer, whatever the hashes. Three byte repeats behind 286
 literals each put the output one more byte ahead of the input.
 */
module SpaceInput {
  import opened Bytes

  /** The input comes in cycles of this many bytes, of which the last three repeat the one before. */
  const CYCLE: nat := 289
  const CYCLES: nat := 57

  /** Groups of three bytes that say where they are, then four bytes that say which cycle it is. */
  function ByteAt(k: nat, r: nat): (b: Byte)
    requires k <= CYCLES && r < CYCLE
  {
    if r >= 285 then k else if r % 3 == 0 then 60 + r / 3 else if r % 3 == 1 then 155 + k else 255
  }

  function SpaceExample(): (r: seq<Byte>)
    ensures |r| == 290 * CYCLES + 1
  {
    seq(290 * CYCLES + 1, i requires 0 <= i < 290 * CYCLES + 1 => ByteAt(i / CYCLE, i % CYCLE))
  }

  /** Where four consecutive bytes of it are. */
  function Place(a: int, b: int, c: int, d: int): (i: int) {
    if a == 255 then (if b < 60 then CYCLE * b + 284 else CYCLE * (c - 155) + 3 * (b - 60) - 1)
    else if a >= 155 then CYCLE * (a - 155) + if c < 60 then 283 else 3 * (c - 60) - 2
    else if a >= 60 then CYCLE * (b - 155) + 3 * (a - 60)
    else CYCLE * a + if b >= 60 then 288 else if c >= 60 then 287 else if d >= 60 then 286 else 285
  }

  /** The byte `j` further. */
  function ByteFrom(k: nat, r: nat, j: nat): (b: Byte)
    requires k <= CYCLES && r < (if k < CYCLES then CYCLE else 60) && j <= 3
  {
    if r + j < CYCLE then ByteAt(k, r + j) else ByteAt(k + 1, r + j - CYCLE)
  }

  lemma Coordinates(i: nat, j: nat)
    requires i + j < |SpaceExample()| && j <= 3
    ensures i / CYCLE <= CYCLES && i % CYCLE < (if i / CYCLE < CYCLES then CYCLE else 60)
    ensures SpaceExample()[i + j] == ByteFrom(i / CYCLE, i % CYCLE, j)
  {
    var k, r := i / CYCLE, i % CYCLE;
    if r + j < CYCLE {
      UniqueQuotient(i + j, CYCLE, k, r + j);
    } else {
      UniqueQuotient(i + j, CYCLE, k + 1, r + j - CYCLE);
    }
  }

  lemma PlaceOfGroup(k: nat, g: nat, t: nat)
    requires k <= CYCLES && g < 95 && t < 3 && 3 * g + t < (if k < CYCLES then CYCLE else 60)
    ensures var r := 3 * g + t;
            Place(ByteFrom(k, r, 0), ByteFrom(k, r, 1), ByteFrom(k, r, 2), ByteFrom(k, r, 3)) == CYCLE * k + r
  {
    var r := 3 * g + t;
    assert r / 3 == g && r % 3 == t;
    if t == 0 {
      assert (r + 1) % 3 == 1;
    } else if t == 1 {
      assert (r + 2) % 3 == 0 && (r + 2) / 3 == g + 1;
    } else {
      assert (r + 1) % 3 == 0 && (r + 1) / 3 == g + 1 && (r + 2) % 3 == 1;
    }
  }

  lemma PlaceOf(k: nat, r: nat)
    requires k <= CYCLES && r < (if k < CYCLES then CYCLE else 60)
    ensures Place(ByteFrom(k, r, 0), ByteFrom(k, r, 1), ByteFrom(k, r, 2), ByteFrom(k, r, 3)) == CYCLE * k + r
  {
    if r < 285 {
      assert r == 3 * (r / 3) + r % 3;
      PlaceOfGroup(k, r / 3, r % 3);
    }
  }

  lemma PlaceAt(i: nat)
    requires i + 4 <= |SpaceExample()|
    ensures var src := SpaceExample(); Place(src[i], src[i + 1], src[i + 2], src[i + 3]) == i
  {
    hide SpaceExample; hide ByteFrom; hide Place;
    Coordinates(i, 0);
    Coordinates(i, 1);
    Coordinates(i, 2);
    Coordinates(i, 3);
    PlaceOf(i / CYCLE, i % CYCLE);
  }

  lemma SameByte(src: seq<Byte>, c: nat, s: nat, j: nat)
    requires c + 4 <= |src| && s + 4 <= |src| && src[c..c + 4] == src[s..s + 4] && j <= 3
    ensures src[c + j] == src[s + j]
  {
    assert src[c + j] == src[c..c + 4][j] == src[s..s + 4][j] == src[s + j];
  }

  /** No four bytes of it occur twice. */
  lemma Unique(c: nat, s: nat)
    requires c < s && s + 4 <= |SpaceExample()|
    ensures SpaceExample()[c..c + 4] != SpaceExample()[s..s + 4]
  {
    hide SpaceExample; hide Place;
    var src := SpaceExample();
    if src[c..c + 4] == src[s..s + 4] {
      SameByte(src, c, s, 0);
      SameByte(src, c, s, 1);
      SameByte(src, c, s, 2);
      SameByte(src, c, s, 3);
      PlaceAt(c);
      PlaceAt(s);
      assert false;
    }
  }

  // ---------- what level 3 looks for ----------

  function Four(src: seq<Byte>, c: nat): (r: seq<Byte>)
    requires c + 4 <= |src|
  {
    src[c..c + 4]
  }

  /** Four bytes that do not occur before. */
  ghost predicate Fresh(src: seq<Byte>, s: int) {
    0 <= s && s + 4 <= |src| && forall c: nat :: c < s ==> Four(src, c) != src[s..s + 4]
  }

  lemma NotBefore(src: seq<Byte>, s: nat, c: nat)
    requires Fresh(src, s) && c < s
    ensures src[c..c + 4] != src[s..s + 4]
  {
    assert Four(src, c) != src[s..s + 4];
  }

  /** No repeat of three bytes. */
  predicate NoRepeat(src: seq<Byte>, s: int, repeat: int)
    requires 1 <= repeat <= s && s + 3 <= |src|
  {
    src[s - repeat..s - repeat + 3] != src[s..s + 3]
  }

  lemma AllFresh(s: nat)
    requires s + 4 <= |SpaceExample()|
    ensures Fresh(SpaceExample(), s)
  {
    forall c: nat | c < s
      ensures Four(SpaceExample(), c) != SpaceExample()[s..s + 4]
    {
      Unique(c, s);
    }
  }

  /** The bytes of cycle `k` around its end. */
  lemma CycleEnd(k: nat)
    requires k < CYCLES
    ensures var src, p := SpaceExample(), CYCLE * k + 286;
            && p + 4 < |src| && src[p - 2] == 255 && src[p - 1] == src[p] == src[p + 1] == src[p + 2] == k
            && src[p + 3] == 60
  {
    var i := CYCLE * k + 284;
    UniqueQuotient(i, CYCLE, k, 284);
    Coordinates(i, 0);
    Coordinates(i, 1);
    Coordinates(i, 2);
    Coordinates(i, 3);
    UniqueQuotient(i + 2, CYCLE, k, 286);
    Coordinates(i + 2, 2);
    Coordinates(i + 2, 3);
    hide SpaceExample;
  }

  /** Within a cycle there is a repeat of three bytes only at its end. */
  lemma NoRepeatBefore(k: nat, r: nat)
    requires k < CYCLES && r <= 285 && k + r > 0
    ensures var s := CYCLE * k + r; s + 3 <= |SpaceExample()| && NoRepeat(SpaceExample(), s, 1)
  {
    var src, s := SpaceExample(), CYCLE * k + r;
    UniqueQuotient(s, CYCLE, k, r);
    Coordinates(s, 0);
    Coordinates(s - 1, 0);
    if r == 0 { UniqueQuotient(s - 1, CYCLE, k - 1, 288); } else { UniqueQuotient(s - 1, CYCLE, k, r - 1); }
    hide SpaceExample;
    assert src[s - 1] != src[s] by { Neighbours(k, r); }
    assert src[s - 1..s + 2][0] != src[s..s + 3][0];
  }

  lemma Neighbours(k: nat, r: nat)
    requires k < CYCLES && r <= 285
    ensures r > 0 ==> ByteAt(k, r - 1) != ByteAt(k, r)
    ensures r == 0 && k > 0 ==> ByteAt(k - 1, 288) != ByteAt(k, 0)
  {
    if 0 < r < 285 { assert (r - 1) % 3 != r % 3; }
  }

  lemma RepeatAtEnd(k: nat)
    requires k < CYCLES
    ensures var src, p := SpaceExample(), CYCLE * k + 286; p + 3 <= |src| && !NoRepeat(src, p, 1)
  {
    CycleEnd(k);
    hide SpaceExample;
  }

  /** The search is at the start of cycle `k`. */
  ghost predicate AtCycle(src: seq<Byte>, k: nat, s: nat, nextEmit: nat, repeat: nat) {
    src == SpaceExample() && k < CYCLES && repeat == 1 && nextEmit == CYCLE * k && s == if k == 0 then 1 else nextEmit
  }

  /** It has come to `s`, as far as its end, where it stops. */
  ghost predicate InCycle(src: seq<Byte>, k: nat, s: nat, nextEmit: nat, repeat: nat) {
    && src == SpaceExample() && k < CYCLES && repeat == 1 && nextEmit == CYCLE * k && nextEmit <= s <= nextEmit + 286
    && s > 0
    && (s - nextEmit >= 256 ==> (s - nextEmit) % 2 == 0)
  }

  lemma CycleNext(src: seq<Byte>, k: nat, s: nat, nextEmit: nat, repeat: nat)
    requires InCycle(src, k, s, nextEmit, repeat)
    ensures Fresh(src, s) && Fresh(src, s + 1) && Fresh(src, s + 2) && Fresh(src, s + 3) && s + 60 <= |src|
    ensures NoRepeat(src, s, 1) <==> s < nextEmit + 286
    ensures s < nextEmit + 286 ==> NoRepeat(src, s + 1, 1) &&
                                   InCycle(src, k, s + (s - nextEmit) / 256 + 1, nextEmit, repeat)
  {
    hide SpaceExample; hide Fresh; hide NoRepeat;
    AllFresh(s);
    AllFresh(s + 1);
    AllFresh(s + 2);
    AllFresh(s + 3);
    if s < nextEmit + 286 {
      NoRepeatBefore(k, s - nextEmit);
      NoRepeatBefore(k, s + 1 - nextEmit);
    } else {
      RepeatAtEnd(k);
    }
  }
}
