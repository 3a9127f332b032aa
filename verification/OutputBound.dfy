/**
 How large an encoder's output can get. The block encoders compare `d` with a limit only before some
 of their writes; these lemmas show that what they write in between still fits in the buffer, whose
 tightest cut leaves `len(src)` minus the length of the size header (writer.go, `EncodeBuffer`).
 */
module OutputBound {
  import opened Bytes
  import opened Encoding

  /** Bytes of a base 128 varint, for the sizes a block can have. */
  function UvarintLen(x: nat): (r: nat) {
    if x < 0x80 then 1 else if x < 0x4000 then 2 else if x < 0x20_0000 then 3 else 4
  }

  function Room(n: nat): (r: int) { n - UvarintLen(n) }

  /** The limit of levels 1 and 2: `len(src) - len(src)>>5 - 6`. */
  function DstLimit(n: nat): (r: int) { n - n / 32 - 6 }

  // ---------- sizes of encodings ----------

  function HeaderSize(length: nat): (r: nat) {
    if length < 30 then 1 else if length < 286 then 2 else if length < 65566 then 3 else 4
  }

  function LitSize(count: nat): (r: nat) {
    if count == 0 then 0 else HeaderSize(count) + count
  }

  function ExtraSize(length: nat): (r: nat) {
    if length <= 64 then 0 else if length < 320 then 1 else if length < 65600 then 2 else 3
  }

  function Copy1Size(length: nat): (r: nat) {
    if length <= 18 then 2 else if length <= 273 then 3 else 2 + HeaderSize(length - 18)
  }

  function CopySize(offset: nat, length: nat): (r: nat) {
    if offset > MAX_COPY2_OFFSET then 4 + ExtraSize(length)
    else if offset <= MAX_COPY1_OFFSET then Copy1Size(length)
    else 3 + ExtraSize(length)
  }

  function Fused2Size(count: nat, length: nat): (r: nat) {
    3 + count + if length > 11 then HeaderSize(length - 11) else 0
  }

  lemma Sizes(lits: seq<Byte>, offset: nat, length: nat)
    requires offset >= 1
    ensures |LiteralBytes(lits)| == LitSize(|lits|)
    ensures length >= 1 ==> |RepeatBytes(length)| == HeaderSize(length)
    ensures length >= 4 ==> |CopyBytes(offset, length)| == CopySize(offset, length)
    ensures length >= 4 && offset >= MIN_COPY2_OFFSET ==> |Copy2Bytes(offset, length)| == 3 + ExtraSize(length)
    ensures length >= 4 && offset >= MIN_COPY2_OFFSET && 1 <= |lits| <= 4 ==>
              |Lits2Bytes(lits, offset, length)| == Fused2Size(|lits|, length)
    ensures length >= 4 && offset >= MIN_COPY3_OFFSET && |lits| <= 3 ==>
              |Lits3Bytes(lits, offset, length)| == 4 + ExtraSize(length) + |lits|
  {
    hide Low; hide Copy3Word;
  }

  // ---------- one checked emission ----------

  /** Literals and a repeat, after `d + count <= limit` was checked. */
  lemma CheckedRepeatFits(n: nat, d: nat, count: nat, length: nat)
    requires n <= MAX_BLOCK_SIZE && 4 <= length && count + length <= n
    requires d + count <= DstLimit(n)
    ensures d + LitSize(count) + HeaderSize(length) <= Room(n)
  {
  }

  /** Literals and a copy, fused or not, after the same check. */
  lemma CheckedCopyFits(n: nat, d: nat, count: nat, offset: nat, length: nat)
    requires n <= MAX_BLOCK_SIZE && 4 <= length && count + length <= n && 1 <= offset <= n
    requires d + count <= DstLimit(n)
    ensures d + LitSize(count) + CopySize(offset, length) <= Room(n)
    ensures offset >= MIN_COPY2_OFFSET && count <= 4 ==> d + Fused2Size(count, length) <= Room(n)
    ensures offset > MAX_COPY2_OFFSET && count <= 3 ==> d + 4 + ExtraSize(length) + count <= Room(n)
  {
    if offset >= MIN_COPY2_OFFSET { assert n / 32 >= 2; }
  }

  lemma RemainderFits(n: nat, d: nat, count: nat)
    requires n <= MAX_BLOCK_SIZE && count <= n && d + count <= DstLimit(n)
    ensures d + LitSize(count) <= Room(n)
  {
  }

  // ---------- level 1: emissions that are not checked first ----------

  /** What a literal run and a repeat can add to the limit they were checked against. */
  function Overshoot(n: nat): (r: nat) {
    if n < 286 then 4 else if n < 512 then 5 else 8
  }

  /**
   What level 1 knows of `d` when it starts to search. After a repeat `d` was not compared with the
   limit again. Short inputs have almost no margin in the limit; for them the output never gets ahead
   of the input, except by one byte after a literal run that needed a three byte header.
   */
  ghost predicate Ahead(n: nat, d: int, e: int, checked: bool) {
    && 0 <= d && 0 <= e <= n
    && d <= DstLimit(n) + (if checked then 0 else Overshoot(n))
    && (n < 512 ==> d <= e + (if e >= 286 then 1 else 0))
    && (n < 256 && !checked ==> d <= e - 1)
  }

  lemma AheadRepeat(n: nat, d: int, e: int, checked: bool, count: nat, length: nat)
    requires n <= MAX_BLOCK_SIZE && Ahead(n, d, e, checked)
    requires 4 <= length && e + count + length <= n && d + count <= DstLimit(n)
    ensures var d' := d + LitSize(count) + HeaderSize(length);
            d' <= Room(n) && Ahead(n, d', e + count + length, false)
  {
    CheckedRepeatFits(n, d, count, length);
  }

  lemma AheadCopy(n: nat, d: int, e: int, checked: bool, count: nat, offset: nat, length: nat)
    requires n <= MAX_BLOCK_SIZE && Ahead(n, d, e, checked)
    requires 4 <= length && e + count + length <= n && 1 <= offset <= n
    requires d + count + length <= DstLimit(n) || count == 0
    ensures var d' := d + LitSize(count) + CopySize(offset, length);
            && d' <= Room(n)
            && (d' <= DstLimit(n) ==> Ahead(n, d', e + count + length, true))
  {
    if n >= 512 { assert n / 32 >= 16; }
  }

  lemma AheadFused2(n: nat, d: int, e: int, checked: bool, count: nat, length: nat)
    requires n <= MAX_BLOCK_SIZE && Ahead(n, d, e, checked)
    requires 4 <= length && 1 <= count <= 4 && e + count + length <= n
    ensures var d' := d + Fused2Size(count, length);
            && d' <= Room(n)
            && (d' <= DstLimit(n) ==> Ahead(n, d', e + count + length, true))
  {
    if n >= 512 { assert n / 32 >= 16; }
  }

  lemma AheadFused3(n: nat, d: int, e: int, checked: bool, count: nat, length: nat)
    requires n <= MAX_BLOCK_SIZE && Ahead(n, d, e, checked) && n >= MAX_COPY2_OFFSET
    requires 4 <= length && count <= 3 && e + count + length <= n
    ensures var d' := d + 4 + ExtraSize(length) + count;
            && d' <= Room(n)
            && (d' <= DstLimit(n) ==> Ahead(n, d', e + count + length, true))
  {
  }
}
