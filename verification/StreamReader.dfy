/**
 reader.go: the `Reader`, with `Read`, `Skip` and `Reset`. What is left to read is a function of its
 state, `Left`; reading takes bytes off its front, and so does skipping.
 */
module StreamReader {
  import opened Bytes
  import Format
  import opened Varint
  import opened Stream
  import opened ChunkReader
  import opened Skipping
  import FastDecoder

  lemma {:induction false} PowersOfTwo(k: nat)
    requires k <= 13
    ensures 0x400 <= Pow2(k + 10) <= MAX_BLOCK_SIZE
  {
    if k > 0 {
      PowersOfTwo(k - 1);
      DoubledPow2(k, 13);
    } else {
      assert Pow2(8) == 256;
      DoubledPow2(0, 13);
    }
  }

  lemma {:induction false} DoubledPow2(k: nat, top: nat)
    requires k <= top <= 13
    ensures Pow2(k + 10) <= Pow2(top + 10) && Pow2(23) == MAX_BLOCK_SIZE
    decreases top - k
  {
    assert Pow2(6) == 64 && Pow2(12) == 4096 && Pow2(18) == 262144;
    if k < top { DoubledPow2(k + 1, top); }
  }

  class Reader {
    const c: Settings
    /** What the underlying reader still has. */
    var r: seq<Byte>
    var err: Option<Error>
    /** `decoded[i..j]` is decoded and not passed on yet. */
    var decoded: seq<Byte>
    var i: nat
    var j: nat
    /** Uncompressed offset of the block in `decoded`. */
    var blockStart: int
    var maxBlock: nat
    var maxBufSize: nat
    var readHeader: bool
    var wantEOF: bool

    ghost predicate Valid()
      reads this
    {
      && GoodSettings(c) && i <= j <= |decoded| && blockStart + j >= 0
      && 1 <= maxBlock <= c.maxBlockOrg && maxBufSize == MaxBufSize(maxBlock)
    }

    function At(): (s: State)
      reads this
    {
      State(if blockStart + j >= 0 then blockStart + j else 0, maxBlock, readHeader, wantEOF)
    }

    /** All that is still to come. */
    function Left(): (l: Run)
      requires i <= j <= |decoded|
      reads this
    {
      if err.Some? then Run([], err.value)
      else var rest := All(c, At(), r); Run(decoded[i..j] + rest.data, rest.end)
    }

    /** The state after one round of the loop in `Read`. */
    ghost predicate Became(next: Next)
      reads this
    {
      match next
      case Failed(e) => err == Some(e)
      case More(st, out, rest) => err == None && At() == st && r == rest && i <= j <= |decoded| && decoded[i..j] == out
    }

    constructor (c: Settings, input: seq<Byte>)
      requires GoodSettings(c)
      ensures Valid() && this.c == c && Left() == All(c, Initial(c), input) && At() == Initial(c) && err.None?
    {
      this.c := c;
      r, err, decoded, i, j, blockStart := input, None, [], 0, 0, 0;
      maxBlock, maxBufSize := c.maxBlockOrg, MaxBufSize(c.maxBlockOrg);
      readHeader, wantEOF := c.ignoreStreamID, false;
    }

    /** `Reset`: whatever happened before, the reader is as good as new. */
    method Reset(input: seq<Byte>)
      requires Valid()
      modifies this
      ensures Valid() && Left() == All(c, Initial(c), input)
    {
      r, err, i, j, blockStart := input, None, 0, 0, 0;
      readHeader, wantEOF := c.ignoreStreamID, false;
      maxBlock := c.maxBlockOrg;
      maxBufSize := MaxBufSize(maxBlock);
    }

    /** The input is continued elsewhere, where a chunk with uncompressed offset `u` starts. */
    method Reposition(input: seq<Byte>, u: nat)
      requires Valid() && err.None?
      modifies this`r, this`i, this`blockStart
      ensures Valid() && At() == old(At()).(pos := u) && r == input && i == j && err.None?
    {
      r := input;
      i := j;
      blockStart := u - j;
    }

    /** `readFull`. */
    method ReadFull(n: nat, allowEOF: bool) returns (ok: bool, p: seq<Byte>)
      requires err.None?
      modifies this`r, this`err
      ensures ok == (n <= |old(r)|)
      ensures ok ==> err == None && p == old(r)[..n] && r == old(r)[n..]
      ensures !ok ==> err == Some(if |old(r)| == 0 && allowEOF then Eof else Corrupt)
    {
      if |r| >= n {
        ok, p, r := true, r[..n], r[n..];
      } else {
        err := Some(if |r| == 0 && allowEOF then Eof else Corrupt);
        ok, p, r := false, [], [];
      }
    }

    /** The chunk's data does what `Handled` says. */
    ghost predicate Did(e: Effect, rest: seq<Byte>)
      reads this
    {
      match e
      case Bad(error) => err == Some(error)
      case Good(st, out) => Became(More(st, out, rest))
    }

    /** `minLzHeader`. */
    method MinLzHeader(hdr: seq<Byte>) returns (ok: bool)
      requires |hdr| == 6 && err.None? && i == j == 0 && blockStart == 0 && Valid()
      modifies this
      ensures unchanged(`r) && unchanged(`decoded) && Valid()
      ensures hdr[..5] == MAGIC_BODY ==> ok == err.None? && Did(Identified(c, old(At()), hdr), r)
    {
      ghost var before := At();
      if hdr[5] / 64 != 0 { err := Some(Corrupt); return false; }
      var n := hdr[5] % 16 + 10;
      if n > 23 { err := Some(Corrupt); return false; }
      PowersOfTwo(n - 10);
      if Pow2(n) > c.maxBlockOrg { err := Some(TooLarge); return false; }
      maxBlock := Pow2(n);
      maxBufSize := MaxBufSize(maxBlock);
      wantEOF := true;
      return true;
    }

    /** A chunk of compressed data. */
    method ReadCompressed(chunkLen: nat, ownCrc: bool)
      requires Valid() && err.None? && i == j
      modifies this
      ensures Valid()
      ensures chunkLen < 4 || chunkLen > old(maxBufSize) || |old(r)| < chunkLen ==> err == Some(Corrupt)
      ensures 4 <= chunkLen <= old(maxBufSize) && chunkLen <= |old(r)| ==>
                Did(Compressed(c, old(At()), ownCrc, old(r)[..chunkLen]), old(r)[chunkLen..])
    {
      hide Format.DecodeBody; hide GetUvarint; hide Load32; hide All; hide MaxBufSize; hide GoodSettings; hide Step;
      blockStart := blockStart + j;
      if chunkLen < 4 { err := Some(Corrupt); return; }
      if chunkLen > maxBufSize { err := Some(Corrupt); return; }
      var ok, buf := ReadFull(chunkLen, false);
      if !ok { return; }
      var checksum := Load32(buf, 0);
      var size := GetUvarint(buf, 4, 0);
      if size.None? { err := Some(Corrupt); return; }
      var n := size.value.0;
      if n > 0xffff_ffff { err := Some(Corrupt); return; }
      if n > maxBlock { err := Some(TooLarge); return; }
      var body := buf[size.value.1..];
      if n == 0 || n < |body| { err := Some(Corrupt); return; }
      var dst := new Byte[n](_ => 0);
      var code := FastDecoder.MinLZDecode(dst, body);
      if code != 0 { err := Some(Corrupt); return; }
      decoded := dst[..] + if n < |decoded| then decoded[n..] else [];
      var toCRC := if ownCrc then body else dst[..];
      if !c.ignoreCRC && c.crc(toCRC) != checksum { err := Some(BadCrc); return; }
      i, j := 0, n;
      assert decoded[..n] == dst[..];
    }

    /** A chunk of stored data. */
    method ReadUncompressed(chunkLen: nat)
      requires Valid() && err.None? && i == j && readHeader
      modifies this
      ensures Valid()
      ensures match Early(old(At()), CHUNK_UNCOMPRESSED, chunkLen, |old(r)|)
              case Some(e) => err == Some(e)
              case None =>
                if |old(r)| < chunkLen then err == Some(Corrupt)
                else Did(CheckSum(c, Load32(old(r)[..chunkLen], 0), old(r)[4..chunkLen], old(r)[4..chunkLen],
                                  old(At())), old(r)[chunkLen..])
    {
      hide All; hide MaxBufSize; hide GoodSettings; hide Step; hide Load32;
      blockStart := blockStart + j;
      if chunkLen < 4 { err := Some(Corrupt); return; }
      if chunkLen > maxBufSize { err := Some(Corrupt); return; }
      var ok, buf := ReadFull(4, false);
      if !ok { return; }
      var checksum := Load32(buf, 0);
      var n := chunkLen - 4;
      if n > maxBlock { err := Some(TooLarge); return; }
      ok, buf := ReadFull(n, false);
      if !ok { return; }
      assert buf == old(r)[4..chunkLen] && r == old(r)[chunkLen..];
      SameSum(old(r), chunkLen);
      decoded := buf + if n < |decoded| then decoded[n..] else [];
      if !c.ignoreCRC && c.crc(buf) != checksum { err := Some(BadCrc); return; }
      i, j := 0, n;
      assert decoded[..n] == buf;
    }

    /** An EOF chunk. */
    method ReadEof(chunkLen: nat)
      requires Valid() && err.None? && i == j && chunkLen <= 10
      modifies this
      ensures Valid() && unchanged(`decoded)
      ensures |old(r)| < chunkLen ==> err == Some(Corrupt)
      ensures chunkLen <= |old(r)| ==> Did(Ended(c, old(At()), old(r)[..chunkLen]), old(r)[chunkLen..])
    {
      hide GetUvarint;
      if chunkLen != 0 {
        var ok, buf := ReadFull(chunkLen, false);
        if !ok { return; }
        if !c.ignoreStreamID {
          var wantSize := GetUvarint(buf, 0, 0);
          if wantSize.None? || wantSize.value.1 != chunkLen { err := Some(Corrupt); return; }
          if wantSize.value.0 != blockStart + j { err := Some(Corrupt); return; }
        }
      }
      wantEOF, readHeader := false, false;
    }

    /** A stream identifier. */
    method ReadIdentifier(chunkLen: nat)
      requires Valid() && err.None? && i == j
      modifies this
      ensures Valid() && unchanged(`decoded)
      ensures chunkLen != 6 || |old(r)| < 6 ==> err == Some(Corrupt)
      ensures chunkLen == 6 <= |old(r)| ==> Did(Identified(c, old(At()), old(r)[..6]), old(r)[6..])
    {
      if chunkLen != 6 { err := Some(Corrupt); return; }
      var ok, hdr := ReadFull(6, false);
      if !ok { return; }
      blockStart := 0;
      i, j := 0, 0;
      if hdr[..5] == MAGIC_BODY {
        ghost var before := At();
        ok := MinLzHeader(hdr);
        assert Identified(c, before, hdr) == Identified(c, old(At()), hdr);
      } else {
        err := Some(Unsupported);
      }
    }

    /** `skippable`, for a chunk type from 0x40 on. */
    method Skippable(id: Byte, n: nat)
      requires Valid() && err.None? && i == j && id > MAX_NON_SKIPPABLE
      modifies this
      ensures Valid() && unchanged(`decoded)
      ensures 0xc0 <= id <= 0xfd ==> err == Some(UserChunk)
      ensures !(0xc0 <= id <= 0xfd) && |old(r)| < n ==> err == Some(Corrupt)
      ensures !(0xc0 <= id <= 0xfd) && n <= |old(r)| ==> Did(Good(old(At()), []), old(r)[n..])
    {
      if 0xc0 <= id <= 0xfd { err := Some(UserChunk); return; }
      var left: nat := n;
      while left > 0
        invariant unchanged(`decoded)
        invariant Valid() && err.None? && i == j && At() == old(At()) && left + |old(r)| - |r| == n
        invariant |r| <= |old(r)| && r == old(r)[|old(r)| - |r|..]
      {
        var ok, _ := ReadFull(if left < 4096 then left else 4096, false);
        if !ok { return; }
        left := left - if left < 4096 then left else 4096;
      }
    }

    /** The chunk header: `Some` of type and length, unless there is an error. */
    method ReadChunkHeader() returns (h: Option<(Byte, nat)>)
      requires Valid() && err.None? && i == j
      modifies this
      ensures Valid() && i == j && unchanged(`decoded)
      ensures h.None? ==> err.Some? && Step(c, old(At()), old(r)) == Failed(err.value)
      ensures h.None? && |old(r)| < 4 ==> err == Some(if |old(r)| == 0 && !old(wantEOF) then Eof else Corrupt)
      ensures h.None? && |old(r)| >= 4 ==> err == Some(Corrupt) && !old(readHeader) &&
                                           Early(old(At()), old(r)[0], Load24(old(r), 1), |old(r)| - 4) == err
      ensures h.Some? ==> |old(r)| >= 4 && h.value == (old(r)[0], Load24(old(r), 1)) && r == old(r)[4..] && err.None?
      ensures h.Some? ==> At() == old(At()).(readHeader := old(readHeader) || h.value.0 == CHUNK_STREAM_ID)
      ensures h.Some? && !readHeader ==> h.value.0 > MAX_NON_SKIPPABLE || h.value.0 == CHUNK_EOF
    {
      hide Handled;
      var ok, tmp := ReadFull(4, !wantEOF);
      if !ok { return None; }
      var chunkType, chunkLen := tmp[0], Load24(tmp, 1);
      assert chunkLen == Load24(old(r), 1);
      if !readHeader {
        if chunkType == CHUNK_STREAM_ID {
          readHeader := true;
        } else if chunkType <= MAX_NON_SKIPPABLE && chunkType != CHUNK_EOF {
          err := Some(Corrupt);
          return None;
        }
      }
      return Some((chunkType, chunkLen));
    }

    /** One round of the loop in `Read`. */
    method ReadChunk()
      requires Valid() && err.None? && i == j
      modifies this
      ensures Valid() && Became(Step(c, old(At()), old(r)))
    {
      hide Compressed; hide CheckSum; hide Ended; hide Identified; hide Load24; hide Load32; hide GoodSettings;
      hide MaxBufSize;
      var h := ReadChunkHeader();
      if h.None? { return; }
      var chunkType, chunkLen := h.value.0, h.value.1;
      assert chunkLen <= |r| ==> old(r)[4..4 + chunkLen] == r[..chunkLen] && old(r)[4 + chunkLen..] == r[chunkLen..];
      if chunkType == CHUNK_COMPRESSED || chunkType == CHUNK_COMPRESSED_COMP_CRC {
        ReadCompressed(chunkLen, chunkType == CHUNK_COMPRESSED_COMP_CRC);
      } else if chunkType == CHUNK_UNCOMPRESSED {
        ghost var rest := r;
        ReadUncompressed(chunkLen);
        assert chunkLen >= 4 && chunkLen <= |rest| ==> rest[..chunkLen][4..] == rest[4..chunkLen];
      } else if chunkType == CHUNK_EOF {
        if chunkLen > 10 { err := Some(Corrupt); return; }
        ReadEof(chunkLen);
      } else if chunkType == CHUNK_STREAM_ID {
        ReadIdentifier(chunkLen);
      } else if chunkType <= MAX_NON_SKIPPABLE {
        err := Some(Unsupported);
      } else {
        Skippable(chunkType, chunkLen);
      }
    }

    /**
     `Read` into a buffer of `size` bytes: the bytes `p` are the next ones of all that is left, and an
     error is reported only when nothing is left before it.
     */
    method Read(size: nat) returns (p: seq<Byte>, e: Option<Error>)
      requires Valid()
      modifies this
      ensures Valid() && old(Left()) == Run(p + Left().data, Left().end)
      ensures |p| <= size && (e.None? && size > 0 ==> |p| > 0)
      ensures e.Some? ==> p == [] && err == e && old(Left()) == Run([], e.value)
    {
      if err.Some? { return [], err; }
      while true
        invariant Valid() && err.None? && Left() == old(Left())
        decreases |r|
      {
        if i < j {
          var n := if size < j - i then size else j - i;
          p := decoded[i..i + n];
          i := i + n;
          assert p + decoded[i..j] == decoded[i - n..j];
          Assoc(p, decoded[i..j], All(c, At(), r).data);
          return p, None;
        }
        ghost var st, input := At(), r;
        ReadChunk();
        AllOnce(c, st, input);
        if err.Some? { return [], err; }
      }
    }

    /** One round of `Skip` with `n` bytes left and a buffer of size `room` did what `SkipStep` says. */
    ghost predicate DidSkip(next: SkipNext, room: nat, n: nat, n': nat)
      reads this
    {
      match next
      case SkipFailed(e) => err == Some(e)
      case Skipped(effect, rest) =>
        && err.None? && r == rest && i <= j <= |decoded|
        && match effect
           case Passed(st, m) => At() == st && i == j && n' == m && |decoded| == room
           case Buffered(st, out) => At() == st && decoded[i..j] == out && n' == n && |decoded| == Larger(room, out)
           case Refused(_) => false
    }

    ghost predicate DidSkipData(effect: SkipEffect, rest: seq<Byte>, room: nat, n: nat, n': nat)
      reads this
    {
      DidSkip(match effect case Refused(e) => SkipFailed(e) case _ => Skipped(effect, rest), room, n, n')
    }

    /** A chunk of compressed data in `Skip`. */
    method SkipCompressed(chunkLen: nat, ownCrc: bool, n: nat) returns (n': nat)
      requires Valid() && err.None? && i == j
      modifies this
      ensures Valid()
      ensures chunkLen < 4 || chunkLen > old(maxBufSize) || |old(r)| < chunkLen ==> err == Some(Corrupt)
      ensures 4 <= chunkLen <= old(maxBufSize) && chunkLen <= |old(r)| ==>
                DidSkipData(SkipPacked(c, old(At()), ownCrc, old(r)[..chunkLen], n), old(r)[chunkLen..], |old(decoded)|,
                            n, n')
    {
      hide Format.DecodeBody; hide GetUvarint; hide Load32; hide All; hide MaxBufSize; hide GoodSettings; hide Step;
      n' := n;
      blockStart := blockStart + j;
      if chunkLen < 4 { err := Some(Corrupt); return; }
      if chunkLen > maxBufSize { err := Some(Corrupt); return; }
      var ok, buf := ReadFull(chunkLen, false);
      if !ok { return; }
      var checksum := Load32(buf, 0);
      var size := GetUvarint(buf, 4, 0);
      if size.None? { err := Some(Corrupt); return; }
      var dLen := size.value.0;
      if dLen > 0xffff_ffff { err := Some(Corrupt); return; }
      if dLen > maxBlock { err := Some(TooLarge); return; }
      var body := buf[size.value.1..];
      if dLen == 0 || dLen < |body| { err := Some(Corrupt); return; }
      if dLen > n {
        var dst := new Byte[dLen](_ => 0);
        var code := FastDecoder.MinLZDecode(dst, body);
        if code != 0 { err := Some(TooLarge); return; }
        decoded := dst[..] + if dLen < |decoded| then decoded[dLen..] else [];
        var toCRC := if ownCrc then body else dst[..];
        if !c.ignoreCRC && c.crc(toCRC) != checksum { err := Some(BadCrc); return; }
        assert decoded[..dLen] == dst[..];
      } else {
        n' := n - dLen;
        blockStart := blockStart + dLen;
        dLen := 0;
      }
      i, j := 0, dLen;
    }

    /** A chunk of stored data in `Skip`. */
    method SkipUncompressed(chunkLen: nat, n: nat)
      requires Valid() && err.None? && i == j && readHeader
      modifies this
      ensures Valid()
      ensures match SkipEarly(old(At()), |old(decoded)|, CHUNK_UNCOMPRESSED, chunkLen, |old(r)|)
              case Some(e) => err == Some(e)
              case None =>
                if |old(r)| < chunkLen then err == Some(Corrupt)
                else DidSkipData(SkipStored(c, old(At()), old(r)[..chunkLen], n), old(r)[chunkLen..], |old(decoded)|, n,
                                 n)
    {
      hide All; hide MaxBufSize; hide GoodSettings; hide Step; hide Load32;
      blockStart := blockStart + j;
      if chunkLen < 4 { err := Some(Corrupt); return; }
      if chunkLen > maxBufSize { err := Some(TooLarge); return; }
      var ok, buf := ReadFull(4, false);
      if !ok { return; }
      var checksum := Load32(buf, 0);
      var n2 := chunkLen - 4;
      if n2 > |decoded| && n2 > maxBlock { err := Some(Corrupt); return; }
      ok, buf := ReadFull(n2, false);
      if !ok { return; }
      assert buf == old(r)[4..chunkLen] && r == old(r)[chunkLen..];
      assert old(r)[..chunkLen][4..] == buf;
      SameSum(old(r), chunkLen);
      decoded := buf + if n2 < |decoded| then decoded[n2..] else [];
      if n2 < n {
        if c.crc(buf) != checksum { err := Some(Corrupt); return; }
      }
      i, j := 0, n2;
      assert decoded[..n2] == buf;
    }

    /** One round of the loop in `Skip`, with the buffer used up. */
    method SkipChunk(n: nat) returns (n': nat)
      requires Valid() && err.None? && i == j && n > 0
      modifies this
      ensures Valid() && DidSkip(SkipStep(c, old(At()), |old(decoded)|, old(r), n), |old(decoded)|, n, n')
    {
      hide SkipPacked; hide SkipStored; hide GetUvarint; hide Pow2; hide Load24; hide Load32; hide GoodSettings;
      hide MaxBufSize;
      n' := n;
      StepEof(c, At(), r);
      var h := ReadChunkHeader();
      if h.None? {
        if err == Some(Eof) { err := Some(UnexpectedEof); }
        return;
      }
      var chunkType, chunkLen := h.value.0, h.value.1;
      assert chunkLen <= |r| ==> old(r)[4..4 + chunkLen] == r[..chunkLen] && old(r)[4 + chunkLen..] == r[chunkLen..];
      if chunkType == CHUNK_COMPRESSED || chunkType == CHUNK_COMPRESSED_COMP_CRC {
        n' := SkipCompressed(chunkLen, chunkType == CHUNK_COMPRESSED_COMP_CRC, n);
      } else if chunkType == CHUNK_UNCOMPRESSED {
        SkipUncompressed(chunkLen, n);
      } else if chunkType == CHUNK_EOF {
        if chunkLen > 10 { err := Some(Corrupt); return; }
        ReadEof(chunkLen);
      } else if chunkType == CHUNK_STREAM_ID {
        ReadIdentifier(chunkLen);
      } else if chunkType <= MAX_NON_SKIPPABLE {
        err := Some(Unsupported);
      } else {
        Skippable(chunkType, chunkLen);
      }
    }

    /** Where `Skip` of `n` bytes should end. */
    ghost function Target(n: nat): (l: Landing)
      requires i <= j <= |decoded|
      reads this
    {
      if n <= j - i then Landed(At(), decoded[i + n..j], r) else SkipTo(c, At(), |decoded|, r, n - (j - i))
    }

    ghost predicate Reached(l: Landing)
      reads this
    {
      match l
      case Stuck(e) => err == Some(e)
      case Landed(st, out, rest) => err.None? && At() == st && i <= j <= |decoded| && decoded[i..j] == out && r == rest
    }

    /** Whether `Skip` of `n` bytes leaves only stored blocks with right checksums behind. */
    ghost predicate Sound(n: nat)
      requires i <= j
      reads this
    {
      n > j - i ==> StoredSound(c, At(), r, n - (j - i))
    }

    /** What is left where it should end is what is left now without the next `n` bytes. */
    lemma TargetIsDrop(n: nat)
      requires Valid() && err.None? && n > 0
      ensures n <= |Left().data| ==> if Sound(n) then AtByte(c, Left(), n, Target(n)) else Target(n) == Stuck(Corrupt)
      ensures n > |Left().data| && Left().end == Eof ==> Target(n) == Stuck(if Sound(n) then UnexpectedEof else Corrupt)
    {
      hide All; hide SkipTo; hide StoredSound; hide GoodSettings; hide MaxBufSize;
      var more, k := All(c, At(), r), n - (j - i);
      if k <= 0 {
        DropFirst(decoded, i, j, more.data, n);
      } else if k <= |more.data| {
        SkipIsDrop(c, At(), |decoded|, r, k);
        assert (decoded[i..j] + more.data)[n..] == more.data[k..];
      } else if more.end == Eof {
        SkipPastEnd(c, At(), |decoded|, r, k);
      }
    }

    /** The loop of `Skip`. */
    method SkipLoop(n: nat) returns (ok: bool)
      requires Valid() && err.None? && n > 0
      modifies this
      ensures Valid() && ok == err.None? && Reached(old(Target(n)))
    {
      hide GoodSettings; hide MaxBufSize; hide All; hide SkipStep; hide SkipTo;
      var left: nat := n;
      ghost var goal := Target(n);
      while left > 0
        invariant Valid() && err.None? && Target(left) == goal
        decreases |r|, j - i
      {
        if i < j {
          if j - i >= left {
            i := i + left;
            return true;
          }
          left := left - (j - i);
          i := j;
        }
        SkipToOnce(c, At(), |decoded|, r, left);
        left := SkipChunk(left);
        if err.Some? { return false; }
      }
      return true;
    }

    /**
     `Skip`, whose end is that of `SkipTo`: when there are `n` bytes left, it takes off exactly these if and
     only if all stored blocks that it leaves behind have right checksums.
     */
    method Skip(n: int) returns (ok: bool)
      requires Valid()
      modifies this
      ensures Valid()
      ensures n <= 0 || old(err).Some? ==> unchanged(this) && ok == (n >= 0 && old(err).None?)
      ensures n > 0 && old(err).None? ==> ok == err.None? && Reached(old(Target(n)))
      ensures n > 0 && old(err).None? && n <= |old(Left()).data| ==>
                if old(Sound(n)) then ok && Left() == Run(old(Left()).data[n..], old(Left()).end)
                else !ok && err == Some(Corrupt)
      ensures n > 0 && old(err).None? && n > |old(Left()).data| && old(Left()).end == Eof ==>
                !ok && err == Some(if old(Sound(n)) then UnexpectedEof else Corrupt)
    {
      hide GoodSettings; hide MaxBufSize; hide All; hide Target; hide Sound;
      if n < 0 || err.Some? { return false; }
      if n == 0 { return true; }
      TargetIsDrop(n);
      ok := SkipLoop(n);
    }
  }

  lemma SameSum(r: seq<Byte>, n: nat)
    requires 4 <= n <= |r|
    ensures Load32(r[..4], 0) == Load32(r[..n], 0)
  {
  }

  lemma DropFirst(decoded: seq<Byte>, i: nat, j: nat, more: seq<Byte>, k: nat)
    requires i + k <= j <= |decoded|
    ensures decoded[i + k..j] + more == (decoded[i..j] + more)[k..]
  {
  }
}
