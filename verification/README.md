# MinLZ in Dafny

MinLZ is a byte-oriented LZ77 compressor with a block format, a stream format and a seek index. This
project models its Go implementation and proves what the format and the documentation promise: that
decoding undoes encoding, that the fast decoder is the simple one, that concurrent writing is sequential
writing, that concurrent reading is sequential reading, and that truncated or misplaced data is noticed.
Where a promise does not hold, there is an input on which it fails, and a condition under which it holds.

Section numbers are those of the MinLZ format specification v1.0. The meaning of an LZ4 block is the
"Compressed block format" of the LZ4 Block Format Description.

## How it is built

**Blocks.** `Format` says what a block body means: `ParseOp` reads one operation, `Step` carries it out,
`Run` and `DecodeBody` do so for a whole body. Nothing else defines the format. `ReferenceDecoder` and
`FastDecoder` are the two decoders in their imperative form, both proved to compute `DecodeBody`.
`Encoding` gives the bytes of each operation and shows how they parse, `Emitters` writes the same bytes
into arrays as the Go code does, and `Emission` turns that into the invariant of every encoder, `Encoded`:
what is written decodes to what was emitted, and leaves the decoder with the encoder's repeat offset.
`EncodeL1`, `EncodeL2`, `EncodeL3` and `ReferenceEncoder` are the search loops over that invariant, with
`Matching` for the match search and `OutputBound` for the accounting that keeps writes inside their buffer.
`FarMatch` follows the matches that level 1 should not have accepted through to the decoder, and `FarInput`
and `SpaceInput` are two inputs that levels 1 and 3 do not get right, up to what their searches do with
them. `Block` adds the block header.

**LZ4.** `Lz4Format` is the meaning of an LZ4 block, `Lz4Convert` the converter to MinLZ blocks,
`Lz4Compress` and `Lz4Uncompress` the LZ4 helpers with their shortcuts and doubling copy.

**Streams.** `Stream` has the chunks. `WritePlan` says what operations the calls to a writer come down to,
`Writer` is the writer object, and `ConcurrentWriter` the state machine of its goroutines: every
interleaving of the caller, the block goroutines and the writer goroutine. `ChunkReader` says what a reader
makes of its input chunk by chunk, `ChunkKinds` what that comes to for each type of chunk, `Skipping` what
skipping makes of it, and `StreamReader` is the reader object. `ConcurrentReader` is `DecodeConcurrent` over
every interleaving, with the memory of the source buffers that its goroutines share; `ConcurrentDecode`
compares it with `Read`, `ConcurrentRuns` has two runs of it, and `OwnChecksums` the streams on which it
fails. `StreamRoundTrip`, `Seeking` and `EndOfStream` are about whole streams, `UserChunks` about the chunks
of users in them, and `WriterEncoder` shows which block encoders of this project they hold for.

**Index.** `Index` and `IndexCodec` are the seek index and its serialised form, `IndexCover` says what an index
must hold, `SeekDistance` what that means for the streams of a writer, and `IndexChecks` what loading lets
through.

`KnownBytes` has examples on the wire, with the numbers of the format specification.

## What came out false, and when exactly

- Level 1 can emit a match that a copy3 cannot hold: the probes at `s+1` and `s+2` compare with a bound
  computed for `s` (encode_l1.go:85, 153, 160). A positive result of `EncodeL1.EncodeBlock` decodes to the
  input if and only if each such match also repeats the input 2 MiB closer (`FarMatch.Harmless`). Up to
  `maxCopy3Offset + 10` bytes of input there is no such match. With one byte more there is:
  `FarInput.FarExample` comes back wrong, for every hash function that tells seven of its words from the one
  that matches too far away, as that of the source does (`FarInput.Hash6Apart`).
- Level 3 can run out of the space that `Encode` and the writer give it: a repeat of three bytes behind many
  literals costs four bytes, and the check before it does not count headers (encode_l3.go:226-278, 510).
  It cannot happen up to 1194 bytes of input in `Encode`, nor up to 1033 in the writer; it does happen on
  `SpaceInput.SpaceExample`, of 16531 bytes, for any hash functions: `EncodeL3.EncodeBlockBest`.
- `DecodeConcurrent` gives a source buffer back before the checksum of a chunk of type 0x03 is taken over it
  (reader.go:835, 845-849), and the reading goroutine may have put the next chunk there by then.
  `OwnChecksums.StreamFails` has a stream that `Read` reads to its end and a run that fails on it, for any
  number of workers from two on; lz4convert.go:413 writes such chunks. On streams without such chunks, and for
  readers that ignore checksums, every run does as `Read` does: `ConcurrentDecode.DecodesLikeRead`.
  `OwnChecksums.AgreesAlways` has both directions.
- An index does not keep an entry near every offset that was added. The reduction in `Add` drops the entry behind
  those that are too close, however far that is (index.go:172-185): `IndexCover.SparseLost`. If adds are no
  farther apart than the first estimate, as those of a writer are, the nearest entry is less than 19 final
  estimates away, for any number of adds and reductions: `IndexCover.Covered`, `SeekDistance.SearchNear`.
- Section 4.6 wants an EOF chunk for every stream identifier. The reader accepts an identifier while an EOF
  chunk is due (reader.go:500-515), so a stream that lost its EOF chunk goes unnoticed when another stream
  follows: `StreamRoundTrip.LostEofChunk`. `EndOfStream.CleanEndIsClosed` says what a clean end does guarantee.
- Section 4.1.1 allows concatenation. A writer that is closed without ever having written a header emits an
  EOF chunk with size 0 and nothing else. Behind a stream with data the reader takes that for an error,
  because an EOF chunk does not reset its position (reader.go:485, 497-499):
  `StreamRoundTrip.Concatenated` gives the exact condition.
- Of the blocks that start with 0, the two block decoders differ on those with nothing behind a size of 0, and
  on those with a size of ten bytes and more than 64 bits that the reference decoder accepts, going by nine of
  the ten: `Block.DecodersAgree`, with `Block.NothingBehindSize` and `Block.SizeOf71Bits`.
- After a block fails, `DecodeConcurrent` may still write the blocks behind it (reader.go:838-844, 911):
  `ConcurrentRuns.BehindBad`. `ConcurrentReader.OutputInOrder` gives the output in that case, too.
- `Skip` is documented not to check skipped blocks. It compares the checksum of every stored block that it passes
  over, even in a reader that ignores checksums, and does not compare that of one in which it stops
  (reader.go:1225-1230). So it fails where `Read` does not, `Skipping.SkipRefuses`, and succeeds where `Read`
  does not, `Skipping.SkipAccepts`. `Skipping.SkipIsDrop` says when skipping is reading and dropping.

## Model

| member | source | states |
|---|---|---|
| Format.CopyBackUnique | internal/reference/decoder.go:361-367 | the byte by byte copy of a match gives the only extension of the output that repeats at that offset, overlapping or not |
| Format.StepExtends | internal/reference/decoder.go:142-367 | an operation that succeeds uses up input, keeps what was decoded as a prefix, never passes the wanted size, and keeps the offset valid |
| Format.RunConcat | internal/reference/decoder.go:142-368 | decoding a body and then what follows it is decoding both together |
| Format.RunAppend | internal/reference/decoder.go:142-368 | an operation appended to a body is carried out on the state that the body leaves |
| ReferenceDecoder.AppendCopy | internal/reference/decoder.go:361-367 | the appending loop is the copy of the format, for every overlap |
| ReferenceDecoder.DecodeBodyLoop | internal/reference/decoder.go:84-372 | the reference loop, with its separate reads, length forms and size checks, returns exactly what the format says, or fails exactly when the format does |
| FastDecoder.CopyMatch | decode.go:337-358 | the built-in copy for far matches and the forward copy for near ones both give the byte by byte copy, and touch nothing before it |
| FastDecoder.MarginLiteral | decode.go:195-235 | unchecked header reads within the 11 byte margin, the checked literal copy: one step of the format or an error where the format has one |
| FastDecoder.MarginCopy | decode.go:236-358 | the unchecked copy headers and the four byte store of up to four fused literals, whose excess the copy repairs: one step of the format |
| FastDecoder.TailCopy | decode.go:431-611 | the checked tail does one step of the format or fails exactly when the format does |
| FastDecoder.MinLZDecode | decode.go:178-622 | the fast decoder returns 0 if and only if the format decodes the body to `len(dst)` bytes, and then `dst` holds them |
| Block.IsMinLZ | decode.go:120-158 | the header reader only lets bodies through that are neither empty nor longer than their size, of at most 8 MiB |
| Block.ForeignSize | decode.go:131-135 | a block that starts with its size, not 0, is left to the decoder for S2, whatever follows |
| Block.Decode | decode.go:50-78 | `Decode` returns what the block stands for, or an error exactly when it stands for nothing; blocks that do not start with 0 go to the decoder for S2 if the size they start with is at most 8 MiB, and are refused otherwise |
| Block.ReferenceDecode | internal/reference/decoder.go:26-372 | `DecodeBlock` does the same under its own reading of the header |
| Block.SizesAgree | internal/reference/decoder.go:49-66 | the shift-and-add size loop computes what `binary.Uvarint` does, up to the block size limit and sizes of more than 64 bits |
| Block.DecodersAgree | internal/reference/decoder.go:26-82 | of the blocks that start with 0, which the two decoders treat alike: all, but for nothing behind a size of 0, and sizes of more than 64 bits that the reference decoder accepts by their nine lower groups |
| Block.NothingBehindSize | internal/reference/decoder.go:49-82 | an input on which they differ |
| Block.SizeOf71Bits | internal/reference/decoder.go:49-66 | and one with an overlong size |
| Varint.UvarintReads | encode.go:81-82 | a size written by `PutUvarint` is read back from between any other bytes, for all 64 bit values |
| Varint.VarintReads | index.go:205-209 | the same for the signed values of the index |
| Encoding.ParseLengthHeader | asm_none.go:57-96 | the header written for a literal run or repeat parses to its length, in all four forms |
| Encoding.ParseCopy1Bytes | asm_none.go:231-247 | a copy1 parses to its offset and length |
| Encoding.ParseCopy2Bytes | encode.go:225-259 | a copy2 parses to its offset and length, in all four forms |
| Encoding.ParseCopy3Bytes | asm_none.go:133-169 | a copy3, fused or not, parses to its literals, its length, and its offset modulo 2 MiB |
| Encoding.Copy3OffsetKept | asm_none.go:138-142 | the offset of a copy3 survives if and only if it is at most `maxCopy3Offset` |
| Encoding.ParseFused2Bytes | asm_none.go:257-284 | a fused copy2 parses to its literals, offset and length |
| Emitters.EmitLiteral | asm_none.go:57-96 | the stores into `dst` are the literal operation, and what was there before stays |
| Emitters.EmitRepeat | asm_none.go:98-131 | the same for a repeat |
| Emitters.EncodeCopy2 | encode.go:225-259 | the same for a copy2, whose length bytes are stored before its header |
| Emitters.EncodeCopy3 | asm_none.go:133-169 | the same for a copy3; the shifted 32 bit word loses offset bits above 21 |
| Emitters.EmitCopy | asm_none.go:180-249 | the choice of copy operation for an offset and a length |
| Emitters.EmitCopyLits2 | asm_none.go:257-284 | the fused copy2, cut to 11 bytes with a repeat for the rest |
| Emitters.EmitCopyLits3 | asm_none.go:286-301 | the fused copy3 |
| Emission.AfterLiteral | encode_l1.go:199-199 | literals keep the invariant that the output so far decodes to the input so far with the encoder's repeat offset |
| Emission.AfterRepeat | encode_l1.go:136-140 | a repeat over a genuine match keeps it |
| Emission.AfterCopy | encode_l1.go:200-207 | a copy of any kind over a genuine match within `maxCopy3Offset` keeps it |
| Emission.AfterFused2 | encode_l1.go:202-202 | a fused copy2 keeps it, also when it is cut and continued as a repeat |
| Emission.AfterFused3 | encode_l1.go:204-204 | a fused copy3 keeps it |
| Emission.EncodedDecodes | encode_l1.go:270-284 | when everything is emitted, the body decodes to the input |
| OutputBound.AheadFused2 | encode_l1.go:192-203 | fused copies are not compared with the limit; the amortised bound on the output survives them |
| OutputBound.AheadFused3 | encode_l1.go:192-205 | the same for the longer fused form |
| OutputBound.RemainderFits | encode_l1.go:270-283 | what the last check leaves room for |
| Matching.ExtendWords | encode_l1.go:183-190 | word-wise extension ends at the first byte that differs, or past the limit |
| Matching.ExtendBack | encode_l1.go:171-174 | extension backwards keeps a match and never runs into emitted bytes |
| EncodeL1.Probe | encode_l1.go:85-163 | a hit at `s`, `s+1` or `s+2` is four equal bytes behind it, at most two bytes farther away than the format allows |
| EncodeL1.Search | encode_l1.go:79-167 | the search with its repeat branch keeps the round trip invariant, the output bound and the table invariant |
| EncodeL1.EncodeBlock | encode_l1.go:39-526 | both forms of level 1: no write leaves the output; a positive result decodes to the input if and only if all matches that were too far away are harmless, and always up to `maxCopy3Offset + 10` bytes; on the example it does not; a run of equal bytes takes at most 14 bytes, whatever the hash |
| FarMatch.CopyStatus | encode_l1.go:200-207 | a copy, near or too far away, keeps a body that was right up to there right if and only if the input repeats at the offset that is left of it; otherwise nothing behind it makes it right again |
| FarMatch.KeptDecodes | encode_l1.go:270-284 | at the end of the input the body decodes to it if and only if all far matches are harmless |
| FarInput.StageStep | encode_l1.go:79-167 | what the search does with the example: one repeat over the zeros, then a hit at the second probe, `maxCopy3Offset + 1` bytes away |
| FarInput.OnesSpoil | encode_l1.go:153-163 | the match found is not harmless |
| FarInput.Hash6Apart | encode_l1.go:26-29 | the hash function of the source leads the search that way |
| EncodeL2.Search | encode_l2.go:114-222 | two tables, the repeat branch and in-between indexing keep the round trip invariant; what is not emitted leaves the output alone |
| EncodeL2.Round | encode_l2.go:110-331 | one round of the outer loop; a match that is abandoned changes neither the emitted part nor the repeat offset |
| EncodeL2.EmitMatch | encode_l2.go:268-290 | every branch of the emission keeps the round trip invariant and the output bound |
| EncodeL2.EncodeBlockBetter | encode_l2.go:61-607 | both forms of level 2: no write leaves the output, and a positive result decodes to the input and leaves room for the size header; a run of equal bytes takes at most 8 bytes, whatever the hashes |
| EncodeL3.MatchAt | encode_l3.go:172-225 | what `matchAt` keeps is an equal range at an offset that can be encoded |
| EncodeL3.MatchAtRepeat | encode_l3.go:226-278 | the same for matches at the repeat offset |
| EncodeL3.BestOf | encode_l3.go:339-373 | the better of two matches is one of them |
| EncodeL3.Search | encode_l3.go:126-502 | the chosen match, found ahead of or behind the search position, is genuine; positions still to come are refused |
| EncodeL3.EmitCopyMatch | encode_l3.go:542-587 | every branch of the emission tree decodes to the match and its literals |
| EncodeL3.CopyFits | encode_l3.go:510-587 | a copy never takes the output farther ahead of the input than the slack that repeats have earned, so in a small input it fits |
| EncodeL3.EncodeBlockBest | encode_l3.go:36-626 | level 3 terminates, and a positive result decodes to the input; a write runs out of space only in a buffer of fewer than `len(src)+6` bytes for an input over the stated size, and it does so on the example; a run of equal bytes takes at most 10 bytes, whatever the hashes |
| SpaceInput.Unique | encode_l3.go:126-502 | no four bytes of the example occur twice, so whatever the hash functions the search finds nothing but repeats |
| SpaceInput.CycleNext | encode_l3.go:126-502 | from where the search stands in a cycle of the example, no position before the end of the cycle repeats |
| ReferenceEncoder.EmitMatch | internal/reference/encoder.go:174-221 | the reference decision tree keeps the invariant within the 11 byte reserve, and gives up only on literals that do not fit |
| ReferenceEncoder.EncodeBody | internal/reference/encoder.go:84-254 | a compressed body decodes to the input and is never longer than it; a run of equal bytes takes at most 6 bytes |
| Block.UncompressedDecodes | encode.go:201-209 | stored blocks decode to the input in both decoders |
| Block.CompressedDecodes | encode.go:79-115 | behind its size a body decodes, in both decoders, to what the format says it decodes to |
| Block.Encode | encode.go:66-119 | all levels: size and level errors, at most two bytes of growth, and blocks that both decoders take back to the input, but for far matches at level 1; when level 3 cannot run out of space; an input each for both failures; few bytes for a run of equal bytes |
| Block.ReferenceEncode | internal/reference/encoder.go:26-49 | `EncodeBlock` and `DecodeBlock` are inverse, for every input up to 8 MiB |
| Lz4Convert.EmitSequence | lz4convert.go:154-223 | literals and match of one LZ4 sequence, fused, repeated or plain, keep both decoders at the same output and offset |
| Lz4Convert.SequenceAdds | lz4convert.go:83-223 | a sequence, with its token and length bytes, becomes at most a quarter larger |
| Lz4Convert.ConvertBlock | lz4convert.go:40-231 | on success the LZ4 block and the MinLZ block decode to the same bytes, the output is no longer than they are, and nothing is stored past the capacity; an error says that the block is corrupt or too large only when it is, that the buffer is too small only if it has not a quarter and ten bytes more than the block, and that it is incompressible only with a body for it that is longer than what it decodes to; so in a larger buffer every good block is converted or incompressible, and one that was compressed by a fifth is converted |
| Lz4Format.DecodeGrows | internal/lz4ref/block.go:539-650 | LZ4 decoding never takes output back: what was there, and the literals of the next sequence, stay a prefix |
| Lz4Compress.Compressor.Get | internal/lz4ref/block.go:58-70 | the position returned is the only one in the 64 KiB window that agrees with the stored 16 bits; it is negative only at the start |
| Lz4Compress.Compressor.Put | internal/lz4ref/block.go:72-76 | stores one position and no other |
| Lz4Compress.SequenceReads | internal/lz4ref/block.go:192-247 | the bytes of a sequence are read back as its literals and match |
| Lz4Compress.Compressor.CompressBlock | internal/lz4ref/block.go:96-298 | a result decodes to the input, and there is one whenever the output has `CompressBlockBound` bytes; a long run of equal bytes takes one byte in 255, and 28 |
| Lz4Uncompress.RepeatsIsCopy | internal/lz4ref/block.go:641-651 | memory that repeats with the period of the offset is what byte by byte copying gives |
| Lz4Uncompress.CopyMatch | internal/lz4ref/block.go:636-651 | the doubling copy gives the byte by byte copy, and fails exactly when the match does not fit |
| Lz4Uncompress.ShortMatch | internal/lz4ref/block.go:562-577 | the 18 byte shortcut leaves the right match behind, whatever else it writes |
| Lz4Uncompress.UncompressBlock | internal/lz4ref/block.go:517-655 | returns the length of what the block decodes to, with those bytes in `dst`, whenever they fit; and no length within `dst` otherwise |
| Lz4Compress.RoundTrip | internal/lz4ref/block.go:96-655 | what `CompressBlock` produced, `UncompressBlock` takes back to the input, in a buffer of its size |
| Index.SeekIndex.Reset | index.go:55-68 | an empty index with the block size as estimate, doubled until it is at least 1 MiB and no further |
| Index.SeekIndex.ReduceLight | index.go:172-185 | compaction in place keeps what the same reduction of the old entries keeps: no slot is read after it was overwritten |
| Index.SeekIndex.Add | index.go:80-104 | the add, its error and the reduction at 65537 entries |
| Index.SeekIndex.Reduce | index.go:147-170 | the same for the other reduction |
| Index.AddKeeps | index.go:80-104 | an add keeps neighbours at least the estimate apart, at most 65536 entries, and the first entry; it is refused only when compressed offsets go back |
| Index.ReduceKeeps | index.go:147-170 | so does a reduction, which leaves fewer than 65536 entries |
| Index.RunSound | index.go:80-185 | over any sequence of adds and reductions the index stays spaced and bounded, has no entry that was not added, and never loses its first one |
| IndexCover.AddTaken | index.go:87-103 | an add that is an estimate or more behind the last entry becomes an entry |
| IndexCover.AddEnough | index.go:99-102 | the estimate is doubled only when the index is full, and then a third of the entries stays |
| IndexCover.ReduceEnough | index.go:147-170 | an index that is not full is not reduced; of a full one at least 993 entries stay, and the estimate is not raised beyond what that takes |
| IndexCover.Covered | index.go:80-185 | over any adds that go forward by no more than the first estimate, with reductions anywhere, a search for any offset finds an entry less than 19 final estimates in front of it |
| IndexCover.SparseLost | index.go:172-185 | for adds that are farther apart there is no such bound |
| SeekDistance.SearchNear | writer.go:168-173 | so it is for every offset of the data of a writer, whose index has an entry for each block |
| Index.SeekIndex.SearchAfter | index.go:129-134 | binary search finds how many entries are at or before an offset |
| Index.SeekIndex.Find | index.go:114-144 | scan and binary search return the last entry at or before the offset; each error under its exact condition |
| IndexCodec.AppendTo | index.go:187-269 | the bytes appended are those of the reduced index, with uncompressed offsets only if they cannot be guessed |
| IndexCodec.Load | index.go:273-409 | loading in two passes gives what the bytes stand for, and fails exactly when they stand for nothing, with the error of the first thing wrong with them |
| IndexCodec.PayloadRoundTrip | index.go:187-409 | optional deltas, the halving predictor and 64 bit wrap-around cancel out between writing and reading |
| IndexCodec.LoadRoundTrip | index.go:187-409 | every serialised index with increasing offsets is loaded back exactly, whatever follows it |
| IndexCodec.PayloadSize | index.go:255-269 | a serialised index never exceeds what its three byte length can say |
| IndexCodec.HeadersRoundTrip | index.go:581-636 | restoring headers undoes removing them |
| IndexChecks.LoadedSearchable | index.go:273-409 | whatever bytes are loaded, entries go forward in both offsets, and header and trailer are there |
| IndexChecks.TruncatedIndex | index.go:274-286 | every proper prefix of a serialised index is an unexpected end |
| IndexChecks.WrongFrame | index.go:274-289 | which errors a chunk that is too short, of another type, or with another header gives |
| IndexChecks.WrongTrailer | index.go:404-407 | an index with another trailer is corrupt |
| IndexChecks.LegacyLoads | index.go:277-279 | the old chunk type is loaded like the new one |
| IndexChecks.Guessed | index.go:209-224 | uncompressed offsets are left out exactly if they are the multiples of the estimate |
| ConcurrentWriter.StepKeeps | writer.go:150-180 | every step of caller, block goroutines and writer goroutine keeps the queue in order, the results with their chunks, and the ownership of every pooled buffer |
| ConcurrentWriter.OutputInOrder | writer.go:150-180 | for every interleaving the output is that of the operations in call order, up to some point, and all of it when the queue is drained; the index has one entry for each block among them, in order and true |
| ConcurrentWriter.FlushReturned | writer.go:735-755 | for every interleaving, when the caller goes on after a flush all that was issued is written |
| ConcurrentWriter.NoSharedBuffers | writer.go:492-545 | for every interleaving no pooled buffer is in use by a block goroutine, a queued result or the writer goroutine, and no two of them share one |
| ConcurrentWriter.DirectSafe | writer.go:711-732 | when `AsyncFlush` writes by itself, nothing is queued and the writer goroutine is idle |
| ConcurrentWriter.Progress | writer.go:150-180 | no interleaving gets stuck before everything is written and recycled |
| ConcurrentWriter.WorkDecreases | writer.go:150-180 | no interleaving goes on for ever |
| WritePlan.CutJoins | writer.go:477-490 | cutting into blocks loses nothing, no block is empty or too large, and all but the last are full |
| WritePlan.WriteFull | writer.go:184-215 | `Write` emits nothing while the buffer has room, and then full blocks but for the last one |
| WritePlan.PlanKeepsInput | writer.go:184-215 | over any calls, what was emitted and what is still buffered is what was passed in, in order |
| WritePlan.PlanWellFormed | writer.go:271-429 | over any calls, one header comes before everything but flushes |
| WritePlan.PlanValid | writer.go:711-732 | so a direct write only ever follows flushes |
| Writer.Writer.Write | writer.go:184-215 | the buffering loop does what the plan says, with and without goroutines |
| Writer.Writer.SyncBlock | writer.go:643-705 | a block written in one or two parts is its chunk, and the index entry points to its start |
| Writer.Writer.WriteSync | writer.go:625-707 | header, if it is missing, and the chunks of all blocks |
| Writer.Writer.EncodeBuffer | writer.go:347-429 | flushes what is buffered and adds the blocks of the buffer |
| Writer.Writer.AsyncFlush | writer.go:711-732 | writes or queues what is buffered |
| Writer.Writer.AddUserChunk | writer.go:271-335 | what is written or queued is the id, the length and the data, behind a missing header; or, for other ids and lengths, an error without effect |
| UserChunks.StreamChunks | writer.go:271-335 | the chunks from 0x80 to 0xfe that are read from a closed stream are those that its calls added, in order |
| UserChunks.ChunkInStream | writer.go:271-335 | each has its id and its data, and is behind all input before it but for less than a block that was still buffered, and for nothing after a flush |
| Writer.Writer.Close | writer.go:777-798 | flushes, and ends with an EOF chunk that has the size of all input |
| Writer.ClosedInput | writer.go:777-798 | a closed stream carries exactly what the calls passed in |
| Writer.ConcurrentIsSequential | writer.go:146-180 | for every interleaving the concurrent writer produces, byte for byte, the stream of the synchronous one |
| Writer.FlushDelivers | writer.go:735-755 | for every interleaving, after a `Flush` the output is that of all calls before it, and carries all their input |
| ChunkReader.StepAppend | reader.go:253-542 | what a chunk does depends on nothing behind it |
| ChunkReader.AllAppend | reader.go:253-542 | more input never takes data back |
| ChunkReader.Truncated | reader.go:196-204 | a truncation of an acceptable input is accepted if and only if it ends between chunks where no EOF chunk is due |
| ChunkKinds.Reserved | reader.go:530-535 | types 0x00, 0x04 to 0x1f and 0x21 to 0x3f are unsupported, or corrupt without a header |
| ChunkKinds.Skippable | reader.go:537-541 | types 0x40 to 0xbf and 0xfe are skipped, whatever is in them |
| ChunkKinds.UserOnly | reader.go:537-541 | types 0xc0 to 0xfd are not |
| ChunkKinds.StoredData | reader.go:407-462 | stored data: too large, a wrong checksum, or the data |
| ChunkKinds.CompressedData | reader.go:287-352 | types 0x02 and 0x03: too large, corrupt, a wrong checksum over the data or the body, or the data |
| ChunkKinds.DataTooEarly | reader.go:273-284 | no data without a stream identifier |
| ChunkKinds.EndOfData | reader.go:463-499 | an EOF chunk with another size than that of the data is corrupt |
| ChunkKinds.Identifier | reader.go:994-1027 | which stream identifiers are refused, how, and what the others set |
| StreamReader.Reader.Read | reader.go:248-543 | the bytes returned are the next ones of all that is left; errors come only after all data before them |
| StreamReader.Reader.ReadChunk | reader.go:259-541 | one round of the loop on the fields is one chunk of the specification, with the same errors |
| StreamReader.Reader.MinLzHeader | reader.go:994-1027 | which identifiers are accepted, and the limits they set |
| StreamReader.Reader.Skip | reader.go:1034-1302 | skipping takes exactly that many bytes off what is left if and only if every stored block passed over has a right checksum, and reports corruption otherwise; or an unexpected end, if too little is left |
| Skipping.SkipIsDrop | reader.go:1034-1302 | the same for the chunks: skipping over blocks without decoding them is reading and dropping, exactly under that condition |
| Skipping.SkipPastEnd | reader.go:1054-1065 | which error there is if the stream ends first |
| Skipping.CheckedSound | reader.go:353-460 | for a reader that checks checksums the condition always holds as far as there is data |
| Skipping.SkipRefuses | reader.go:1225-1230 | an input on which a reader that ignores checksums reads on but cannot skip |
| Skipping.SkipAccepts | reader.go:1225-1230 | and one that cannot be read but skipped into, with bytes of the bad block to follow |
| Skipping.PackedPasses | reader.go:1084-1140 | a compressed block in front of the target is passed over without being decoded, whatever its body and checksum |
| StreamReader.Reader.Reset | reader.go:179-194 | a reset reader is as good as new |
| WriterEncoder.EncodeBlock | writer.go:652-668 | what the writer's block encoder returns is one that reading takes back, always at level 2, up to `maxCopy3Offset + 10` bytes at level 1, and at level 3 whenever it returns, as it does up to 1033 bytes; on the example level 1 does not |
| StreamRoundTrip.HeaderReads | writer.go:1037-1040 | the header of every allowed block size is accepted and admits its blocks |
| KnownBytes.Body | internal/reference/decoder.go:142-368 | a body with literals, a copy and a repeat, in bytes |
| KnownBytes.Frames | writer.go:1037-1040 | a stream header, two ends and a chunk of a user, in bytes |
| KnownBytes.CompressedExample | index.go:240-252 | offsets and what was predicted for them, in bytes |
| StreamRoundTrip.DataChunkReads | writer.go:643-700 | the chunk of a block is read back as the block |
| StreamRoundTrip.RoundTrip | reader.go:248-543 | whatever calls made a stream, reading it gives all their input and a clean end; unless it has user chunks that must not be skipped, and then it stops there |
| StreamRoundTrip.Concatenated | reader.go:463-515 | when two streams in a row read as the data of both: if and only if the second has a header, or the first no data, or sizes are ignored |
| StreamRoundTrip.LostEofChunk | reader.go:500-515 | a stream without its EOF chunk in front of another one is read without an error |
| StreamRoundTrip.Truncations | reader.go:196-204 | every truncation of a stream is an error, except to nothing |
| Seeking.TrueEntryReads | reader.go:248-353 | index truth: from any entry that says how much output and input is before a chunk on, `Read` gives the rest of the data, and a clean end |
| Seeking.EntryReads | writer.go:168-173 | so it is for every entry that the goroutines of a writer pass to the index |
| Seeking.SyncEntryReads | writer.go:687-689 | and for every entry in the index of a writer without goroutines, whatever calls it has seen |
| Seeking.IndexDescribes | index.go:80-185 | so it is for the entries that survive any adds and reductions |
| Seeking.SeekTo | reader.go:1419-1436 | `Find`, repositioning and `Skip` lead a reader that has read its header to exactly the data from the wanted offset on |
| Seeking.OpenAt | reader.go:1419-1436 | and a new reader that does without the stream identifier, too |
| EndOfStream.CleanEndIsClosed | reader.go:463-515 | a clean end means that every identifier was followed by an EOF chunk, or another identifier before that, that sizes in EOF chunks were right, and that the last identifier has its EOF chunk |
| ConcurrentReader.StepKeeps | reader.go:631-658 | every step of the reading goroutine and the workers, who decode a block, give its source back, and only then check it, keeps turns, buffers, entries and contents in order |
| ConcurrentReader.OneWriter | reader.go:622-658 | for every interleaving exactly one goroutine or entry has the writer, until all is done |
| ConcurrentReader.OutputInOrder | reader.go:629-660 | for every interleaving blocks are written once and in stream order; each comes out as it should or, if its checksum is over its source, is refused or passed by chance; there is an error exactly if a block that was read was refused |
| ConcurrentReader.WorkerRoom | reader.go:613-624 | buffers and entries are conserved, so the channel that somebody is about to send to has room |
| ConcurrentReader.QueueRoom | reader.go:828-829 | and so has the queue |
| ConcurrentReader.Progress | reader.go:631-665 | no interleaving gets stuck |
| ConcurrentReader.WorkDecreases | reader.go:631-665 | no interleaving goes on for ever |
| ConcurrentDecode.ReadsJobs | reader.go:683-990 | `Read` gives the data of the blocks that the reading goroutine finds, up to the first bad one |
| ConcurrentDecode.DecodesLikeRead | reader.go:575-992 | for every interleaving, on streams without chunks that have checksums over their source or for a reader that ignores checksums, `DecodeConcurrent` succeeds if and only if `Read` comes to a clean end, and has then written the same bytes |
| ConcurrentRuns.Clobbered | reader.go:785-849 | for any number of workers from two on, a run that refuses a good block because its source was overwritten |
| ConcurrentRuns.BehindBad | reader.go:838-911 | a run that writes the block behind one that was refused |
| OwnChecksums.StreamFails | reader.go:785-849 | a stream that reads cleanly and a run of `DecodeConcurrent` that fails on it |
| OwnChecksums.StreamReads | reader.go:253-542 | that it reads cleanly |
| OwnChecksums.AgreesAlways | reader.go:575-992 | `DecodeConcurrent` does as `Read` on all streams and in all runs if and only if checksums are ignored |

## Left out

- EncodeL3.EncodeBlockBest: for inputs over the stated size, whether a write runs out of space is decided by the hash functions, too, and is not characterised further; Go then panics or cuts literals off.
- EncodeL2.EncodeBlockBetter: when an encoder gives up on an input other than a run of equal bytes is not characterised; that depends on the hash functions, which can be any functions into the tables here.
- Block.Encode: `dst` is always a new buffer of the right size; blocks of Snappy and S2 are decoded by any function.
- Seeking.SeekTo: an offset inside the current block, for which `Seek` only moves within its buffer (reader.go:1415-1418).
- StreamReader.Reader.Read: fallback to Snappy and S2 is off and there are no callbacks for user chunks.
- Writer.Writer.Close: padding and the appended index are not part of what `Close` writes here; both are skippable chunks behind the EOF chunk.
- Writer.Writer.Write: write errors, `flushOnWrite` and the short count returned after an error.
- ConcurrentWriter.OutputInOrder: the buffers are those of one pool, written to and looked up as values; a write error stops neither side here.
- ConcurrentReader.OutputInOrder: reading a chunk into a source buffer is one step, so is computing a checksum; write errors, and buffers that a failing read keeps.
- ConcurrentDecode.DecodesLikeRead: one goroutine, where the source uses `Read` itself.
- IndexCodec.AppendTo: the estimate times the number of removed entries is not cut to 64 bits; offsets and predictions are.
- Lz4Uncompress.UncompressBlock: length sums are not cut to the width of an `int`, and a slice out of range is the error that the source recovers to.
- Words are byte sequences, lowest first; shifts and `bits.TrailingZeros64` of differences are positions in them. Combining fields with `|` is addition of fields that do not overlap.
- The forms of level 1 and level 2 for inputs up to and over 64 KiB are one method with a flag each; so are their table sizes.
- Hash tables are freshly zeroed, the pools of `sync.Pool` a set of buffers, the bitmap of `Compressor` an array of flags.
- The checksum is any function into 32 bits.
- `ReadFrom` does what `EncodeBuffer` does to the blocks it reads; `AppendDecoded`, `AppendEncoded` and `TryEncode` add only buffer handling.
- Assembly, dictionaries, `IndexStream`, `LoadStream`, `JSON`, `ConvertStream`, `CompressBlockLZ4s`, `ReadSeeker`, internal/reference/stream.go and the command line program.
