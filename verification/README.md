# bzip2 and the zlib checksums, modelled and proved in Dafny

This project models the bzip2 1.0.5 codec (`dep/bzip2`) and the two checksums of zlib
(`dep/zlib/crc32.c`, `dep/zlib/adler32.c`).

**Compressor.** The run-length stage with its block checksum (`InputStage`, `RunLength`, `BlockCrc`), the two rotation
sorts (`Main*`, `Scan*`, `Slopes` and `Fallback*`, `Doubling`, `RadixSort`, `HeaderBits`), move-to-front with zero runs
over shared memory (`MtfEncode`), length-limited Huffman codes (`HuffmanLengths`, `CodeHeap`, `CodeTree`, `TableChoice`,
`Canonical`), the bit writer (`BitIO`) and the stream machine behind `BZ2_bzCompress` (`Compressor`).

**Decompressor.** An abstract machine that reads one bit field per step (`Decoder`), the class that carries out each of
its steps in place (`Decompressor`, `SymbolStage`, `SlidingMtf`), the two inversions (`Unsort`), the two output loops
(`OutputStage`) and the machine behind `BZ2_bzDecompress`, which may stop at any field for lack of input and at any byte
for lack of room (`DecompressStream`).

**Between them.** Each stage has a plain specification: sorted rotations (`Rotations`), a move-to-front list (`Mtf`), a
canonical prefix code (`Canonical`), a sequence of bits (`Bits`, `BlockFormat`, `TableFormat`, `SymbolFormat`,
`BlockEncoding`, `StreamFormat`). The compressor's side produces it, the decompressor's side undoes it, and `RoundTrip`
puts the two together over every schedule of calls and every size of buffer, and `BuffToBuff` in single calls. `RunDigits`
and `RunOverflow` say which streams take the decoder's counters beyond 32 bits.

**From outside.** What the two sides share is fixed once more without either. `AcceptedFields` to `AcceptedStreams` write
out the layout of a stream and prove that the decompressor takes these and no others. `Polynomials` and `CrcLaws` say
what the two CRCs are, with the polynomial and known values. `LeastCost` and `TreeCost` show that no code costs less than
those built. `StreamBytes` and `StreamSize` give the bytes at both ends of a stream and a bound on its length.

Code that changes state is modelled by classes and loops over arrays, each proved against a function of the values it
started from. Words are natural numbers with their wrap-around and range written out, or `bv32` where bits are what
matters.

Each `AssertH` on the paths modelled holds, by an assertion in its place or by the contract around it: 1001 to 1007,
2001, 2002 and 3001 to 3007. 4001, 4002 and 6001 guard states that the machines do not have.

`dafny verify dfyconfig.toml` verifies everything.

## Model

| member | source | states |
|---|---|---|
| RoundTrip.CodecRoundTrip | dep/bzip2/bzlib.c:340-441 | Whole codec: take any compressor that has reached BZ_STREAM_END and any decompressor that has consumed exactly the bytes emitted, both after any sequence of legal calls with any buffer sizes. What the decompressor has delivered, followed by what is still to come, is the compressor's whole input, and the stream ends with BZ_STREAM_END: every block checksum and the combined one agree. Levels 1-9, FAST or SMALL, any work factor. |
| RoundTrip.StreamRoundTrip | dep/bzip2/compress.c:579-640 | The bytes emitted up to BZ_STREAM_END decode, as one bit string and checksums included, to exactly the input taken in, however it was cut into RUN, FLUSH and FINISH calls. |
| RoundTrip.DeliveredIsPrefix | dep/bzip2/bzlib.c:770-820 | A decompressor that has so far been fed any prefix of such a stream has delivered a prefix of the input, and the bytes it has consumed decode to no error. |
| RoundTrip.FlushRoundTrip | dep/bzip2/bzlib.c:419-428 | Whenever a compressor is taking input, as it is when a flush has returned BZ_RUN_OK: fewer than 32 bits are still held in the bit buffer, and the bytes emitted followed by those bits decode to all bytes of the blocks sent, with more to come. |
| RoundTrip.NeverEarly | dep/bzip2/bzlib.c:316-338 | Between calls, as long as not every byte has been delivered, the bytes the caller has decode to no end and to no error: every proper part of a stream asks for more. |
| StreamBytes.FinishedBytes | dep/bzip2/compress.c:579-640 | The bytes of every finished stream, written out: 0x42 0x5a 0x68 and 0x30 + level; then 31 41 59 26 53 59, or, if nothing was taken in, 17 72 45 38 50 90 and four zeros and nothing else; and last 17 72 45 38 50 90, the combined checksum and fewer than 8 zero bits. |
| StreamSize.StreamLength | dep/bzip2/compress.c:579-640 | The bytes of a stream, delivered or not, take at most 26 bits for each byte taken in, 60900 for each block sent before it was full, and 119. |
| RoundTrip.FullBlockHasPendingRun | dep/bzip2/bzlib.c:275-382 | In every state between calls, a block waiting for output that is not the last one leaves a non-empty pending run, a full block during a flush included; the only exception is a flush whose input has all been taken. So the step that writes the last block and the trailer always comes, and the input taken is that of the blocks sent and this run. |
| StreamFormat.StreamDecodes | dep/bzip2/decompress.c:101-605 | Any sequence of blocks a compressor may send, with header, trailer and any padding after it, decodes to the concatenation of the bytes the blocks stand for, ending in BZ_STREAM_END. |
| StreamFormat.DecodeConcat | dep/bzip2/decompress.c:39-61 | Decoding a + b is decoding a and going on with b from the state that leaves, for all bit strings, valid or not, and from every state. This is why chunking the input cannot matter. |
| StreamFormat.BlocksDecode | dep/bzip2/bzlib.c:779-815 | From any block boundary and whatever bits follow: the remaining blocks decode to their bytes, and decoding goes on behind them with the combined checksum carried along. |
| StreamFormat.OpenDecodes | dep/bzip2/decompress.c:101-192 | A stream without its trailer decodes to the bytes of its blocks, and asks for the next block mark. |
| StreamFormat.ColumnOfSymbols | dep/bzip2/decompress.c:366-469 | The symbols generateMTFValues writes for a column are decoded to that column, for every column and every map that covers it. |
| BlockEncoding.ReadsBlock | dep/bzip2/decompress.c:193-469 | Every block a compressor may send is parsed back field by field, from the block mark to the end mark, to the same checksum, original row and column, whatever bits follow. |
| BuffToBuff.FinishStream | dep/bzip2/bzlib.c:770-820 | A decompressor in any state between calls that has consumed any part of a finished stream, given all the rest of it and room for the rest of the text, returns BZ_STREAM_END from one call, and what it has delivered is exactly the compressor's input. |
| BuffToBuff.Compress | dep/bzip2/bzlib.c:1194-1242 | BZ2_bzBuffToBuffCompress for every source, room and parameter. BZ_OK: the result fits and decodes to the source; it is certain with room for 4 bytes for each of the source and 8000 more. BZ_OUTBUFF_FULL: the room is used up, by a proper part of a stream. With an empty source and no room, and only then, it returns BZ_SEQUENCE_ERROR. |
| BuffToBuff.Decompress | dep/bzip2/bzlib.c:1245-1294 | BZ2_bzBuffToBuffDecompress for every source, valid or not. BZ_OK if and only if the source decodes to an ended stream that fits, whose text is then the result; BZ_UNEXPECTED_EOF if and only if it asks for more and leaves room; an error only if the decoding has that error, and always if the text before it leaves room. |
| BuffToBuff.ThereAndBack | dep/bzip2/bzlib.c:1194-1294 | What the one packs, the other unpacks to the source, FAST or SMALL, given no more room than the source takes. |
| Compressor.EState.Compress | dep/bzip2/bzlib.c:384-441 | BZ2_bzCompress from every reachable state: the whole table of modes and actions. Each cell has its return code, the mode it leaves and what has moved: BZ_RUN gives BZ_RUN_OK exactly if input or output moved, else BZ_PARAM_ERROR, and leaves no input or no room; a flush and a finish are done exactly if nothing is owing, and otherwise the room is used up with bytes still to deliver; a finish in which nothing moves is BZ_SEQUENCE_ERROR; an action that does not suit the mode, or an input that is not what was announced, is refused and moves nothing. Input is consumed and output produced only at the front and the back, and no block is sent before it is full, except one by a flush or finish. |
| Compressor.EState.HandleCompress | dep/bzip2/bzlib.c:340-382 | The loop terminates; it stops only when there is no room left, no input left, or the flush or finish is done; and it reports progress exactly when input or output moved. |
| Compressor.EState.SendBlock | dep/bzip2/compress.c:579-640 | BZ2_compressBlock: the bits written are the encoding of the block's bytes; header and trailer are written once each; the sort leaves the block as it was; and what lies in zbits fits behind the block in arr2. |
| Compressor.EState.CopyInput | dep/bzip2/bzlib.c:275-313 | copy_input_until_stop: takes a prefix of the input into the block and its pending run, and stops only when the block is full, the input is empty or the flush or finish is used up. |
| Compressor.EState.CopyOutput | dep/bzip2/bzlib.c:316-338 | copy_output_until_stop: delivers the next bytes of zbits, as many as there are and as there is room for. |
| Compressor.EState.WriteTrailer | dep/bzip2/compress.c:630-639 | The end mark, the combined checksum and the padding complete the stream. |
| BlockRoom.BlockFits | dep/bzip2/compress.c:595 | Every block of n bytes, with the stream header, the trailer and the bits left over, takes at most 4 * (100000 * level + 34) - n bytes, the room behind it in arr2. |
| CompressBlock.WriteBlock | dep/bzip2/compress.c:606-628 | A sorted non-empty block is written as mark, checksum, zero bit, original row and payload, and that encoding holds exactly the bytes of the block's runs. |
| InputStage.RunStage.AddChar | dep/bzip2/bzlib.c:248-272 | ADD_CHAR_TO_BLOCK, fast track and general case: the bytes taken in grow by exactly the new one; the block, the map of used bytes and the checksum stay those of its runs; at most 5 bytes are added. |
| InputStage.RunStage.AddPair | dep/bzip2/bzlib.c:205-237 | add_pair_to_block: the pending run is coded into the block, its bytes are marked as used and enter the checksum; nothing else changes. |
| InputStage.RunStage.FlushRL | dep/bzip2/bzlib.c:240-245 | After flush_RL everything taken in is in the block, and no run is pending. |
| InputStage.RunStage.PrepareNewBlock | dep/bzip2/bzlib.c:110-120 | A pending run is carried over into the new block: neither lost nor doubled. |
| RunLength.ExpandCoded | dep/bzip2/bzlib.c:561-651 | The output loop turns the coded runs of a block back into exactly the bytes they stand for, whatever two bytes are read behind the block, and whether or not a count equals the byte of its run. |
| OutputStage.FastOutput.Drain | dep/bzip2/bzlib.c:561-651 | One call of the FAST loop, for any block and any room: exactly what is delivered, what is left, when it reports corruption and when the block is finished; and the checksum register follows the bytes. |
| OutputStage.SmallOutput.Drain | dep/bzip2/bzlib.c:672-767 | The same for SMALL, which delivers what it found before the corruption. |
| OutputStage.FastDependsOnRoom | dep/bzip2/bzlib.c:602-604 | On a broken block FAST's output depends on the room: 101 equal bytes without a count give nothing with room for 200, and 100 bytes when drained through room for 100, then corruption; SMALL gives all 101. |
| StreamFormat.BrokenBlock | dep/bzip2/bzlib.c:561-651 | Such a block exists: the column of four bytes 97, with any of its rows, stands for 101 bytes 97 and ends without a count. |
| DecompressStream.DState.Decompress | dep/bzip2/bzlib.c:770-820 | BZ2_bzDecompress from every reachable state, any input, any room: the input consumed decodes to the output delivered followed by what the state still holds. BZ_STREAM_END: the total is exactly what was delivered. BZ_OK: the output is full with output or an error still to come, or the input is used up and all output that it decides has been delivered. A refusal: the reference decoding ends in the same error, and all its bytes were delivered if and only if the decoder is SMALL or the block was not broken. |
| DecompressStream.DState.FinishBlock | dep/bzip2/bzlib.c:781-802 | A block ends with its checksum compared and folded into the combined one, or the call returns for lack of room or with the error. |
| Decompressor.BlockParser.Advance | dep/bzip2/decompress.c:101-544 | Every step of BZ2_decompress on the arrays of DState does what the step of the abstract machine does, suspension points included; a parsed block is ready for delivery of exactly its text. |
| Decompressor.BlockParser.Deliver | dep/bzip2/decompress.c:471-544 | Both inversions set up the output stage for the text of the block; the row is checked first; the entries of cftab stay within 0..nblock, as the code demands. |
| AcceptedStreams.StreamAccepted | dep/bzip2/decompress.c:190-605 | For every byte string: BZ_STREAM_END if and only if it is written as a stream, that is "BZh" and a digit 1 to 9, blocks in a written-out layout each under the checksum of its own bytes, the end mark and the combined checksum. Blocks with the randomised bit, and selectors beyond 18002, aside. |
| AcceptedStreams.WrittenDecodes | dep/bzip2/decompress.c:190-605 | And such a stream decodes to the bytes of its blocks, whatever follows. |
| AcceptedBlocks.BlockAccepted | dep/bzip2/decompress.c:216-542 | For every bit string at a block's start: a block is delivered if and only if the bits begin with a legal layout: mark, 32-bit checksum, a zero, the 24-bit row up to 10 + 100000 * level, 16 flags and 16 bits for each flagged group with some byte in use, 2 to 6 tables, 1 to 18002 selectors below their number, tables whose walks of 10, 11 and 0 keep within 1..20, and code words up to an end mark with every run and position finding room and the row inside the block. |
| AcceptedBlocks.LayoutIsRead | dep/bzip2/decompress.c:216-542 | A legal layout is parsed to its checksum, row and column, whatever bits follow: any map flags, selectors and walks, not only those a compressor chooses. |
| AcceptedBlocks.LayoutOf | dep/bzip2/decompress.c:216-542 | And what is parsed is a legal layout: no check on the way can be missing. |
| AcceptedStreams.HeaderExactly | dep/bzip2/decompress.c:191-203 | For every byte string: BZ_DATA_ERROR_MAGIC if and only if one of the first four bytes, as far as they are there, is not 0x42, 0x5a, 0x68 and one of 0x31 to 0x39; it never occurs later. |
| AcceptedStreams.MarkRefused | dep/bzip2/decompress.c:216-229 | At every boundary of a block, 48 bits that are neither 31 41 59 26 53 59 nor 17 72 45 38 50 90 give BZ_DATA_ERROR. |
| AcceptedStreams.FirstMarkRefused | dep/bzip2/decompress.c:216-229 | So do such six bytes behind a good header. |
| RunOverflow.BlockOverflows | dep/bzip2/decompress.c:372-402 | For every block header and every symbol sequence: the machine stops with RunOverflow if and only if some symbol that the code reads, each earlier one having found room in the block, comes after a run of exactly 30 digits and is a 31st digit, or ends the run and takes the count of its byte past 2^31 - 1. |
| RunOverflow.OverflowOnBits | dep/bzip2/decompress.c:63-402 | The same for every bit string behind a block header, of the symbols that GET_MTF_VAL reads from it. |
| RunOverflow.EarlierRunsShort | dep/bzip2/decompress.c:383-402 | Every run that was accepted has at most 19 digits, so that only the last run read can be the one that overflows. |
| RunOverflow.RefusedBefore | dep/bzip2/decompress.c:383-402 | A longer run behind a refused one does not overflow: 25 RUNA, symbol 2, then 31 RUNA. |
| RunOverflow.StrayOverflows | dep/bzip2/decompress.c:373-381 | 32 RUNA at the start of a block do. |
| RunDigits.FlushExactly | dep/bzip2/decompress.c:383-385 | The end of a run of at most 30 digits fits if and only if the count of its byte stays below 2^31. |
| RunDigits.WrappedIsRun | dep/bzip2/decompress.c:373-381 | The digit loop on wrapping 32-bit words computes the run's length and weight modulo 2^32 for every digit sequence, and exactly for up to 30 digits. |
| RunDigits.CodedRunsShort | dep/bzip2/compress.c:132-150 | Every run of a block has at most 19 digits, far from the limit. |
| SymbolFormat.StaysInRange | dep/bzip2/decompress.c:373-385 | No symbol of any block a compressor may send overflows: the exclusion never touches the round trip. |
| RunDigits.StrayRun | dep/bzip2/decompress.c:373-381 | 32 digits RUNA stand for a run of 2^32 - 1, leave the wrapping loop with es = -2 and N = 0, and the 31st already leaves 32 bits. |
| RunDigits.StrayBlock | dep/bzip2/decompress.c:373-542 | On wrapping words the block with used bytes a and b and symbols 32 RUNA, 2, 2, end mark passes every check and FAST delivers "ab". |
| BlockFormat.SelectorsOverrunExactly | dep/bzip2/decompress.c:283-292 | For every bit string where the number of selectors is read: the store leaves the arrays if and only if the announced number exceeds 18002 and 18003 well-formed selectors come first. |
| BlockFormat.SelectorsFitExactly | dep/bzip2/decompress.c:283-309 | Complete, well-formed selectors are read to the end if and only if there are at most 18002; from 18003 on the machine stops at the store behind the arrays. |
| BlockFormat.OverrunHeader | dep/bzip2/decompress.c:283-289 | A header the code accepts and that overruns: 18003 selectors, all zero. |
| BlockFormat.UndoMtfSelectors | dep/bzip2/decompress.c:294-309 | Decoding the selectors undoes their move-to-front coding. |
| TableFormat.ReadsTable | dep/bzip2/decompress.c:311-341 | The delta-coded lengths of one table are read back, and the decoding tables built are those of the lengths. |
| SymbolFormat.ReadsSymbols | dep/bzip2/decompress.c:63-98 | The symbols in groups of 50, each in the code of its selector, are read back one by one: GET_MTF_VAL stops after exactly the length of each code. |
| Decoder.LookedUpInTable | dep/bzip2/decompress.c:63-98 | For every table a stream can define, an accepted code is looked up below the size of the alphabet: GET_MTF_VAL never reads an entry of perm that this table has not set. |
| SlidingMtf.SlidingList.Take | dep/bzip2/decompress.c:406-457 | The 16 by 16 sliding structure is a move-to-front list: it delivers entry nn of the plain list and moves it to the front, near and far case, rebuild included, with all segments disjoint inside 0..4095. |
| SlidingMtf.SlidingList.Rebuild | dep/bzip2/decompress.c:446-455 | The in-place rebuild when base 0 is reached keeps the list. |
| SymbolStage.BlockBuilder.FlushRun | dep/bzip2/decompress.c:383-401 | Writing out a run: the column grows by the run or the block is refused at nblockMAX, and unzftab stays the counts of the column. |
| SymbolStage.BlockBuilder.Position | dep/bzip2/decompress.c:403-468 | A position symbol: moves to the front, and appends one byte to the column. |
| Unsort.MakeCftab | dep/bzip2/decompress.c:477-486 | With the true counts, cftab[c] is the number of bytes below c, so no entry leaves 0..nblock. |
| Unsort.LinkFast | dep/bzip2/decompress.c:526-531 | The tt loop stores the inverse of the column's rank permutation above the bytes. |
| Unsort.ReverseCycle | dep/bzip2/decompress.c:505-514 | Pointer reversal terminates for every column and every row, even one from no transform, and inverts the permutation on that row's cycle. |
| Unsort.RankEntries | dep/bzip2/decompress.c:494-503 | The T vector in 16 + 4 bit entries loses nothing: entry i is the rank of byte i. |
| Unsort.IndexIntoF | dep/bzip2/bzlib.c:654-666 | The binary search finds the byte whose bucket holds the index. |
| Unsort.FastBlock.Get | dep/bzip2/bzlib_private.h:444-449 | BZ_GET_FAST delivers the byte at the cursor and moves along the inverse permutation; on a parsed block its corruption test does not fire. |
| Unsort.SmallBlock.Get | dep/bzip2/bzlib_private.h:475-480 | BZ_GET_SMALL does the same by bucket search and reversed entries. |
| Unsort.SameBytes | dep/bzip2/decompress.c:494-542 | FAST and SMALL, prepared from the same column and row, deliver the same bytes for as long as one likes. |
| BitIO.BitWriter.Write | dep/bzip2/compress.c:53-72 | bsNEEDW and bsW: the bits written so far grow by exactly the n bits of v, n up to 25; the 32-bit buffer never loses one, and bytes already in zbits stay. |
| BitIO.BitWriter.Finish | dep/bzip2/compress.c:40-50 | bsFinishWrite: the bytes are the bits written, padded with fewer than 8 zeros. |
| BitIO.BitReader.GetBits | dep/bzip2/decompress.c:39-61 | NEED_BITS delivers the next n bits, n up to 24, or takes in all input and suspends with every bit kept: the bits still to come are never changed. |
| BlockSort.SortBlock | dep/bzip2/blocksort.c:1011-1068 | BZ2_blockSort for every block, length and work factor: the pointers are a permutation that sorts the rotations, origPtr is the place of rotation 0, assertion 1003 holds, and the block is restored. |
| BlockSort.SortPointers | dep/bzip2/blocksort.c:1021-1057 | Whichever sort runs, short block, main sort or fallback after the budget ran out, the result is sorted rotations. |
| MainSort.Sort | dep/bzip2/blocksort.c:733-992 | If the budget is not exhausted, ptr is a permutation in non-decreasing rotation order, small buckets filled only by the scans included; the block is unchanged. |
| MainSort.OneBigBucket | dep/bzip2/blocksort.c:851-987 | One round keeps the invariant: finished buckets are sorted, the table marks exactly them, quadrants stay truthful; assertion 1006 holds. |
| MainScan.Scan | dep/bzip2/blocksort.c:900-926 | The two pointer scans put every bucket [c, ss] in order, [ss, ss] included, touch nothing else, and end as assertion 1007 says. |
| MainScan.ScansEnd | dep/bzip2/blocksort.c:919-926 | The scans meet, or the block is one byte repeated: assertion 1007 with its rare case. |
| ScanResult.PlacedFound | dep/bzip2/blocksort.c:905-916 | Every rotation of [c, ss] whose next rotation falls or rises has been placed by the left or right scan. |
| MainQSort3.QSort3 | dep/bzip2/blocksort.c:605-701 | mainQSort3 permutes only its segment and, budget permitting, leaves it in rotation order; the stack stays below 100 entries (assertion 1001) and the loop terminates. |
| MainCompare.GtU | dep/bzip2/blocksort.c:336-459 | mainGtU true means rotation i1 >= i2, false means <=, given the quadrant invariant, for arguments up to 15 past the block; no index read reaches nblock + 34. |
| MainCompare.SimpleSort | dep/bzip2/blocksort.c:473-546 | The shell sort puts a segment in rotation order, or leaves a permutation of it with the budget gone. |
| MainQuadrants.UpdateQuadrants | dep/bzip2/blocksort.c:971-986 | The quadrant invariant survives the update after a finished bucket, the 34 mirrored entries included; assertion 1002 holds. |
| MainQuadrants.Shifts | dep/bzip2/blocksort.c:976 | The least shift that makes the bucket size fit. |
| MainOrder.RunningOrder | dep/bzip2/blocksort.c:815-843 | The running order is a permutation of the 256 big buckets by size. |
| MainRadix.Totals | dep/bzip2/blocksort.c:752-786 | The running totals: entry s is the end of small bucket s. |
| MainRadix.Place | dep/bzip2/blocksort.c:788-813 | Filling from the end puts every rotation into the bucket of its first two bytes, and turns the totals into bucket starts. |
| MainRadix.Overshoot | dep/bzip2/blocksort.c:777-781 | The first 34 bytes are repeated after the block. |
| FallbackSort.Sort | dep/bzip2/blocksort.c:204-320 | fallbackSort for every block: fmap in full rotation order, and the destroyed block restored exactly. |
| FallbackSort.Pass | dep/bzip2/blocksort.c:265-297 | One doubling pass keeps the invariant: fmap is sorted by the first 2H bytes of the buckets done, header bits exactly at bucket starts; nothing left to do means every bucket is a singleton. |
| FallbackSort.Reconstruct | dep/bzip2/blocksort.c:306-319 | The last loop restores the block from the sorted rotations and the counts; assertion 1005 holds. |
| FallbackStack.QSort3 | dep/bzip2/blocksort.c:87-174 | fallbackQSort3 permutes only fmap[lo..hi] and leaves it ordered by eclass; with the larger part pushed first the stack never holds more than 100 entries (assertion 1004). |
| FallbackQSort.SimpleSort | dep/bzip2/blocksort.c:30-57 | fallbackSimpleSort orders its segment by eclass and permutes nothing else. |
| FallbackQSort.Partition | dep/bzip2/blocksort.c:113-164 | The three-way partition by a class that occurs: less, equal, greater, with the equal part not empty. |
| HeaderBits.Scan | dep/bzip2/blocksort.c:268-281 | The scan by bits, words and bits again stops at the first differing bit, as a scan by bits would; the sentinels stop it at most 33 positions past the block. |
| RadixSort.SetSentinels | dep/bzip2/blocksort.c:246-250 | The alternating bits after the block. |
| Rotations.LastColumnUnique | dep/bzip2/compress.c:152-158 | Any two permutations that sort the rotations give the same rows and last column, equal rotations or not. |
| Rotations.Inversion | dep/bzip2/decompress.c:525-542 | For every non-empty block and every sorting permutation: walking the inverse from the row of rotation 0 reproduces the block. |
| MtfEncode.GenerateMtfValues | dep/bzip2/compress.c:109-219 | The symbols written are those of the move-to-front and run coding of the last column, at most nblock + 1 of them, with mtfFreq their counts; each is written over pointers already read, although both share arr1. |
| MtfEncode.MakeMaps | dep/bzip2/compress.c:96-106 | makeMaps_e: each used byte gets its place among the used bytes. |
| MtfEncode.SlideToFront | dep/bzip2/compress.c:179-198 | The inner loop finds the byte in the list while sliding the list over its place. |
| MtfEncode.SharedWords.PutHalf | dep/bzip2/bzlib_private.h:210-218 | A half word written through mtfv touches one word of arr1 and keeps the other half. |
| Mtf.TakeBody | dep/bzip2/decompress.c:366-469 | Decoding undoes run and move-to-front coding for every column, from every list and every pending run. |
| HuffmanLengths.MakeCodeLengths | dep/bzip2/huffman.c:60-144 | For 2 to 258 symbols the loop terminates, the lengths lie in 1..maxLen, their Kraft sum is exactly 1, and they are the best: no lengths that meet Kraft's inequality have a smaller sum of weight times length. The weights are the frequencies, but at least 1, and 1 + w / 2 of those before for each round whose best code found had a length above maxLen; frequencies that add up to less than Fib(maxLen + 3), 6765 for 17, are never scaled. It holds for every maxLen with Fib(maxLen + 3) > 2 * alphaSize; the frequencies may add up to anything below 2^23. |
| HuffmanLengths.BuildTree | dep/bzip2/huffman.c:79-106 | One tree: heap order, packed depth and weight, no carry from the depth into the weight; a full binary tree, balanced enough for the depth bound. |
| HuffmanLengths.ReadDepths | dep/bzip2/huffman.c:110-117 | Each leaf's length is its depth, and tooLong exactly when one exceeds the limit. |
| TreeCost.DepthsCheapest | dep/bzip2/huffman.c:79-117 | In a forest grown by merging the two lightest roots, the depths of the leaves cost the least of all lengths that meet Kraft's inequality. |
| LeastCost.Merged | dep/bzip2/huffman.c:86-101 | The step behind it, for any weights: whatever lengths are given, there are lengths with the two lightest merged that cost less by the weight merged. |
| CodeTree.DepthNeedsWeight | dep/bzip2/huffman.c:79-106 | A leaf at depth k needs a total scaled weight of at least Fib(k + 2). |
| Canonical.AssignCodes | dep/bzip2/huffman.c:147-161 | Each symbol's code is the canonical one of its length. |
| Canonical.PrefixFree | dep/bzip2/huffman.c:147-161 | No assigned code is a prefix of another, for any lengths that meet Kraft's inequality. |
| Canonical.CreateDecodeTables | dep/bzip2/huffman.c:164-194 | limit, base and perm decode every code: limit is the last code of each length, base turns a code into a rank, perm lists the symbols by rank; for lengths from any stream. |
| Canonical.IndexBelow | dep/bzip2/huffman.c:164-194 | limit - base is below the size of the alphabet at every length, for lengths from any stream. |
| SendBits.SendMtfValues | dep/bzip2/compress.c:225-576 | What is written is the map, selectors, tables and symbols of an encoding with 2 to 6 prefix codes of lengths 1..17, as many as the number of symbols asks for, one selector for each 50 symbols; each code is the best for the symbols that are coded with it, as MakeCodeLengths finds it; assertions 3001 to 3007 hold. |
| SendBits.CodeSelectors | dep/bzip2/compress.c:441-458 | The selectors' move-to-front coding. |
| TableChoice.ChooseTables | dep/bzip2/compress.c:330-417 | Every group of 50 gets the first of the tables that code it most cheaply; rfreq ends up as how often each table then codes each symbol; at most 18001 selectors. |
| TableChoice.PackedCosts | dep/bzip2/compress.c:342-369 | The packed costs of a full group equal the slow ones, no half carrying into the next. |
| BlockCrc.TableStep | dep/bzip2/bzlib_private.h:167-172 | BZ_UPDATE_CRC is eight steps of bitwise division, most significant bit first. |
| CrcLaws.BlockChecksum | dep/bzip2/bzlib_private.h:155-172 | For every byte string, with the constants written out: the message polynomial, its first 32 coefficients complemented, times x^32, is a multiple of x^32 + x^26 + x^23 + x^22 + x^16 + x^12 + x^11 + x^10 + x^8 + x^7 + x^5 + x^4 + x^2 + x + 1 plus the complement of the checksum. |
| CrcLaws.KnownBlockChecksums | dep/bzip2/crctable.c:29-32 | Entry 1 of the table is 0x04c11db7; the checksums of no bytes, "a" and "123456789" are 0, 0x19939b6b and 0xfc891918. |
| CrcLaws.CombinedBits | dep/bzip2/compress.c:583-584 | The combined checksum bit by bit: one place up, the top bit coming in at the bottom, and the block's checksum added. |
| Polynomials.Division | dep/bzip2/crctable.c:21-26 | Long division over GF(2): message times x^32 plus start is quotient times generator plus remainder. |
| Polynomials.Unique | dep/bzip2/crctable.c:21-26 | And there is one such quotient and remainder only. |
| ZlibCrc32.CombineParts | dep/zlib/crc32.c:370-422 | crc32_combine of the checksums of two byte strings is the checksum of their concatenation, for all strings. |
| ZlibCrc32.Crc32Combine | dep/zlib/crc32.c:370-422 | The repeated squaring applies exactly 8 * len2 zero bits to the first checksum, for every length that is not negative. |
| ZlibCrc32.LengthRunsOut | dep/zlib/crc32.c:395-417 | The loop comes to an end if and only if the length is not negative. |
| ZlibCrc32.Crc32Little | dep/zlib/crc32.c:262-293 | Four bytes at a time, at any alignment and length, equals the bitwise definition (section 8 of RFC 1952). |
| ZlibCrc32.Crc32Bytes | dep/zlib/crc32.c:215-251 | Byte at a time equals the bitwise definition. |
| ZlibCrc32.MakeTable | dep/zlib/crc32.c:106-146 | Table k, entry n is the register n after 8 * (k + 1) zero bits. |
| CrcLaws.ZlibChecksum | dep/zlib/crc32.c:215-251 | The same law for crc32, every byte's lowest bit first, both complements included. |
| CrcLaws.KnownChecksums | dep/zlib/crc32.c:215-251 | The checksums of no bytes, of one zero byte and of "123456789" are 0, 0xd202ef8d and 0xcbf43926. |
| CrcLaws.Residue | dep/zlib/crc32.c:215-293 | Any message followed by its own checksum, low byte first, has the checksum 0x2144df1c. |
| ZlibAdler32.Adler32 | dep/zlib/adler32.c:57-125 | On all three length paths both halves are the sums of section 2.2 of RFC 1950 modulo 65521, and they are reduced exactly unless the one-byte path overruns, which the condition states on the input alone. |
| ZlibAdler32.RunIs | dep/zlib/adler32.c:19-23 | The two sums in closed form: the sum of all bytes, and each byte as often as there are bytes from it to the end. |
| ZlibAdler32.KnownChecksum | dep/zlib/adler32.c:57-125 | From 1, "Wikipedia" gives 0x11e60398. |
| ZlibAdler32.AddBytes | dep/zlib/adler32.c:19-23 | Up to 5552 bytes can be added without reduction and without leaving 32 bits. |
| ZlibAdler32.BlockLengthIsLargest | dep/zlib/adler32.c:12-13 | 5552 is the largest such number. |
| ZlibAdler32.Adler32Combine | dep/zlib/adler32.c:127-148 | For every two words: both halves of the word returned are right modulo 65521 as long as they fit 16 bits, which is a condition on the inputs, and where the strict comparisons suffice they are exact; outside that condition the word is the union of two such sums, one of them wider than 16 bits. |
| ZlibAdler32.CombineSums | dep/zlib/adler32.c:137-147 | For all 16-bit halves: both sums are right modulo 65521; they lie in 1..65521 as the formula says if and only if the inputs are in a stated range, and they fit 16 bits if and only if the inputs are in a slightly wider one. |
| ZlibAdler32.ChecksumsCombinable | dep/zlib/adler32.c:137-147 | Halves up to 65521, all checksums among them, are in that range. |
| ZlibAdler32.CombineIsConcat | dep/zlib/adler32.c:127-148 | Combining the checksums of two strings gives that of the concatenation, with 65521 where it has 0. |
| ZlibAdler32.CombineExact | dep/zlib/adler32.c:127-148 | It is the checksum itself if and only if neither half of it is 0, stated on the arguments of the call. |
| ZlibAdler32.CombineFails | dep/zlib/adler32.c:144-147 | It is not for two empty strings: 0xfff10001 in place of 1. |

## Findings

Where the code does not do what it is meant to do, the input is named and the exact condition proved.

- **A long run overflows the decoder's counters** (`dep/bzip2/decompress.c:373-385`). `es`, `N` and `unzftab` are 32 bits
  and nothing bounds the number of run digits. For every bit string behind a block header, the arithmetic leaves 32 bits
  if and only if, among the symbols the code reads, one comes after exactly 30 digits and is a 31st digit, or ends that
  run and takes the count of its byte past 2^31 - 1 (`RunOverflow.OverflowOnBits`, and `RunOverflow.BlockOverflows` on
  symbols). Symbols behind a run that found no room are not read: 25 RUNA, the symbol 2 and 31 RUNA overflow nothing
  (`RunOverflow.RefusedBefore`); runs that found room have at most 19 digits (`RunOverflow.EarlierRunsShort`). With 32
  digits RUNA, then the symbol 2 twice and the end mark, wrapping words lose the run, every check passes, and "ab" is
  delivered (`RunDigits.StrayBlock`); in C the overflow is undefined. A compressor never writes more than 19 digits
  (`RunDigits.CodedRunsShort`, `SymbolFormat.StaysInRange`). The machine stops with `RunOverflow` there.
- **Too many selectors overrun their arrays** (`dep/bzip2/decompress.c:283-309`, `dep/bzip2/bzlib_private.h`, 18002
  entries). Any announced number up to 32767 is accepted. For every bit string, a store leaves the arrays if and only if
  the number exceeds 18002 and 18003 well-formed selectors come first (`BlockFormat.SelectorsOverrunExactly`); 18003 zero
  selectors are the smallest case (`BlockFormat.OverrunHeader`). A compressor sends at most 18001. The machine stops with
  `SelectorOverrun`.
- **FAST's output depends on the size of the buffer when a block is broken** (`dep/bzip2/bzlib.c:602-604`). If a block's
  last four bytes are equal and no count follows, `unRLE_obuf_to_output_FAST` returns without saving `next_out`, so that
  call's bytes are lost; small buffers deliver them first (`OutputStage.FastDependsOnRoom`). The column of four equal
  bytes is such a block (`StreamFormat.BrokenBlock`). Everything found is delivered if and only if the decoder is SMALL or
  the block is not broken (`DecompressStream.DState.Decompress`).
- **The one-byte path of `adler32` does not reduce** (`dep/zlib/adler32.c:69-78`). Given a word whose upper half is
  already 65521 or more, one subtraction may not be enough. The halves come out reduced if and only if
  `s2 + (s1 + byte) % 65521 < 2 * 65521`, `s1` and `s2` being the halves passed in (`ZlibAdler32.Adler32`).
- **`adler32_combine` returns 65521 for 0** (`dep/zlib/adler32.c:144-147`): the last comparisons are strict.
  `adler32_combine(1, 1, 0)` is 0xfff10001, not 1 (`ZlibAdler32.CombineFails`). It equals the checksum of the
  concatenation if and only if neither half of that is 0 (`ZlibAdler32.CombineExact`), and is always right modulo 65521.
- **`adler32_combine` leaves its range for unreduced words.** The result is the intended one if and only if
  `s1 + t1 <= 131043` and `(len2 * s1) % 65521 + s2 + t2 - len2 % 65521 <= 196563`, where `s` and `t` are the halves of
  the two words (`ZlibAdler32.CombineSums`); all checksums meet this (`ZlibAdler32.ChecksumsCombinable`). Both halves are
  right modulo 65521 as long as the two bounds raised by 14 hold; beyond, one sum is wider than 16 bits and spoils the
  word (`ZlibAdler32.Adler32Combine`).
- **`crc32_combine` does not end for a negative length** (`dep/zlib/crc32.c:395-417`), which `z_off_t` admits
  (`ZlibCrc32.LengthRunsOut`).
- **An empty source and no room** (`dep/bzip2/bzlib.c:1194-1242`): `BZ2_bzBuffToBuffCompress` then returns
  `BZ_SEQUENCE_ERROR` where `BZ_OUTBUFF_FULL` is meant, because no byte has moved (`BuffToBuff.Compress`).
- **The quadrant comment says "precedes"** (`dep/bzip2/blocksort.c:946-967`). In a periodic block rotations are equal, so
  what holds, and is proved, is "precedes or equals"; likewise `origPtr` is not determined by the block, but the last
  column and the decoded block are.

## Left out

- DecompressStream.DState.Decompress: randomised blocks (`dep/bzip2/decompress.c:245`) end in `Beyond(Randomised)`,
  because compressors since 0.9.5 never write them; so do the two overruns above, after which C's behaviour is undefined.
- AcceptedStreams.StreamAccepted: the same three are not among the streams taken.
- BuffToBuff.Compress: the room shown to be enough is far more than streams need; no closer bound is stated.
- BuffToBuff.Decompress: the outcomes not modelled, the same three, come out as `Failed`.
- DecompressStream.DState.Decompress: it may not be called again after an error, as the interface prescribes; what the
  code would do then is not modelled.
- OutputStage.FastOutput.Drain: when FAST refuses a broken block, the bytes it has written behind an unchanged `next_out`
  are not modelled; they are not delivered.
- ZlibCrc32.Crc32Little: the big-endian variant and the byte-reversed tables 4 to 7 are not modelled.
- ZlibAdler32.Adler32: a null buffer, for which the code returns 1, is not modelled; likewise 0 for `crc32`.
- Allocation, null and configuration checks, freeing, verbosity output, error strings and the exit path of `AssertH`.
- The 64-bit totals of bytes in and out.
- ZlibCrc32.Crc32Combine: `len2` is not negative, since for a negative one the loop does not end.
- ZlibAdler32.Adler32Combine: `len2` is not negative; what `%` gives the code for a negative one is not modelled.
- The layers above the two machines: `FILE*` functions and the zlib-like interface.
- `deflate`, `inflate` and everything else in zlib, and all other directories of the repository.
- C's byte aliasing: `arr1` is modelled as words with half words written over them, since `mtfv` and `ptr` share it
  while both are in use; `block`, `quadrant` and `eclass` are separate arrays, and the reuse of `eclass` for `eclass8` is
  carried by `FallbackSort.Overlay`; that the output fits behind the block is `BlockRoom.BlockFits`.
- Manual unrolling: written as loops.
- Saved locals of `BZ2_decompress`: modelled as a record of the variables live at each suspension point; an entry that
  the code leaves in `perm` from an earlier table is modelled as 0, and never read (`Decoder.LookedUpInTable`).
- The tables of the literal file `crctable.c`: defined by the computation that generates them.
- Scratch arrays the code keeps in its state are allocated where they are used; `tt` and `ll16` have 900000 entries for
  every level.
- TableChoice.InitialTables: only that no cost exceeds 15 is stated; which range of symbols each table first favours bears
  on the compression ratio alone.
- Running time, apart from termination and the stack bounds.
