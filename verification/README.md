# Verified models of the ZSNES core routines

This project models four parts of the ZSNES sources in Dafny and proves what they are for.

- **DEFLATE, both directions (`miniz.c`)**: the compressor from the match search to the bits, the
  inflater as the resumable machine it is, the zlib-style `mz_inflate`, and the round trip through both.
- **The ZIP name index (`miniz.c`)**: heap sort and bisection, against the scan of the directory.
- **ROM layout (`initc.c`)**: undoing bank interleaving in place, and mirroring to a power of two.
- **The packed-array codec (C routines emitted by `parsegen.py`)**: packing and unpacking byte arrays.

Code that works in place is modelled in place: the source's structures are classes, its buffers arrays,
its loops loops with invariants. Beside them stand specifications that say what the code means:

- `InflateSpec` is a small machine that reads a DEFLATE stream (RFC 1951, RFC 1950) bit by bit. A stream
  has an *outcome* when the machine runs to its end on it. The compressor is proved to write streams
  whose outcome is the input; the inflater is proved to follow the machine however its input and output
  are cut up.
- `FormatFacts` says in the numbers of the standards what the tables and codes come to, and `KnownStream` works out
  literal streams bit by bit, so that the definitions both directions share are tied to the format itself.
- `Canonical` is the canonical Huffman code of section 3.2.2 of RFC 1951, `LzTokens` the meaning of literals
  and matches, `CodeLengthRle` that of run-length coded code lengths, `Merging` and `PrefixCost` what Huffman's algorithm
  minimises.

Files build on one another in roughly this order: `Bits`, `Canonical`; the tables (`RadixSort`, `Merging`,
`PrefixCost`, `HuffmanCost`, `MinRedundancy`, `LimitCost`, `LimitCodeSizes`, `HuffTables`); tokens and blocks (`LzTokens`,
`TokenBuffer`, `CodeLengthRle`, `InflateSpec`, `DeflateBits`, `FormatFacts`, `BitSink`, `BlockWriter`, `BlockHeader`, `Blocks`, `BlockSpec`,
`StaticCost`, `DynamicCost`); the compressor (`Stream`, `RawBlock`, `BlockChoice`, `FlushWriter`, `HashChain`, `Window`, `Adler`,
`Compressor`); the inflater (`DecodeTree`, `DecodeCount`, `InflateRun`, `InflateSlips`, `DecodeTable`, `InflateSteps`,
`BitSource`, `HuffReader`, `Output`, `Inflater`, `InflateResults`, `MemToMem`, `InflateStream`, `ChecksumLapse`,
`StrayStream`, `UnmatchedCode`, `KnownStream`); and on their own `ZipIndex`, `BankOrder`,
`RomMirror`, `ArrayCodec`. `dafny verify dfyconfig.toml` checks everything.

In most methods of the large classes the body begins with `hide *`: definitions stay folded, and lemmas whose
names end in `Is` unfold the one that a step needs. This keeps every proof obligation small.

## Findings

- **No block overruns the output buffer.** `tdefl_flush_block` falls back to a static block when a dynamic one
  does not fit (miniz.c:1233-1238, where the comment leaves open whether that can happen) and asserts at its end that the
  buffer is not full (miniz.c:1264). Neither check can fail: limited Huffman codes cost at most one bit a symbol more
  than any prefix code, so a dynamic block takes at most 8 * 85100 bits (`DynamicCost.DynamicFits`), and the tail still
  fits (`FlushWriter.WriteFlush`). The round trip therefore holds for every input, without a side condition.
- **The index and the scan of a ZIP directory part for very long names.** `mz_zip_locate_file_binary_search` keeps the
  length of the wanted name in 32 bits (miniz.c:4021), the scan refuses names over 65535 bytes (miniz.c:4077-4078).
  `ZipIndex.IndexAgrees` gives the exact condition on the name, `ZipIndex.LongNameFound` a name of 2^32 + 1 bytes.
- **The match search loses what lies behind a position that is a multiple of 65536.** A chain entry of 0 means the end of
  the chain (miniz.c:1376), and such a position is stored as 0. Up to there the chain holds every position with the
  same hash, nearest first (`HashChains.ChainLeads`), so that the search finds the longest match of the whole dictionary
  if its probes last (`Windows.Window.Longest`); there it ends (`HashChains.ChainCut`). The stream stays correct.
- **A stream without meaning can be accepted.** Two things are not caught. Bits that match no code of a table with at
  most one code, which the inflater accepts (miniz.c:2365), count as symbol 0 (miniz.c:2204-2212). In a window a
  distance that is 0 or leads to no byte written is copied from all the same (miniz.c:2517). `InflateSlips` describes
  what the code does then. An accepted stream says what was written if and only if it strays past neither guard
  (`MemToMem.Decompress`, `MemToMem.DecompressToCallback`); with a flat buffer and every table of Kraft sum exactly 1 it
  never does (`InflateSlips.FullNeverStrays`). `UnmatchedCode.AcceptUnmatched` gives fifteen bytes that a flat decoder
  accepts, `StrayStream.AcceptFarMatch` the three bytes 3, 2, 0 that a window decoder accepts; neither stream says anything.
- **The checksum can fail a sound stream.** The inline Adler-32 (miniz.c:2615-2640) leaves out the output of calls
  that end with a negative status. A sound stream is reported as done if and only if the output that was summed has
  the checksum of all the output (`ChecksumLapse.SoundEnds`), so a failed call that wrote nothing does no harm
  (`Inflaters.Inflater.Decompress`). `ChecksumLapse.Lapse` offers what the compressor makes without its last four
  bytes as if it were all, and then the rest: for every input with a checksum other than 1, such as the single byte 97
  (`ChecksumLapse.OneByteLapses`), this ends with `TINFL_STATUS_ADLER32_MISMATCH`.

## Model

| member | source | states |
|---|---|---|
| Canonical.CodeFits | miniz.c:856-868 | with Kraft sum at most 1 every code fits in its length |
| Canonical.PrefixFree | miniz.c:856-868 | no bit string begins with the codes of two different symbols (the codes the loop assigns are these, by HuffTables.AssignCodes) |
| Canonical.CompleteDecodes | miniz.c:2361-2369 | with Kraft sum exactly 1, the sum the inflater insists on, every bit string of full length begins with some symbol's code |
| Canonical.HuffBitsPadding | miniz.c:936-944 | the counts of codes sent in a header may stop after the last used symbol: the shorter table means the same codes |
| RadixSort.RadixSortSyms | miniz.c:720-748 | the returned array holds the symbols sorted by frequency and is a stable permutation of the input, also when the pass over the high byte is skipped |
| RadixSort.PassesSort | miniz.c:730-746 | a stable pass over the low byte and one over the high byte together order 16-bit keys |
| PrefixCost.MergeCheaper | miniz.c:760-774 | the exchange argument: from any code within Kraft's inequality comes one for the weights with the two rarest merged, cheaper by their sum |
| Merging.MergeValid | miniz.c:760-774 | one round of merging keeps both queues in order, the tree of merged weights Fibonacci-balanced and the pending total unchanged |
| Merging.DepthBound | miniz.c:751-795 | a tree of total weight below 2^16 has no merged node deeper than 21, hence no code longer than 22 |
| HuffmanCost.Optimal | miniz.c:751-795 | the merged weights add up to no more than the cost of any code within Kraft's inequality |
| HuffmanCost.TreeCost | miniz.c:775-794 | the leaf depths found by the second and third phase cost exactly the sum of the merged weights |
| HuffmanCost.AllLight | miniz.c:760-774 | a symbol with a code of length l has at most the total frequency divided by the Fibonacci number of l + 1 |
| MinRedundancy.MergePhase | miniz.c:760-774 | the in-place first phase leaves the parents of a full binary tree over the sorted frequencies, and no code costs less than its merged weights |
| MinRedundancy.DepthPhase | miniz.c:775-777 | the second phase replaces every parent by the node's depth, in the same array |
| MinRedundancy.LeafPhase | miniz.c:778-794 | the third phase turns internal depths into leaf depths: Kraft sum exactly 1, lengths non-increasing, none zero, each leaf at its depth in the tree |
| MinRedundancy.CalculateMinimumRedundancy | miniz.c:751-795 | sorted frequencies totalling below 65536 become a complete prefix code of depth at most 22 in non-increasing lengths; it is optimal: no code within Kraft's inequality costs less |
| LimitCodeSizes.EnforceMaxCodeSize | miniz.c:801-821 | from Kraft sum 1 and at most 2^max codes it ends with the same number of codes and Kraft sum exactly 1 within the limit; the counts are those of the given lengths with only crowded codes lengthened |
| LimitCodeSizes.Round | miniz.c:811-820 | each round finds a code to split, makes no count negative and lowers the Kraft sum by exactly one unit |
| LimitCodeSizes.Repairable | miniz.c:813-818 | while the sum is too large some shorter code exists to be split |
| LimitCost.LimitingCheap | miniz.c:801-821 | limiting a Huffman code for up to 288 symbols to 15 bits costs at most one bit for each symbol counted |
| HuffTables.HuffTable.Optimize | miniz.c:823-869 | exactly the used symbols get a length, within the limit; a more frequent symbol never has the longer one; two or more make a complete code; with limit 15 no code within Kraft's inequality saves more than one bit a symbol; codes are canonical and bit-reversed |
| HuffTables.HuffTable.AssignStatic | miniz.c:828-830 | given lengths get their canonical codes |
| HuffTables.AssignCodes | miniz.c:856-868 | the loop assigns every used symbol its canonical code of section 3.2.2 of RFC 1951 with the bits reversed |
| HuffTables.ReverseBits | miniz.c:865-867 | written least significant bit first, the reversed code is the code most significant bit first |
| HuffTables.HandOut | miniz.c:851-853 | walking the sorted symbols from the most frequent, the lengths are given out in the counts prescribed, shortest first |
| HuffTables.CostBySymbol | miniz.c:851-853 | the cost of the lengths in sorted order is their cost by symbol |
| HuffTables.SortedCollection | miniz.c:836-842 | sorting keeps the collection of used symbols with their counts |
| CodeLengthRle.Packer.Put | miniz.c:951-969 | one turn of the packing loop: what is packed and what is pending together always expand to the lengths seen so far, run by run |
| CodeLengthRle.Packer.Finish | miniz.c:970-974 | at the end the packed items expand to exactly the lengths, run by run: zeros in items of 138, other lengths once and then in sixes, and what is left over in one item or, below three, singly |
| CodeLengthRle.PackedNoLonger | miniz.c:887-921 | items never outnumber the packed entries, nor these the lengths |
| FormatFacts.ZigPlaces | miniz.c:2234 | where the length of each symbol of the length code is sent: 16, 17, 18, 0, then from 8 outwards |
| FormatFacts.RunsOfLengths | miniz.c:2411-2422 | what the symbols 16, 17 and 18 stand for, in numbers |
| FormatFacts.TableSizesAre | miniz.c:2335-2338 | widths and offsets of the three table sizes |
| FormatFacts.LengthBands | miniz.c:2230-2231 | each band of lengths begins where the one before it ends, from 3 to 258 |
| FormatFacts.DistanceBands | miniz.c:2232-2233 | each band of distances begins where the one before it ends, from 1 to 32768 |
| FormatFacts.LengthSymbol | miniz.c:659-675 | the symbol of a length is that of the band it lies in, 285 for 258 alone |
| FormatFacts.DistanceSymbol | miniz.c:677-715 | the symbol of a distance is that of the band it lies in |
| FormatFacts.NextOfLength | miniz.c:856-868 | codes of one length follow one another in the order of their symbols |
| FormatFacts.FirstOfLength | miniz.c:856-857 | the first code of each length, by the recurrence of section 3.2.2 of RFC 1951 |
| FormatFacts.FixedLitCodes | miniz.c:1000-1020 | the table of section 3.2.6 of RFC 1951: lengths and codes of the 288 symbols |
| FormatFacts.ZlibHeaders | miniz.c:2274-2276 | which zlib headers are refused |
| KnownStream.HelloSays | miniz.c:2228-2642 | sixteen literal bytes, a zlib stream with a match, say "hello hello hello hello" |
| KnownStream.AbcSays | miniz.c:2285-2316 | eight literal bytes with a stored block say "abc" |
| KnownStream.ReadHello | miniz.c:2680-2687 | and the inflater gives it back |
| LzTokens.LengthRoundTrip | miniz.c:1122-1129 | for every match length 3..258 base plus extra bits give the length back |
| LzTokens.DistRoundTrip | miniz.c:1131-1140 | for every distance 1..32768 base plus extra bits give the distance back |
| LzTokens.ExpandsSnoc | miniz.c:1572-1609 | what one more literal or match adds to the meaning of a token sequence |
| LzTokens.EncodedSize | miniz.c:1572-1609 | tokens take 9 bits a literal and 25 bits a match in the token buffer, or more |
| TokenBuffers.TokenBuffer.RecordLiteral | miniz.c:1572-1582 | the buffer holds one more literal and the symbol counts follow, whatever stale bits the flag byte had |
| TokenBuffers.TokenBuffer.RecordMatch | miniz.c:1584-1609 | the buffer holds one more match and both symbol counts follow |
| TokenBuffers.TokenBuffer.Close | miniz.c:1180-1181 | shifting the last flag byte and dropping an unused one leaves exactly the encoding of the tokens recorded |
| TokenBuffers.ReadToken | miniz.c:1119-1146 | the flag-driven read gives back the next token of the encoding and the flags for the one after it |
| BitSinks.BitSink.PutBits | miniz.c:871-885 | the value's bits join the stream; bytes past the end of the buffer are the only ones dropped, and a position before the end means that none was |
| BitSinks.BitSink.Restore | miniz.c:1210-1236 | saved position and bit buffer bring back the stream as it was |
| BlockWriter.CompressLzCodes | miniz.c:1113-1151 | the body written is the codes and extra bits of exactly the tokens in the buffer, then symbol 256; true means nothing was dropped |
| BlockHeader.PutItems | miniz.c:991-997 | the packed lengths are sent as their codes and extra bits |
| Blocks.Coder.BuildTables | miniz.c:931-941 | both tables have a code for every symbol the tokens use, both are economical, and the counts of lengths end with the last used symbol |
| Blocks.Coder.BuildLengthCode | miniz.c:936-976 | the packed description expands to both tables' lengths, and the length code has a code for each item |
| Blocks.Coder.StartDynamic | miniz.c:925-998 | the header written describes the tables that the body will use and sends no length at the end of a table that could be left out; the whole block fits in the output buffer |
| Blocks.Coder.StartStatic | miniz.c:1000-1020 | the tables are the fixed ones of section 3.2.6 of RFC 1951 |
| Blocks.Coder.CompressBlock | miniz.c:1154-1161 | the bits added are those of one compressed block of exactly the given tokens; the result says whether all are in the buffer |
| BlockSpec.BlockDecodes | miniz.c:2281-2571 | the inflating machine reads a stored, static or dynamic block of given tokens and appends exactly the bytes it stands for |
| DeflateBits.TokensDecode | miniz.c:2427-2569 | coded tokens drive the inflating machine to the bytes they expand to |
| DeflateBits.DynamicDecodes | miniz.c:2335-2425 | the header of a dynamic block drives the machine to the tables it describes |
| DeflateBits.StoredDecodes | miniz.c:2285-2316 | a stored block drives the machine to its bytes, from any bit position |
| DeflateBits.FixedComplete | miniz.c:2320-2333 | the fixed code lengths have Kraft sum exactly 1 |
| StaticCost.StaticFits | miniz.h:703-723 | a static block takes at most 31/25 of the bits its tokens take in the buffer, so it always fits |
| DynamicCost.BodySize | miniz.c:1119-1148 | the body of a dynamic block costs at most 10 bits a token and 21 more a match |
| DynamicCost.DynamicFits | miniz.c:1213-1264 | every dynamic block the compressor writes takes at most 8 * 85100 bits |
| BlockChoice.ChooseBlock | miniz.c:1210-1238 | which of stored, static and dynamic block is written, and that it stands for exactly the bytes of the open block and is no larger than a block may be |
| BlockChoice.ChosenWell | miniz.c:1210-1238 | a forced stored block is stored and a forced or short static one never dynamic; with its bytes still in the dictionary no block takes more bits than storing them |
| BlockChoice.WriteRaw | miniz.c:1218-1232 | a stored block is written from the circular dictionary with a 16-bit length and its complement |
| RawBlocks.PutTail | miniz.c:1240-1262 | the end of the stream, or the empty stored block of a sync flush |
| RawBlocks.PutAdler | miniz.c:1245-1251 | the checksum goes out most significant byte first |
| RawBlocks.PutZlibHeader | miniz.c:1183-1206 | the two wrapper bytes with the level hint and a multiple of 31 |
| FlushWriter.WriteFlush | miniz.c:1165-1264 | what a flush adds to the stream is wrapper, final bit, block and tail for exactly the pending bytes; the block is the one prescribed, and the output buffer is never full |
| FlushWriter.LevelHintIs | miniz.c:1185-1199 | the level hint is that of the first compression level with so many probes |
| Streams.FlushDrives | miniz.c:1165-1264 | after a flush every suitable decoder that was at the end of the previous block is at the end of this one with the pending bytes appended |
| Adler.Adler32 | miniz.c:38-62 | the blocked computation equals the byte-at-a-time definition from any starting value, and both sums are those of the closed formula modulo 65521 |
| Adler.RunClosed | miniz.c:38-62 | section 2.2 of RFC 1950: from sums a and b, n bytes d[0..n] give (a + sum of d[i]) mod 65521 and (b + n * a + sum of (n - i) * d[i]) mod 65521 |
| Adler.NoOverflow | miniz.c:44-57 | in a block of 5552 bytes the unreduced 32-bit sums cannot overflow |
| Adler.ChecksumConcat | miniz.c:1791-1792 | running the checksum over consecutive pieces gives the checksum of the whole |
| Windows.Window.Fill | miniz.c:1619-1654 | the dictionary holds the last bytes at their positions modulo its size, with its first 257 bytes mirrored behind its end, and all positions but the last two are in the hash chains, on both filling paths |
| Windows.Window.FindMatch | miniz.c:1361-1400 | of the candidates of the hash chain looked at none matches longer than the match found, which is the first so long; the search ends only with the chain, with a match of the whole lookahead or with the probes, counted in threes |
| Windows.Window.Longest | miniz.c:1361-1400 | if the probes last, no match of three bytes or more anywhere in the dictionary is longer than the one found; if not, none among as many positions of the same hash as were looked at |
| HashChains.ChainLeads | miniz.c:1633-1634 | candidate k is the position with k others of the same hash before it: every position is in its chain, nearest first |
| HashChains.KeyBits | miniz.c:1632 | the rolling hash, bit by bit: three bytes shifted by ten, five and no places |
| HashChains.ChainCut | miniz.c:1375-1377 | the chain ends at a position that is a multiple of 65536 |
| Windows.Window.MatchLength | miniz.c:1383-1390 | the byte-wise comparison gives the length of the common run, up to the limit |
| Windows.Window.RunLength | miniz.c:1664-1676 | the next bytes repeat the byte before the lookahead for exactly that many places |
| Compressors.Compressor.FindCurrent | miniz.c:1657-1682 | the search of a turn (none for stored blocks, a run, or the chain with the probes of the flags), and which matches are dropped |
| Compressors.Compressor.Record | miniz.c:1683-1709 | the lazy/greedy decision: what is recorded, saved and passed over in each case; tokens, and the byte owed while a match is saved, always equal the bytes passed over |
| Compressors.Compressor.FlushBlock | miniz.c:1165-1295 | after a block the bytes delivered drive any suitable decoder to all bytes before the open block |
| Compressors.Compressor.FlushIfDue | miniz.c:1715-1722 | a block is written exactly when the token buffer is nearly full or more than 31 kilobytes do not compress, so that the buffer never overruns |
| Compressors.Compressor.CompressNormal | miniz.c:1611-1728 | all input is taken, and with a flush all of it is parsed |
| Compressors.Compressor.Compress | miniz.c:1749-1806 | the checksum covers all input so far; after a flush the delivered bytes drive a decoder to exactly all the input; a bad call changes nothing but the status |
| Compressors.CompressAll | miniz.c:1749-1806 | for every input and all flags the bytes delivered are a whole stream whose outcome is the input and its checksum |
| InflateSpec.OutcomeUnique | miniz.c:2264-2593 | a stream has one outcome |
| InflateSpec.ReachesExtends | miniz.c:2264-2593 | bytes after what has been read change nothing |
| InflateRun.GiveBack | miniz.c:2575-2580 | bytes taken too early can be given back: the machine's run does not depend on them |
| InflateRun.StuckIsDead | miniz.c:2191-2216 | a stream on which the machine is stuck has no continuation with an outcome |
| InflateSlips.StraysDead | miniz.c:2204-2212 | a stream that reads an unmatched code, or in a window a distance from nowhere, has no outcome however it goes on |
| InflateSlips.FullNeverStrays | miniz.c:2365-2369 | with a flat buffer and every table read of Kraft sum exactly 1 no stream strays |
| InflateSlips.DriftReplaced | miniz.c:2191-2216 | what the code does in a step, past a guard or not, depends only on the bits it takes |
| InflateSlips.ReachesDrifts | miniz.c:2264-2593 | where no guard fails the code makes the steps of the machine |
| InflateSlips.CopyDrifts | miniz.c:2516-2568 | a copy in a window from before the beginning repeats whatever it first found |
| DecodeCount.CompleteNodes | miniz.c:2385-2401 | a complete code for n symbols needs at most n - 1 tree nodes, so 2(n - 1) of the 2n slots |
| DecodeTables.DecodeTable.Build | miniz.c:2347-2402 | succeeds exactly for Kraft sum 1 or at most one used symbol, never leaves its arrays, and leaves a table for these lengths |
| DecodeTables.DecodeTable.Decode | miniz.c:2205-2213 | lookup and tree give the symbol whose code the bits begin with; if there is none, symbol 0 and no bits or those walked in the tree; with Kraft sum 1 there always is one |
| DecodeTables.DecodeTable.Resolved | miniz.c:2167-2183 | tells whether the bits at hand settle the next code, and never asks for a bit more than the code has |
| DecodeTables.DecodesAll | miniz.c:2365-2369 | with Kraft sum 1 every bit string decodes to the one symbol whose code it begins with |
| BitSources.BitSource.NeedBits | miniz.c:2134-2140 | the bits pending are always the last ones of the bytes taken |
| BitSources.BitSource.PutBack | miniz.c:2602-2605 | whole bytes return to the input and the bits pending shrink by exactly these bytes |
| HuffReader.Fill | miniz.c:2165-2183 | byte after byte until the next code is settled, and not one byte more |
| HuffReader.HuffDecode | miniz.c:2193-2216 | the code read is the one the pending bits begin with; on need of input the bits begin with no code |
| HuffReader.CodeRead | miniz.c:2191-2216 | a symbol read is the one whose code stands there, unless the table has at most one code and the bits do not match it |
| Outputs.Output.CopyByte | miniz.c:2523-2531 | a byte copied round the window is the byte at the distance, whenever that has been written; otherwise one more byte is written |
| Outputs.Output.CopyMatch | miniz.c:2555-2568 | three bytes a turn, overlapping or not, every byte of the straight copy is the byte at the distance, whenever that has been written |
| LzTokens.LooseIsCopy | miniz.c:2555-2568 | from a byte that has been written there is only one such copy, the byte-by-byte meaning of the match |
| Inflaters.Inflater.FastSymbols | miniz.c:2438-2494 | the two-symbol fast path makes the same steps of the machine as two turns of the careful path |
| Inflaters.Inflater.StepRawCopy | miniz.c:2295-2316 | a stored block is copied from bit buffer and input, and can stop for want of either side |
| Inflaters.Inflater.StepLenRun | miniz.c:2411-2425 | a run of code lengths is filled in without leaving the 457 places, and ends the header only at the exact count |
| Inflaters.Inflater.StartCopy | miniz.c:2516-2523 | a distance before the start of a flat buffer fails; other copies are made at once or byte by byte with the same result |
| Inflaters.Inflater.Step | miniz.c:2264-2597 | one step from any control point keeps the machine's place, and uses input or room or moves on among the points that use none |
| Inflaters.Inflater.Run | miniz.c:2264-2597 | the loop terminates, at the end or where the machine cannot go on without input or room |
| Inflaters.Inflater.Decompress | miniz.c:2228-2642 | a call takes a prefix of its input and appends its output, keeping its place in the stream's run; its status says why it stopped; the checksum covers the output of the calls that did not fail, and at the end Done means that the trailer equals it; a failed call without output does not matter; if the stream strays past a guard, the bits offered show it |
| InflateResults.NeverWrong | miniz.c:2228-2642 | at any time and for any cutting of input and output, what has been written is a prefix of the stream's outcome; at the end it is all of it |
| InflateResults.NeverHungry | miniz.c:2112-2141 | input beyond the end of a stream with an outcome is never asked for |
| InflateResults.CallOutcome | miniz.c:2228-2642 | what each status means for a stream with an outcome |
| InflateResults.SplitsAgree | miniz.c:2228-2642 | two inflaters fed the same stream in any pieces, writing into flat buffers or round windows of at least 32768 bytes, end with the same bytes |
| InflateResults.NothingKept | miniz.c:2598-2606 | after the put-back of a call that took input, the end of the stream is the end of what has been taken |
| MemToMem.Decompress | miniz.c:2680-2687 | every stream that says what fits is accepted and the buffer holds it; an accepted stream says what was written if and only if it strays past neither guard, and otherwise says nothing |
| MemToMem.DecompressToCallback | miniz.c:2689-2715 | through a 32768-byte window the pieces put out are the beginning of what the stream says, and all of it if the callback takes enough; an accepted stream says what was put if and only if it strays past neither guard |
| MemToMem.RoundTrip | miniz.c:1749-1806 | inflating what the compressor makes gives back the input, for every input, all flags and any buffer large enough |
| MemToMem.WindowRoundTrip | miniz.c:2689-2715 | the same through a window, for input of any size |
| ChecksumLapse.SoundEnds | miniz.c:2615-2640 | a sound zlib stream is reported as done if and only if the output summed has the checksum of the output |
| ChecksumLapse.Lapse | miniz.c:2615-2640 | the compressor's stream offered without its last four bytes, then the rest: the first call fails with everything written, the second ends in a mismatch unless the checksum of the input is 1 |
| StrayStream.AcceptFarMatch | miniz.c:2516-2528 | a window decoder accepts the bytes 3, 2, 0, a match before any output, and the stream says nothing |
| UnmatchedCode.AcceptUnmatched | miniz.c:2361-2369 | a flat decoder accepts fifteen bytes in which a distance code is read where the bits do not match it, and the stream says nothing |
| InflateStreams.InflateStream.Deliver | miniz.c:501-509 | bytes leave the window in order, none lost and none twice |
| InflateStreams.InflateStream.Inflate | miniz.c:423-527 | what is handed on is the next part of what the stream says; the return code follows from the inflater's status, the window and the flush; stream end is returned only for a stream the inflater accepts, and unless it has strayed that is all it says; with a sound or a wrong stream and any room a call hands something on, ends or reports the error; with MZ_FINISH, an empty window and room enough it ends or reports the error; no stream that says something is called wrong |
| InflateStreams.AlwaysFaithful | miniz.c:423-527 | at every point of every use what has been handed on is the beginning of what the stream says |
| ZipIndex.LowerSame | miniz.c:2923 | which bytes are taken for one another: 'A' to 'Z' and the same plus 32 |
| ZipIndex.FilenameLess | miniz.c:3228-3244 | compares as the dictionary order of the case-folded names |
| ZipIndex.Sift | miniz.c:3271-3280 | the inner loop of both phases restores the heap and permutes its elements |
| ZipIndex.SortIndices | miniz.c:3255-3301 | leaves a permutation of the indices ordered by case-folded name |
| ZipIndex.FilenameCompare | miniz.c:3998-4012 | zero exactly for names equal byte by byte but for the case of letters; below 2^31 bytes the sign is the dictionary order |
| ZipIndex.BinarySearch | miniz.c:4014-4048 | finds an entry with the name, its length taken as 32 bits, exactly if there is one |
| ZipIndex.Scan | miniz.c:4075-4113 | the scan answers the first entry that matches name, comment and flags, and refuses names and comments over 65535 bytes |
| ZipIndex.StripPath | miniz.c:4096-4105 | the loop leaves the part after the last slash, backslash or colon |
| ZipIndex.ZipReader.Locate | miniz.c:4059-4114 | when the index is used: an entry whose name is the wanted one byte by byte but for the case of letters, exactly if there is one; else what the scan answers |
| ZipIndex.IndexAgrees | miniz.c:4014-4114 | for which names index and scan agree on every directory: those below 2^32 bytes, or with more than 65535 bytes left after cutting the length to 32 bits |
| ZipIndex.LongNameFound | miniz.c:4021-4078 | a name of 2^32 + 1 bytes is found by the index and refused by the scan |
| BankOrder.SwapData | initc.c:163-171 | two word ranges change places and nothing else changes |
| BankOrder.SwapBlocks | initc.c:173-188 | along the cycles of any permutation every bank ends in its place |
| BankOrder.Deinterleave | initc.c:190-206 | word by word: new bank 2i is old bank i + N/2 and new bank 2i + 1 old bank i, an odd last bank stays; more than 384 banks are left alone |
| BankOrder.Undone | initc.c:190-206 | banks stored with the even ones in the upper half and the odd ones in the lower are back in order |
| RomMirror.RomBuffer.RomMemcpy | initc.c:649-655 | copies byte by byte up to the end of the buffer and changes nothing else; a copy further on that overlaps its source repeats it |
| RomMirror.RomBuffer.MirrorRom | initc.c:658-677 | for lengths from 1 to 2^24 - 1 every byte below the result and the end of the buffer is the original byte at the folded address, and nothing else changes |
| RomMirror.FullIsLeast | initc.c:658-677 | the result is the least power of two not below the length |
| RomMirror.FoldInside | initc.c:658-677 | the original bytes stay where they are |
| RomMirror.RomBuffer.MirrorAll | initc.c:680-699 | the whole buffer repeats the mirrored image with its period, cut to the buffer |
| ArrayCodec.EncodeString | parsegen.py:366-385 | the line holds the string in quotes, and none of the five characters stands in it without a backslash, nor a backslash before any other |
| ArrayCodec.DecodeString | parsegen.py:387-408 | in place, the string in quotes without its escapes; nothing for a string not in quotes |
| ArrayCodec.UnquoteQuoted | parsegen.py:366-408 | decoding undoes encoding for every string |
| ArrayCodec.FindNextMatch | parsegen.py:413-438 | the next such character that is not after a backslash |
| ArrayCodec.FindQuote | parsegen.py:413-438 | escaping never hides the closing quote nor shows one before it |
| ArrayCodec.Base94Encode | parsegen.py:539-549 | five base-94 digits, lowest first, as characters from the blank on, with the weights 1, 94, 8836, 830584 and 78074896 |
| ArrayCodec.Base94Decode | parsegen.py:585-595 | the number of five such digits |
| ArrayCodec.NumberDigits | parsegen.py:539-595 | below 94^5 decoding undoes encoding |
| ArrayCodec.Codec.GetToken | parsegen.py:597-639 | the next stretch between backslashes that are not in quotes, ended by a zero in place |
| ArrayCodec.Codec.Pack | parsegen.py:551-583 | the line holds the runs of the array, quoted or counted, with backslashes between them |
| ArrayCodec.Codec.Unpack | parsegen.py:641-673 | the line holds the array the text stands for, zeros after it, cut at the buffer's end, also when the text is in the line itself |
| ArrayCodec.PackedText | parsegen.py:551-583 | one array and its text in literal bytes |
| ArrayCodec.UnpackPacked | parsegen.py:551-673 | the text that packing makes stands for the array packed |
| ArrayCodec.PackThenUnpack | parsegen.py:551-673 | packing and unpacking in the one line gives back any array that ends in a zero byte and fits |

## Left out

- The output-buffer mode of `tdefl_compress` (`m_output_flush_ofs`, `m_output_flush_remaining`, writing straight into the caller's buffer): the compressor is modelled with a put-callback, and the callback always succeeds.
- `tdefl_compress_fast`, the 64-bit `tdefl_compress_lz_codes`, the unaligned match search and the eight-byte match copy: disabled by the build flags.
- Windows.Window.FindMatch: stream positions are unbounded integers, where the source's wrap after 2^32 bytes.
- The flag that leaves the hash table uncleared: the table then holds any content, and nothing is said of candidates that stem from it.
- Inflaters.Inflater.Decompress: positions in the window are taken modulo its size, which in the source is a power of two; the test for that, its `TINFL_STATUS_BAD_PARAM` and a zero-sized window are not modelled. Every call is given the same output buffer, and a window is offered up to its end. The flag that computes the checksum without a zlib wrapper is not modelled.
- Inflaters.Inflater.FastSymbols: the variant for a 32-bit bit buffer, which refills with two bytes at a time, is not modelled.
- MemToMem.DecompressToCallback: the callback is a number of pieces it accepts.
- InflateStreams.InflateStream.Inflate: once a stream has strayed nothing is said of the bytes handed on but that the inflater accepts it if stream end is returned; the running totals, the `adler` field and invalid flush values are not modelled.
- Adler.Adler32: the null pointer that asks for the initial value is not modelled.
- `mz_inflateInit2`'s checks of its parameters, allocation, and `mz_inflateReset`.
- `mz_deflate` and its bound, `tdefl_create_comp_flags_from_zip_params`, CRC-32, PNG and ZIP writing, Zip64, and reading the central directory from bytes: entries are modelled as names and comments.
- ZipIndex.FilenameLess: a directory is a sequence of entries instead of bytes behind offsets.
- RomMirror.RomBuffer.MirrorAll: the branch for SPC7110 cartridges and the correction of `infoloc` are not modelled; a length of zero, on which the source does not terminate, is outside its precondition.
- BankOrder.Deinterleave: the callers that decide whether a ROM is interleaved, and the 6 MB variant, are not modelled.
- ArrayCodec.DecodeString: a quoted text that ends in a lone backslash, where the source copies on past the terminating zero, is outside its precondition.
- ArrayCodec.Codec.Unpack: texts whose run lengths have fewer than five digits or characters outside 32..127, or whose quoted part ends in a lone backslash, are outside its precondition; the source reads stale bytes there.
- The configuration files themselves: lines, sections and numbers of the generated parser.
