# Verified models of the bundled codecs

The repository is a benchmark harness that carries complete compressors in source
form. This project models those whose encoder and decoder are both there, and proves
what they are for: that the one undoes the other. Where the code fails at that, the
project says exactly when, and gives an input.

**Halibut Deflate** (RFC 1951, in the RFC 1950 and RFC 1952 containers) is modelled
from the LZ77 window to the container trailer, both directions, as the source writes
it: contexts updated in place, bit accumulators, a circular symbol buffer, hash chains
threaded through arrays, a binary heap, nested decode tables, a resumable state
machine. The pieces are specified over `seq<bool>` streams, prefix codes and token
expansion, and compose into one theorem: whatever calls the data is spread over,
whatever blocks and flushes result, and however the stream is cut up for the
decompressor, the data comes back without error (`RoundTrip`), under two conditions:

- The compressor fails on calls, by an assertion of the source, exactly if the encoder
  written as a function fails on them (`Fails`): the first block to be cut whose symbols
  have no trees. If no block is sent before the end, this means that the symbols of all
  the data have none (`SingleBlock`). Symbols have none exactly if one of their three
  codes comes out too long twice and the first excess is a multiple of what a unit of
  adjustment takes off it, or if all 316 code lengths are sent, with no three adjacent
  zeros and no four adjacent equal other lengths (`PlanFails`). It does happen: there is
  a text of 511 bytes on which the compressor fails (`TheTextFails`), because its code
  lengths lead to frequencies that cannot be limited (`TheAssertionFails`); in pieces of
  one or two bytes any order of these bytes fails (`FailsInPieces`). Symbols for which
  all 316 lengths are sent exist as well (`SuchSymbols`), but no data is shown that
  becomes them.
- A bare stream whose last block ends on a byte boundary is decoded whole, but the
  empty call at the end of the file reports it as cut short (`EndIsSeen`). Six bytes from
  144 up, sent as a static block, make such a stream (`CompleteButUnexpected`).

What the streams are made of is stated in numbers besides, apart from the encoder: the
code tables and headers of RFC 1951 (`Formats`), stored blocks, which this encoder never
fills (`StoredDecodes`), the headers and trailers of RFC 1950 and RFC 1952 (`Envelopes`),
and the checksums as sums and as a shift register (`AdlerValue`, `CrcValue`). A gzip
header with an extra field of no bytes is misread (`ExtraField`).

**SpookyHash** is modelled with its incremental class, which agrees with the one-shot
hash however the message is cut; no byte and no seed is ignored (`NoByteIgnored`,
`NoSeedIgnored`). **LZFX, FastLZ, LZP, LZSS, Shrinker and LZWC** are
modelled with encoder and decoder as the source writes them, into arrays, down to
the word copies that overshoot; each decoder gives back what its encoder took, with
these limits:

- LZP and Shrinker return -1 exactly if the streams or commands, functions of the input
  (and, for Shrinker, of what its table happens to hold), save too little; input in which
  no four bytes recur is never packed (`NothingTwiceFails`, `BufferTooSmall`), while equal
  bytes always are (`EqualBytesPacked` in `LzpLearning` and in `ShrinkerFinds`).
- Shrinker writes past the buffer that the program allots, for instance on such input; on
  a single chunk exactly if the stream is longer than it (`StaysWithin`), and never if it
  succeeds (`PackedStaysWithin`).
- LZWC's encoder counts the low byte of its last code without writing it. What it packed
  comes back exactly if that byte happens to be in the buffer already (`LastCode`).

Reading order, bottom up:

| files | what they hold |
|---|---|
| `Bits`, `DeflateCodes`, `Checksums`, `ChecksumValues` | bit strings, code tables, Adler-32 and CRC-32, and what they come to |
| `Heap`, `Kraft`, `HuffmanTheory`, `Huffman`, `DeflateHuffman`, `HuffmanCodes` | the heap, optimality and the Fibonacci bound, length limiting |
| `Canonical`, `DecodeTable`, `TableBuild` | canonical codes and the nested lookup tables that decode them |
| `Inflate`, `Decompressor` | decompression as a machine of smallest steps, and as written |
| `Tokens`, `LZ77`, `LazyMatching` | literals and copies; the window, its chains, lazy matching; the same over the data alone |
| `Symbols`, `SymbolCoding`, `CodeLengths`, `TreeCoding`, `Blocks`, `Containers`, `Streams` | symbols, trees, blocks and containers as bits, and their decoding |
| `BlockTrees`, `BlockChoice`, `Logarithm`, `Encoding` | the trees for a block; where it is cut, by approximate logarithms; the encoder as a function |
| `Compressor`, `RoundTrip` | the encoder as written, and the round trip |
| `Formats`, `StoredBlocks`, `Envelopes` | the formats in numbers: codes and block headers, stored blocks, containers |
| `Dyadic`, `Runs`, `Unlimited`, `NoTrees`, `Unabridged` | frequencies that settle the lengths; where limiting them fails; symbols that lead there, and to too many lengths |
| `Outcomes`, `FailingData` | when calls fail, and data on which they do |
| `BareEnd`, `SourceArrays` | streams that show where the decompressor's limits lie |
| `SpookyHash`, `SpookyStates` | the hash, at once and piece by piece; that nothing is mixed away |
| `Lengths`, `Repeats`, `Places` | lengths as runs of 255; how far input repeats itself; the place last entered into a slot |
| `LzfFormat`, `Lzfx`, `FastLz`, `References`, `TablesLearn` | the format that LZFX and FastLZ share, both codecs, which repeats they send, and what their tables hold |
| `Shrinker`, `ShrinkerFinds` | Shrinker, and what its table leads it to find |
| `Lzp`, `LzpLearning`, `Lzss`, `Lzwc` | match prediction and what it learns, cheapest parsing, and a trie rebuilt in lockstep |
| `FormatExamples` | a few items of these formats, byte by byte |


## Model

| member | source | states |
|---|---|---|
| Heap.AddHeap | src/codecs/halibut-deflate.c:691-710 | inserting keeps the heap order and adds exactly the new entry to the multiset of entries; where it ends up is a function of the list, ties included |
| Heap.RmHeap | src/codecs/halibut-deflate.c:711-745 | the entry removed is a least one of all, and exactly that one goes; what the list becomes is a function of it, ties included |
| Heap.InsertedKeeps | src/codecs/halibut-deflate.c:691-710 | the node list that addheap makes, ties included, keeps the heap order and has exactly the new entry more |
| Heap.RemovedKeeps | src/codecs/halibut-deflate.c:711-745 | the node list that rmheap makes keeps the heap order and lacks exactly the root, a least entry |
| Heap.RootIsLeastOfAll | src/codecs/halibut-deflate.c:711-745 | heap order puts a least entry at the root |
| Huffman.BuildHuf | src/codecs/halibut-deflate.c:756-810 | the lengths have Kraft sum 1, cost no more than any lengths with Kraft sum at most 1, and obey the Fibonacci bound; what is written is these capped at 255, 0 for unused symbols, and a function of the frequencies, ties included |
| Huffman.HufIsHuffman | src/codecs/halibut-deflate.c:756-810 | the lengths as a function of the frequencies, defined by the heap and the parent links alone, are lengths of a Huffman code |
| HuffmanTheory.DepthsOptimal | src/codecs/halibut-deflate.c:756-810 | any history of merging two lightest nodes gives depths of least total cost and Kraft sum 1 |
| HuffmanTheory.FibonacciBound | src/codecs/halibut-deflate.c:855-893 | a symbol at depth L forces the total to at least F(L+2) times the smallest frequency |
| DeflateHuffman.OverlongIsRare | src/codecs/halibut-deflate.c:917-927 | an overlong code means the rarest symbol is below 1/2584 (1/55), so the assertion before adjusting cannot fail |
| DeflateHuffman.LeastAdjustment | src/codecs/halibut-deflate.c:929-944 | the quotient computed is the least adjustment that brings the total down to maxprob times the smallest |
| DeflateHuffman.DeflateBuildHuf | src/codecs/halibut-deflate.c:819-963 | the lengths are those of the adjusted frequencies, a function of the ones given; the final assertion holds exactly if these lengths keep the limit |
| DeflateHuffman.FailsExactly | src/codecs/halibut-deflate.c:917-963 | the final assertion fails exactly if the first code is too long, the excess is a multiple of maxprob minus the number of symbols in use, and the code for the adjusted frequencies is too long again; the adjusted total is then exactly maxprob times the smallest frequency, and below it whenever the excess is no such multiple |
| Unlimited.TheAssertionFails | src/codecs/halibut-deflate.c:954-962 | any ten code-length symbols with the frequencies 8, 1, 5, 3, 21, 1, 1, 1, 13, 1 in their order: the total is 55 times the smallest, so nothing is added, and the code of eight bits fails the assertion for limit 7 |
| HuffmanCodes.HuffmanComplete | src/codecs/halibut-deflate.c:405-442 | Huffman lengths of two or more symbols, none above 15, make a complete canonical code |
| Dyadic.WantedIsHuffman | src/codecs/halibut-deflate.c:756-810 | where every frequency is the power of two that a complete code asks for, the lengths are those of this code, whatever the ties |
| Runs.Settled | src/codecs/halibut-deflate.c:819-963 | any lengths up to 15 that fill the code space are what deflate_buildhuf gives for the frequencies that ask for them |
| Canonical.HufCodes | src/codecs/halibut-deflate.c:405-442 | the result is the verdict on the Kraft sum and the codes are the mirrored canonical codes (section 3.2.2 of RFC 1951) |
| Canonical.VerdictIsKraft | src/codecs/halibut-deflate.c:397-404 | the result is non-negative exactly when the code space is exactly filled |
| Canonical.PrefixFree | src/codecs/halibut-deflate.c:405-442 | no code is a prefix of another unless the space is overcommitted |
| Canonical.EveryStringDecodes | src/codecs/halibut-deflate.c:405-442 | if the space is filled, every 15 bits start with a code |
| TableBuild.MkOneTab | src/codecs/halibut-deflate.c:1782-1828 | the nested tables for everything behind a prefix decode exactly as the canonical code does |
| TableBuild.MkTable | src/codecs/halibut-deflate.c:1829-1867 | a table is built exactly when the code is complete; otherwise the error says over- or undercommitted |
| DecodeTable.TableDecodes | src/codecs/halibut-deflate.c:1782-1828 | filled windows plus subtables make a table that is right on every stream, including too short ones |
| TableBuild.HufLookup | src/codecs/halibut-deflate.c:1986-2015 | -1 with the buffer untouched exactly when no code is complete yet, else the symbol and exactly its bits are eaten; never a null table |
| Checksums.Adler32Update | src/codecs/halibut-deflate.c:447-462 | equals byte-by-byte Adler-32, whose value `AdlerValue` gives; the sums reduced every 4096 bytes never overflow 32 bits |
| ChecksumValues.AdlerValue | src/codecs/halibut-deflate.c:447-462 | the zlib checksum of n bytes is (1 + their sum) % 65521 in the low half and (n + the sum of (n - i) times byte i) % 65521 in the high one |
| Checksums.Crc32Update | src/codecs/halibut-deflate.c:469-544 | equals the reflected CRC with polynomial EDB88320 |
| ChecksumValues.CrcValue | src/codecs/halibut-deflate.c:469-544 | the gzip checksum is what a shift register of 32 ones holds after all bits have been fed in, each step shifting right and taking EDB88320 if the bits differ, and then complemented |
| DeflateCodes.FindRecord | src/codecs/halibut-deflate.c:1489-1504 | the binary search finds the record whose range holds the value |
| DeflateCodes.RecordUnique | src/codecs/halibut-deflate.c:552-615 | the length and distance ranges do not overlap |
| Inflate.StepStable | src/codecs/halibut-deflate.c:2061-2584 | more input never changes a step that was already possible |
| Inflate.StepFine | src/codecs/halibut-deflate.c:2061-2584 | each step keeps the state good, only adds output, and eats a bit or moves to a lower phase, so decompression terminates |
| Inflate.EnoughBits | src/codecs/halibut-deflate.c:2062-2069 | 24 buffered bits always suffice for a step |
| Inflate.RunAppend | src/codecs/halibut-deflate.c:2038-2590 | running on one piece and then on the rest is running on both together |
| Inflate.ChunkingIrrelevant | src/codecs/halibut-deflate.c:2038-2590 | any cutting of the input gives the same output and the same first error |
| Decompressor.DecompressContext.DecompressData | src/codecs/halibut-deflate.c:2038-2590 | a call does to the context what the machine does to its state: output, error and leftover bits; an empty call reports whether the end was seen; what the machine makes of each part of a stream is stated under `Formats`, `StoredBlocks` and `Envelopes` |
| StoredBlocks.StoredDecodes | src/codecs/halibut-deflate.c:2442-2492 | a stored block as in section 3.2.4 of RFC 1951: three header bits, whatever pads the byte, the length, its complement and up to 65535 bytes append exactly these bytes, whatever the state, the final bit and what follows |
| StoredBlocks.WrongComplement | src/codecs/halibut-deflate.c:2452-2466 | a length and another number than its complement are an error |
| StoredBlocks.StoredRuns | src/codecs/halibut-deflate.c:2440-2495 | data of any length in stored blocks, as bytes, is decoded to exactly that |
| StoredBlocks.Unstore | src/codecs/halibut-deflate.c:2038-2590 | the decompressor as written, given such a stream at once, returns the data |
| Formats.LengthCodes | src/codecs/halibut-deflate.c:552-583 | the lengths and extra bits of the length codes in closed form |
| Formats.DistanceCodes | src/codecs/halibut-deflate.c:584-615 | the distances and extra bits of the distance codes in closed form |
| Formats.LengthOrder | src/codecs/halibut-deflate.c:389-391 | code-length lengths come in the order 16, 17, 18, 0, 8 and then 8 - k, 8 + k |
| Formats.HighestFirst | src/codecs/halibut-deflate.c:405-442 | a code word is sent from its highest bit on |
| Formats.StaticWords | src/codecs/halibut-deflate.c:1937-1940 | the static codes as in section 3.2.6 of RFC 1951: 8 bits from 00110000, 9 from 110010000, 7 from 0000000, 8 from 11000000 |
| Formats.StaticDistances | src/codecs/halibut-deflate.c:1947-1948 | static distance codes are their numbers in five bits |
| Formats.StaticType | src/codecs/halibut-deflate.c:1255-1262 | a static block begins with its final bit and then 1, 0 |
| Formats.DynamicHeader | src/codecs/halibut-deflate.c:1255-1290 | a dynamic block begins with its final bit and 0, 1, then five bits for the number of literal codes less 257, five for the distance codes less 1, four for the lengths less 4, and three for each of these in the order above |
| Formats.Repetitions | src/codecs/halibut-deflate.c:2291-2363 | 16 repeats the length before three to six times, 17 a zero three to ten times, 18 a zero eleven to 138 times; no more lengths are stored than announced |
| Formats.ReservedType | src/codecs/halibut-deflate.c:2213-2243 | a block of type 3 counts as none, but its final bit is kept |
| Formats.UnusedLengths | src/codecs/halibut-deflate.c:2394-2397 | the two length codes that mean nothing are passed over |
| Formats.NoDistances | src/codecs/halibut-deflate.c:2411-2415 | a length in a block without distance codes is an error |
| Envelopes.ZlibHeaders | src/codecs/halibut-deflate.c:2071-2106 | a zlib header is accepted exactly if it says method 8, a window of at most 32K, no dictionary, and has the right check bits |
| Envelopes.GzipRefuses | src/codecs/halibut-deflate.c:2107-2151 | a wrong magic number, another method and a header checksum are refused, each with its error |
| Envelopes.ExtraField | src/codecs/halibut-deflate.c:2165-2184 | an extra field of at least one byte is skipped; one of none is not, and the next two bytes are taken for a length again |
| Envelopes.GzipHeaders | src/codecs/halibut-deflate.c:2107-2212 | a gzip header with any extra field that is not empty, name and comment, each if its flag is set, is skipped whole |
| Envelopes.ZlibTrailers | src/codecs/halibut-deflate.c:2507-2532 | the zlib trailer is accepted exactly if it is the two sums of the data, the high one first, high bytes first |
| Envelopes.GzipTrailers | src/codecs/halibut-deflate.c:2533-2576 | the gzip trailer is accepted exactly if it is the CRC and the size of the data, low bytes first |
| Envelopes.WrittenHeaders | src/codecs/halibut-deflate.c:1624-1650 | the bytes of each header written |
| Envelopes.WrittenTrailers | src/codecs/halibut-deflate.c:1706-1734 | the bytes of each trailer written: the two sums, or CRC and size |
| Decompressor.DecompressContext.GotDistSymPhase | src/codecs/halibut-deflate.c:2404-2430 | the copy out of and into the circular window is the overlapping byte copy |
| SourceArrays.BeyondExactly | src/codecs/halibut-deflate.c:2422-2430 | the table of distances is left exactly for a distance code of 30 or above, in no other way |
| SourceArrays.BeyondInStaticBlock | src/codecs/halibut-deflate.c:2422-2430 | a static block has two such codes: a length followed by either ends there |
| SourceArrays.SizesFit | src/codecs/halibut-deflate.c:2246-2262 | the sizes announce more lengths than the array holds exactly if their two fields add up to more than 60 |
| SourceArrays.AsManyLengths | src/codecs/halibut-deflate.c:2291-2363 | no more lengths are stored than announced, and exactly as many before the trees come into force |
| SourceArrays.TooManyLengths | src/codecs/halibut-deflate.c:1914-1914 | the static trees, sent whole as a dynamic block's own, take two lengths more than there is room for |
| Decompressor.DecompressFile | src/codecs/halibut-deflate.c:2679-2711 | the standalone program's result depends only on the concatenation of what it reads |
| LZ77.LZ77Context.Advance | src/codecs/halibut-deflate.c:205-236 | after each byte all chains are again exactly the window's positions by hash |
| LZ77.UnlinkChained | src/codecs/halibut-deflate.c:210-218 | the slot about to be reused is the tail of its chain, and unlinking it leaves the others intact |
| LZ77.LinkChained | src/codecs/halibut-deflate.c:220-231 | the new entry becomes the head of its chain |
| LZ77.ChainsAreExact | src/codecs/halibut-deflate.c:146-154 | each chain is finite and lists exactly the window slots with its hash, newest first |
| LZ77.LinksInverse | src/codecs/halibut-deflate.c:146-154 | prev and next undo each other |
| LZ77.LZ77Context.FindMatches | src/codecs/halibut-deflate.c:283-301 | the walk collects the verified three-byte matches, newest first, as many as fit; over the data these are those at the 32 smallest distances (`FoundIsNear`) |
| LZ77.LZ77Context.Longest | src/codecs/halibut-deflate.c:307-333 | the match followed down is the longest of those, and the nearest of the longest |
| LZ77.FoundOrNot | src/codecs/halibut-deflate.c:283-301 | nothing is found exactly when the next three bytes do not occur in the window |
| LZ77.LZ77Context.Search | src/codecs/halibut-deflate.c:276-333 | the match to consider is the one best match at this place of the data, or none exactly when there is none or no looking; `ChoiceIsLongestNear` says which it is |
| LazyMatching.FoundIsNear | src/codecs/halibut-deflate.c:283-301 | a match is found at a distance exactly if three bytes agree there, at most 32768 back, and at fewer than 32 smaller distances |
| LazyMatching.ChoiceIsLongestNear | src/codecs/halibut-deflate.c:276-333 | the match considered at any place: none exactly if no distance up to 32768 agrees in three bytes; else one of the 32 smallest that do, agreeing as long as any of these does, and the smallest that agrees as long |
| LazyMatching.LongestNearIsChoice | src/codecs/halibut-deflate.c:276-333 | there is only one such match |
| LazyMatching.AllNear | src/codecs/halibut-deflate.c:276-333 | if no more than 32 distances agree in three bytes, none is left out |
| LZ77.LZ77Context.FlushPending | src/codecs/halibut-deflate.c:252-268 | bytes left from the last call enter the window as soon as they can be hashed |
| LZ77.LZ77Context.Compress | src/codecs/halibut-deflate.c:240-383 | the calls are those of lazy matching as a function of the data: a match waits for one byte and gives way only to one at the next place that is longer by at least two; they expand to the data of the call, and distances are 1..32768 and within the data |
| LazyMatching.LazyIsByTheRule | src/codecs/halibut-deflate.c:240-383 | call by call: at each place the match considered there is sent, unless there is none or the one considered at the next place is longer by two bytes or more; then the byte goes as it is |
| Symbols.PlayAppend | src/codecs/halibut-deflate.c:1349-1423 | what symbols mean does not depend on where a block is cut |
| Symbols.BoundaryNear | src/codecs/halibut-deflate.c:1379-1420 | a place to end a block is never more than a few symbols away, so the assertion on the best length cannot fail |
| SymbolCoding.SymsDecode | src/codecs/halibut-deflate.c:988-1014 | symbols sent with a block's codes are read back one by one, whatever follows |
| CodeLengths.SendLengths | src/codecs/halibut-deflate.c:1090-1177 | the run-length symbols, a function of the code lengths, spell out exactly these |
| CodeLengths.SpellingSize | src/codecs/halibut-deflate.c:1090-1177 | there are never more symbols than lengths, and as many exactly if no three zeros and no four other equal lengths are adjacent |
| Runs.SpellingOfRuns | src/codecs/halibut-deflate.c:1090-1177 | code lengths laid out as runs that cannot be longer are spelt out run by run |
| TreeCoding.TreeDecodes | src/codecs/halibut-deflate.c:2283-2345 | the decompressor reads the spelt-out lengths back |
| TreeCoding.LoadedAll | src/codecs/halibut-deflate.c:1202-1204 | lengths dropped from the end of the transmission order are zero, so nothing is lost |
| Blocks.StaticDecodes | src/codecs/halibut-deflate.c:1259-1296 | a static block is read back whole |
| Blocks.DynamicDecodes | src/codecs/halibut-deflate.c:1259-1296 | a dynamic block, trees and all, is read back whole |
| Blocks.FlushDecodes | src/codecs/halibut-deflate.c:1683-1698 | the flush's empty stored block is skipped and realigns both sides |
| BlockTrees.BuildCode | src/codecs/halibut-deflate.c:1086-1089 | it succeeds exactly if the code can be limited; the code then has a word for every symbol counted and is complete unless nothing was counted |
| BlockTrees.MakePlan | src/codecs/halibut-deflate.c:1065-1204 | it succeeds exactly if the symbols have trees; those chosen are ones the decompressor accepts and encode every symbol of the block |
| BlockTrees.PlanFails | src/codecs/halibut-deflate.c:1065-1204 | symbols have no trees exactly if one of the three codes cannot be limited or 316 code lengths are sent without any run to abbreviate |
| NoTrees.LiteralsWithoutTrees | src/codecs/halibut-deflate.c:1065-1204 | bytes of 34 values, one of them 128 times, five 32, three 16, 21 eight times, one four times and three once, have no trees as literals, in whatever order |
| Unabridged.NothingAbridged | src/codecs/halibut-deflate.c:1165-1177 | symbols that ask for certain lengths have all 316 sent with a symbol each, and the assertion on their number fails |
| Unabridged.SuchSymbols | src/codecs/halibut-deflate.c:1165-1177 | there are such symbols, literals and 64 matches; no data is claimed to become them |
| BlockChoice.LogGrows | src/codecs/halibut-deflate.c:1312-1347 | the approximate logarithm of a larger count is never smaller, across all its thresholds |
| Logarithm.LogIsRounded | src/codecs/halibut-deflate.c:1312-1347 | the approximate logarithm is the exact one, to the nearest eighth of a bit: the sixteenth power of x lies between 2 to the power of 2r - 1 and of 2r + 1 |
| BlockChoice.EstimateLarge | src/codecs/halibut-deflate.c:1349-1423 | the estimated size of what precedes any place is at least 2400 eighths of a bit: the quotient is never by zero |
| BlockChoice.EntropyStep | src/codecs/halibut-deflate.c:1396-1418 | the four terms taken off and put on for a symbol lead from the entropy of the counts before to that of the counts after |
| BlockChoice.BestCutIsBest | src/codecs/halibut-deflate.c:1379-1393 | the place preferred is the first of those with the most symbols for each bit, among the places where a block may end |
| Encoding.NotFull | src/codecs/halibut-deflate.c:1443-1450 | symbols that do not fill the buffer are only appended to it |
| Encoding.PushesKeep | src/codecs/halibut-deflate.c:1443-1450 | whatever blocks are cut, what has been sent and what is buffered are all the symbols in order |
| Outcomes.SingleBlock | src/codecs/halibut-deflate.c:1429-1441 | for calls without a flush whose symbols do not fill the buffer, an assertion fails exactly if all these symbols have no trees |
| Outcomes.OnlyLiterals | src/codecs/halibut-deflate.c:276-383 | data in which no three bytes are found in the window become literals |
| Outcomes.TinyCalls | src/codecs/halibut-deflate.c:276-383 | calls with one or two bytes each never look anything up: their symbols are the bytes, whatever they are |
| Outcomes.AllLiteral | src/codecs/halibut-deflate.c:276-383 | data in which no three bytes recur become literals in a single call |
| FailingData.FailsInPieces | src/codecs/halibut-deflate.c:954-962 | 511 bytes of these 34 values, in whatever order, given in pieces of one or two bytes make the assertion fail |
| FailingData.FailsAtOnce | src/codecs/halibut-deflate.c:954-962 | and in one call if no three of them recur |
| FailingData.TheTextFails | src/codecs/halibut-deflate.c:954-962 | a text of 511 bytes, given by formulas, on which the compressor fails in one call, as one piece read, and in any pieces of one or two bytes |
| Containers.ContainerHeaderDecodes | src/codecs/halibut-deflate.c:1624-1650 | the decompressor accepts each container's header |
| Containers.EndDecodes | src/codecs/halibut-deflate.c:1706-1734 | padding and trailer check out; only an unpadded bare stream leaves the final state unreached |
| Streams.StreamDecodes | src/codecs/halibut-deflate.c:1611-1746 | any legal sequence of blocks decodes to the meaning of all its symbols |
| Streams.FinishedStream | src/codecs/halibut-deflate.c:1700-1737 | a finished stream decodes without error to its data |
| Streams.FlushedStream | src/codecs/halibut-deflate.c:1683-1698 | cut off right behind a sync flush, a stream yields all data so far |
| Compressor.CompressContext.constructor | src/codecs/halibut-deflate.c:1547-1599 | a new context is valid and empty |
| Compressor.CompressContext.OutBits | src/codecs/halibut-deflate.c:662-679 | bytes out plus accumulator gain exactly the bits given |
| Compressor.CompressContext.OutBlock | src/codecs/halibut-deflate.c:1021-1305 | sends a prefix of the buffer as the kind of block with fewer bits for each symbol (ties static), sizes computed exactly; it succeeds exactly if the prefix tried as a dynamic block has trees, and what is sent and what stays is a function of the buffer |
| Compressor.CompressContext.FindCuts | src/codecs/halibut-deflate.c:1349-1423 | the loop over the buffer, updating the estimate symbol by symbol, finds the place with the most symbols for each bit and the last place of all |
| Compressor.CompressContext.ChooseBlock | src/codecs/halibut-deflate.c:1349-1427 | a full buffer is cut at that place or the last one, as a function of the buffer; it fails exactly if the function does, for want of trees for the first of them |
| Compressor.CompressContext.SendMatch | src/codecs/halibut-deflate.c:1459-1545 | a match of any length is sent as its symbols, a function of distance and length, and these mean exactly that copy; the context moves as pushing them moves the encoder, failing exactly with it |
| Compressor.CompressContext.CompressData | src/codecs/halibut-deflate.c:1611-1746 | every call keeps the invariant; a sync flush makes everything so far decodable; the last call completes a stream for all the data; blocks, buffer and failing are those of the encoder as a function of the data so far and of this call |
| RoundTrip.StreamRoundTrip | src/codecs/halibut-deflate.c:2725-2806 | a complete stream decodes to its data without error, whatever the window memory held |
| RoundTrip.PiecesRoundTrip | src/codecs/halibut-deflate.c:2725-2806 | likewise for every way of cutting the stream into pieces |
| RoundTrip.EndIsSeen | src/codecs/halibut-deflate.c:2053-2060 | asked at the end of the file, the decompressor reports a premature end exactly for a bare stream that needed no padding |
| BareEnd.CompleteButUnexpected | src/codecs/halibut-deflate.c:2053-2060 | six bytes from 144 up as one static block are a bare stream of eight bytes without padding: decoded whole, then reported as cut short |
| RoundTrip.UnfinishedFine | src/codecs/halibut-deflate.c:1611-1746 | a stream still being written never looks wrong to the decompressor |
| RoundTrip.CompressAll | src/codecs/halibut-deflate.c:1611-1746 | any sequence of calls, with or without flushes, ends in a complete stream for the concatenated data, exactly unless the calls fail, which is a function of them |
| RoundTrip.SelfTest | src/codecs/halibut-deflate.c:2754-2798 | the program's own test loop returns its input and no error, exactly unless the calls with the pieces read fail |
| SpookyHash.Hash128 | src/codecs/SpookyV2.cpp:127-186 | at once: the function of the message and the seeds that the incremental class has to agree with; that it ignores nothing is `NoByteIgnored` |
| SpookyStates.NoByteIgnored | src/codecs/SpookyV2.cpp:21-186 | changing any byte of any message changes the state at the end, of which the hash is the first two words |
| SpookyStates.NoSeedIgnored | src/codecs/SpookyV2.cpp:21-186 | so does changing either seed |
| SpookyStates.HashIsState | src/codecs/SpookyV2.cpp:112-186 | the hash is the first two words of the state at the end, of the short form below 192 bytes and of the long one from there on |
| SpookyStates.ShortPieces | src/codecs/SpookyV2.cpp:41-110 | messages of one length below 192 that differ anyhow within sixteen bytes, counted from the start or in the tail, leave different states |
| SpookyStates.LongBlocks | src/codecs/SpookyV2.cpp:150-169 | longer messages that differ within one block of 96 bytes leave different states, if they differ in its first eight bytes only or in the others only |
| SpookyStates.LongTails | src/codecs/SpookyV2.cpp:171-181 | those that differ anyhow in the tail, be it in its length only, do |
| SpookyStates.MixBlocksDiffer | src/codecs/SpookyV2.h:133-153 | two blocks mixed into one state leave different states if they agree in the first word or in all the others |
| SpookyStates.MixStates | src/codecs/SpookyV2.h:133-153 | one block mixed into two states leaves different states |
| SpookyStates.EndStates | src/codecs/SpookyV2.h:169-201 | two states finished with the same last block are different still |
| SpookyHash.Swallow | src/codecs/SpookyV2.cpp:201-301 | bytes kept and bytes added, mixed in whole blocks, leave the state of the message so far |
| SpookyHash.Spooky.Update | src/codecs/SpookyV2.cpp:201-301 | whatever the cut, the context holds exactly the message so far: swallowed in whole blocks, and at most 191 bytes kept |
| SpookyHash.FinalIsHash | src/codecs/SpookyV2.cpp:305-350 | finishing from the context is the one-shot hash of the message |
| SpookyHash.Spooky.Final | src/codecs/SpookyV2.cpp:305-350 | the hash of the concatenation of all pieces, equal to the one-shot hash; the context can go on; what the hash is sensitive to is stated under `SpookyStates` |
| LzfFormat.DecodeAppend | src/codecs/lzfx.c:246-299 | decoding two streams one after the other is decoding them joined |
| Lzfx.Compress | src/codecs/lzfx.c:89-221 | what is written decodes to the input, and spells out the literals and copies that are a function of it; 33/32 of its size and four bytes are always enough, and otherwise the buffer size is reported as too small |
| References.RepeatIsSent | src/codecs/lzfx.c:129-155 | three bytes that stand at the place last entered as well, up to 8192 back and not at the very start, are sent as a copy of all that agrees, up to 264 bytes and not into the last two |
| References.OnlyRepeatsAreSent | src/codecs/lzfx.c:129-206 | and nothing else is |
| TablesLearn.LzfxLearns | src/codecs/lzfx.c:122-196 | every slot holds the last place entered in it: that where a literal or copy starts, or where a copy has its last byte |
| TablesLearn.StepX | src/codecs/lzfx.c:118-208 | the search goes on step by step until the last two bytes, each step sending one literal or copy |
| References.EqualBytesLzfx | src/codecs/lzfx.c:118-221 | equal bytes become two literals, copies from one byte before of at most 264 bytes, and the last few as literals |
| References.LzfxHashValue | src/codecs/lzfx.c:58-61 | the hash of 1, 2, 3 |
| FormatExamples.LzfxReferences | src/codecs/lzfx.c:157-169 | a short and a long reference in bytes |
| Lzfx.GetSize | src/codecs/lzfx.c:311-356 | the size, or corruption, as the stream alone says |
| Lzfx.SizeAgrees | src/codecs/lzfx.c:311-356 | a stream that decodes has the size it decodes to |
| Lzfx.Decompress | src/codecs/lzfx.c:224-309 | a stream that decodes is decoded if it fits, and its size reported otherwise |
| Lzfx.ThereAndBack | src/simple_codecs.cpp:568-577 | the input comes back if the second buffer holds it; its size is reported in any case |
| FastLz.RefParts | src/codecs/fastlz.c:290-392 | the decoder reads back the length and distance of every reference the encoder writes, near or far |
| FastLz.CompressLevel | src/codecs/fastlz.c:166-418 | at either level what is written stands for the input, stays within the bound, and spells out the literals and copies that are a function of it |
| References.FastRepeatIsSent | src/codecs/fastlz.c:222-288 | three bytes that stand at the place last entered as well, less than 8192 back, are sent as a copy; at level 2 less than 8191, or five less than 73725; as far as they agree, but for the last three bytes and, at level 1, in pieces |
| References.FastRunIsSent | src/codecs/fastlz.c:212-220 | at level 2 four equal bytes are a copy from one byte before, whatever has been entered |
| TablesLearn.FastLearns | src/codecs/fastlz.c:196-385 | every slot holds the last place entered in it, or 0: that of each look-up, and the last two of each match |
| TablesLearn.StepF | src/codecs/fastlz.c:203-398 | the search goes on step by step until the last twelve bytes |
| References.EqualBytesFast | src/codecs/fastlz.c:166-418 | fifteen or more equal bytes become two literals, a match of all but three of the rest, and three literals |
| References.FastHashValue | src/codecs/fastlz.c:98-102 | the hash of 1, 2, 3 |
| FormatExamples.FastReferences | src/codecs/fastlz.c:290-375 | near and far references in bytes |
| FastLz.DecompressLevel | src/codecs/fastlz.c:420-549 | the result is the size of the data if the stream is good and fits, and 0 otherwise |
| FastLz.ThereAndBack | src/simple_codecs.cpp:354-369 | with a buffer of the size the program allots, the input comes back |
| Lzp.RunAppend | src/codecs/LZP_ds.cpp:70-90 | the decoder's steps compose, one stream read upward and the other downward |
| Lzp.Encode | src/codecs/LZP_ds.cpp:40-68 | what is written is the input's first twelve bytes and its two streams, a function of it by longest matches at predicted places; -1 exactly if these do not save 256 bytes and one in 128; they take the decoder's steps to the input; which places are predicted is `TableLearns` |
| LzpLearning.TableLearns | src/codecs/LZP_ds.cpp:42-60 | while no match has come from further than 0x40000 bytes back, every slot holds the last place entered under it: each literal, the start of each match and every third place in it; or the first place of all |
| LzpLearning.PathIsEncoding | src/codecs/LZP_ds.cpp:42-66 | these are the encoder's own states: what has been sent up to each is the beginning of the two streams |
| LzpLearning.EqualBytesPacked | src/codecs/LZP_ds.cpp:40-68 | any twelve bytes and then n equal ones, 512 or more, are packed, for every minimum length up to 32, into no more than 26 + n / 254 bytes |
| LzpLearning.EqualBytesExactly | src/codecs/LZP_ds.cpp:40-68 | if none of the twelve is like the others, into exactly 19 + (n - 6 - minLen) / 254 + 1 bytes: six as they are and one match; and one more if the byte is the flag and is predicted at the first place |
| LzpLearning.HashValues | src/codecs/LZP_ds.cpp:21-26 | two values of the hash |
| FormatExamples.LzpLengths | src/codecs/LZP_ds.cpp:55-57 | lengths in bytes |
| Lzp.NothingTwiceFails | src/codecs/LZP_ds.cpp:40-68 | an input in which no four bytes recur is never packed: nothing is predicted, and all of it is sent as it is |
| Lzp.Decode | src/codecs/LZP_ds.cpp:70-90 | a packed buffer decodes to the data its streams stand for |
| Lzp.ThereAndBack | src/simple_codecs.cpp:626-633 | the input comes back, or -1 exactly if its streams save too little, which `EqualBytesPacked` and `NothingTwiceFails` decide for some |
| Lzss.Lzssim.BestMatch | src/codecs/lzss.cpp:40-71 | the match found is real; behind the place where the tries ran out, or anywhere in the window, there is none longer and none as long that is nearer; as many places with the same three bytes lie behind the former as there were tries, and fewer behind the match |
| Lzss.CellIs | src/codecs/lzss.cpp:40-71 | so, over the data: of the nearest places, as many as tries, that agree in three bytes, at most 0x40000 back and not the very first, the one recorded agrees longest, up to 66 bytes, and is the nearest of these |
| FormatExamples.LzssItems | src/codecs/lzss.cpp:121-143 | items and their flags in bytes |
| Lzss.Lzssim.Parse | src/codecs/lzss.cpp:80-108 | the dynamic program reaches the least cost of all parses of the matches found |
| Lzss.NoParseIsCheaper | src/codecs/lzss.cpp:80-108 | no choice among the matches found costs less than the least cost defined by recursion |
| Lzss.CostIsBits | src/codecs/lzss.cpp:80-108 | the cost is the number of bits the items take, but for the literal at the end, which counts nothing |
| Lzss.Lzssim.EncodeBlock | src/codecs/lzss.cpp:33-143 | a block is written as the items of a cheapest parse, and they spell it out |
| Lzss.Lzssim.Encode | src/codecs/lzss.cpp:19-147 | the output is the blocks one after the other, each as the items of a cheapest parse of it, and at most an eighth longer than the input |
| Lzss.Decode | src/codecs/lzss.cpp:150-181 | a stream of the encoder's format decodes to its data |
| Lzss.ThereAndBack | src/codecs/lzss.cpp:19-181 | what was packed unpacks to the input |
| Shrinker.WordsWithin | src/codecs/Shrinker.c:36-38 | copying within a buffer eight bytes at a time, even with the source nine bytes behind, is the byte copy up to the end asked for |
| Shrinker.SearchSpells | src/codecs/Shrinker.c:59-118 | whatever the table holds, the commands found spell out the input up to its last eight bytes or more |
| Shrinker.Compress | src/codecs/Shrinker.c:41-140 | with whatever the hash table holds at first, the stream is that of the commands found, a function of input and table; -1 exactly if the size is out of range or it does not save twelve bytes; the buffer is written exactly up to a place that the commands give, overshooting words included |
| ShrinkerFinds.ShrinkerLearns | src/codecs/Shrinker.c:64-114 | every slot holds the last place entered in it, with five bits of the byte there, or what it held at first: each place looked at, and two more in a match |
| ShrinkerFinds.FindsNext | src/codecs/Shrinker.c:59-118 | the search goes on step by step, each finding one command or none |
| ShrinkerFinds.EqualBytesFound | src/codecs/Shrinker.c:41-140 | 32 or more equal bytes become one literal and one match, whatever the table holds at first |
| ShrinkerFinds.EqualBytesPacked | src/codecs/Shrinker.c:41-140 | and are packed, into sixteen to nineteen bytes and one for every 255, the number stated |
| FormatExamples.ShrinkerCommands | src/codecs/Shrinker.c:84-112 | commands in bytes |
| Shrinker.BufferTooSmall | src/simple_codecs.cpp:1037-1040 | input of 32 bytes or more, one chunk long, in which no four bytes recur: whatever the table holds, -1 is returned, and what is written before goes past the buffer the program allots |
| Shrinker.StaysWithin | src/simple_codecs.cpp:1037-1040 | a chunk stays within that buffer exactly if its stream, or what there is of it when the search gives up, is no longer than the chunk |
| Shrinker.PackedStaysWithin | src/simple_codecs.cpp:997-1040 | input of any size that is packed stays within that buffer, so it is left only where the result is -1 |
| Shrinker.EnoughRoom | src/simple_codecs.cpp:997-1040 | a byte for every 255 and 20 more than the input are always enough |
| Repeats.AscendingOnce | src/codecs/Shrinker.c:69-72 | ascending bytes are input in which no four recur |
| Shrinker.Decompress | src/codecs/Shrinker.c:144-192 | a packed chunk decodes to its data, or -1 exactly if this is too long; overshooting copies never leave its place |
| Shrinker.ChunkSizesFit | src/simple_codecs.cpp:988-995 | input of 32 bytes or more is cut only into chunks the coder takes |
| Shrinker.PackAll | src/simple_codecs.cpp:997-1016 | the packed chunks, the result and the highest place written are functions of the input and of what the table holds for each chunk |
| Shrinker.ThereAndBack | src/simple_codecs.cpp:997-1036 | given exactly the room that is written to, chunk by chunk the input comes back, or -1 exactly if a chunk cannot be packed |
| Lzwc.StringsDiffer | src/codecs/LZWC.c:104-111 | no two entries of the trie stand for the same string |
| Lzwc.NextCode | src/codecs/LZWC.c:153-184 | one entry behind the encoder, the decoder finds the string of the next code, also when this is the entry about to be made |
| Lzwc.Compress | src/codecs/LZWC.c:95-135 | the codes written stand for all the input but the string of the last node; each is that of the longest string then in the dictionary with which the input goes on, also when the dictionary is full |
| Lzwc.NoLonger | src/codecs/LZWC.c:104-124 | a string that no entry continues as the input does is the longest of all |
| FormatExamples.LzwcCodes | src/codecs/LZWC.c:114-115 | codes in bytes |
| Lzwc.Decompress | src/codecs/LZWC.c:136-199 | any stream whose first code is not 256: the codes mean the data that the reading function gives, or 0 is returned, for a code not yet known or want of room |
| Lzwc.ReadLockstep | src/codecs/LZWC.c:136-199 | codes made in lockstep with a dictionary mean what they spell, and the decoder's dictionary is the encoder's without its last entry |
| Lzwc.PrefixBack | src/codecs/LZWC.c:95-199 | any number of codes from the front unpacks to the part of the input they cover |
| Lzwc.TheFlushIsMissed | src/codecs/LZWC.c:128-134 | the codes alone always lack the end of the input; with both bytes of the last node's number they would stand for all of it |
| Lzwc.LastCode | src/codecs/LZWC.c:128-134 | behind the codes written, one number and no other makes them mean the input: that of the last node |
| Lzwc.ThereAndBack | src/codecs/LZWC.c:95-199 | what was packed comes back exactly if the byte counted but not written happens to be the low byte of that number; empty input comes back as that byte |

## Left out

Halibut Deflate:

- Compressor.CompressContext.CompressData: after a call with `ok == false` (an assertion of the source failed) nothing is promised about the context.
- Decompressor.DecompressContext.DecompressData: after an error nothing is promised about later calls.
- Decompressor.DecompressContext.GotDistSymPhase: distance codes 30 and 31 index past the source's table (`BeyondExactly`); what is read there is not modelled, and the model reports BeyondTables.
- SourceArrays.TooManyLengths: the array of code lengths has 320 entries in the model and 318 in the source (`SizesFit` says when that matters).
- RoundTrip.EndIsSeen: a complete bare stream without padding is reported as cut short; this is what the code does, and its data is all there.
- The comment in the source asks for the adjusted quotient to fall below maxprob; the code lets it be equal (`FailsExactly`). Another comment says that tables with fewer than two used symbols are filled up; with none used, the code adds none. The model follows the code in both.
- The CRC table is defined by its polynomial instead of being listed; symbols are a datatype instead of tagged words; masks and shifts are remainders, quotients and sums.
- Unabridged.SuchSymbols: symbols behind a history; whether any data becomes them is not shown.
- The comparison in outblock is made on integers; the source's doubles hold these products exactly. chooseblock's products and sums are not bounded to 32 bits.
- Memory management, debugging output, the analysis mode and file reading.

The other codecs:

- SpookyHash.Spooky.Update: lengths are natural numbers without wrap-around; words are read as little-endian, the path for unaligned input being the same function.
- SpookyStates.LongBlocks: says nothing of blocks that differ in the first word and in others, since what the first line adds to the last variable keeps the words from entering independently.
- Lzfx.Decompress: only for input that is not empty, the source reading the first byte unasked. The branches for null pointers are left out; with a null output buffer the code reports a wrong argument, since it tests the pointer to the length and not the length.
- FastLz.DecompressLevel: only for streams not cut short inside a reference or run in a way that the code does not notice before reading on. Behind a match that ends twelve bytes on, one byte past the end may be hashed, and its slot is arbitrary; the table is not looked at again. The 16-bit copies of the build for little-endian machines are byte copies.
- Lzp.Decode: only for streams of the encoder's format, and Lzp.Encode only for input of more than twelve bytes, both sides reading twelve bytes unasked; minimum lengths from 1 up.
- Lzss.Decode: only for streams of the encoder's format. The three columns of the source's array are records; a hash reads three bytes.
- Lzss.Lzssim.BestMatch: place 0 of a block is never tried, its number being the mark for none.
- Shrinker.Decompress: only for streams of the encoder's format.
- Shrinker.Compress: what the hash table holds at first is a parameter, since the source does not clear it; in Shrinker.PackAll one for each chunk. The buffer must hold what is written, which is more than the program allots for some input (`StaysWithin`, `BufferTooSmall`).
- Lzwc.Decompress: a stream whose first code is 256 is left out, on which the source reads in front of its chain. Nodes are numbers instead of pointers.
- Lzwc.ThereAndBack: the input does not come back unless the byte behind the stream happens to be right; that is what the code does.
- The other codecs of the benchmark, and its scheduling and reporting.
