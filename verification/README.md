# Proofs about the bundled compression and archive code

This project models the core algorithms of the repository's bundled bzip2 1.0.8 and of three parts of libarchive
(PPMd7, BLAKE2 and the hard-link resolver), and proves what they are for. It follows the C code statement by statement
where the code works in place: arrays are rewritten, objects have the fields of the C structures, and loops are loops
with invariants. Beside every such method stands a specification it is proved against, and lemmas say what the
specification means.

**bzip2.** Both block sorters (`FallbackSort`, `MainSort`, joined in `BlockSort`) end with the rotations of the block
in non-decreasing order, periodic blocks included, and `InverseBwt` and `Output` draw the block from the last column
again, in the packed FAST form and the 20-bit SMALL form. `HuffmanLengths` shows that code lengths are found for every
frequency table, `HuffmanOptimal` that no other code is shorter, `HuffmanCodes` that the codes are prefix-free and
decoded as they were sent. `MtfWindows` shows that the sliding decoder is plain move-to-front, `MtfDecode` that the
symbols of a block give its last column back. `Wire` is the reader of the compressed format as an automaton over bits;
`Reader` is the grammar of the format, written down once more without any state, and `ReaderText` shows that the
automaton reads any bits at all as the grammar does, surplus selectors and errors included. `MapBits`, `SelectorBits`,
`LengthBits`, `SymbolBits` and `WholeBlock` show that everything written is read back equal, and `Decoder` that
suspending and resuming makes no difference. `Compressor` is the RUN/FLUSH/FINISH machine and `Decompressor` the
resumable decompressor; their main results are `Compressor.EState.Restored` and `Decompressor.AnyCutting`: whatever
calls make a stream and whatever calls take it in, what has come out is at any moment the beginning of what went in,
and all of it at the end. `PayloadSize` bounds what a block can take, so that compression is known to succeed with
enough room.

**libarchive.** `RangeCoder` is the 7z range coder of PPMd7 with its carry propagation and its decoder. On top of it
`PpmdCoder` encodes and decodes symbols with a context model: `PpmdModel` says what coding a symbol is meant to do,
`PpmdSteps` and `PpmdScan` that both sides find the same place through any number of escapes, `PpmdLearns` which way
the estimates move, and `PpmdMessage` that whole messages come back with equal models; `PpmdRescale` halves and sorts
the frequencies of a context. `PpmdUnits`, `PpmdLists`, `PpmdGlue`, `PpmdSeams` and `PpmdAlloc` are the sub-allocator
with its splitting and gluing. `Blake2s` and `Blake2sp` show that streaming equals one-shot hashing, and
`Blake2Collide` that only the compression function can collide; `LinkTable`, `LinkProtocol` and `LinkResolver` are the
growing hash table of the hard-link resolver and the protocol on top of it.

A block's bytes are of type `Byte`, bits are numbers 0 and 1, words of 32 bits are non-negative integers with every
wrap-around written out. `Rotations.Rank` gives every rotation of a block its place in the order, so that sorting
means sorting by rank and equal rotations have equal ranks. Checksums enter through a step function and a combining
function, given as parameters; nothing depends on what they compute.

The proofs are checked with `dafny verify dfyconfig.toml` (Dafny 4.11).

## Model

| member | source | states |
|---|---|---|
| `Rotations.RankSteps` | lib/bzip2/blocksort.c:346-469 | comparing two rotations is comparing their first symbols and then the two rotations one place further on: what every sorter here rests on |
| `Rotations.LastColumnUnique` | lib/bzip2/blocksort.c:1031-1089 | whichever sorter ran, and however it ordered equal rotations of a periodic block, the last column is the same |
| `QuickStack.DepthBound` | lib/bzip2/blocksort.c:80-180 | pushing the larger part first keeps the stack of the quicksorts at 40 entries or fewer for any stretch below 2^31, so that assertions 1004 and 1001 (limit 100) cannot fire |
| `FallbackQSort.FallbackSimpleSort` | lib/bzip2/blocksort.c:31-59 | a stretch of fmap ends up permuted and in order of the classes, with the first pass of stride 4 for long stretches |
| `FallbackQSort.FallbackQSort3` | lib/bzip2/blocksort.c:92-180 | with its explicit stack and random pivots it terminates, permutes the stretch and leaves it in order of the classes |
| `FallbackSort.HeadMeans` | lib/bzip2/blocksort.c:243-271 | the header bits delimit exactly the classes of rotations that agree on the first H symbols |
| `FallbackSort.InitialBuckets` | lib/bzip2/blocksort.c:225-257 | the one-symbol radix sort leaves every position dealt once, the header bits and sentinels set, and the symbol counts kept for later |
| `FallbackSort.AssignClasses` | lib/bzip2/blocksort.c:266-271 | eclass of a rotation is the header of the bucket that the rotation H places further on lies in |
| `FallbackSort.NextBucket` | lib/bzip2/blocksort.c:277-292 | the word-wise bit scans find the next bucket with more than one member and skip only singletons |
| `FallbackSort.SortBucket` | lib/bzip2/blocksort.c:294-305 | sorting a bucket by class and marking where the class changes orders it by twice as many symbols |
| `FallbackSort.Round` | lib/bzip2/blocksort.c:266-306 | one round turns buckets ordered by the first H symbols into buckets ordered by the first 2H, and nNotDone is zero only if all of them are singletons |
| `FallbackSort.DoublingRounds` | lib/bzip2/blocksort.c:259-313 | the rounds stop with all rotations in non-decreasing order, periodic blocks included |
| `FallbackSort.Rebuild` | lib/bzip2/blocksort.c:315-328 | the block, overwritten by classes, is rebuilt byte for byte from the sorted order and the symbol counts |
| `FallbackSort.FallbackSort` | lib/bzip2/blocksort.c:211-329 | fmap ends as a permutation with its rotations in non-decreasing order, and the block is what it was |
| `MainCompare.MainGtU` | lib/bzip2/blocksort.c:346-469 | the unrolled comparison over block and quadrant answers consistently with the order of rotations, given only that quadrants order the rotations that have one, and never reads beyond the overshoot area |
| `MainQSort.InsertDown` | lib/bzip2/blocksort.c:505-550 | one insertion with stride h permutes the stretch, and with stride 1 extends its sorted part by one |
| `MainQSort.MainSimpleSort` | lib/bzip2/blocksort.c:484-555 | the shell sort permutes the stretch and, unless the budget runs out, sorts it |
| `MainQSort.MainQSort3` | lib/bzip2/blocksort.c:620-717 | the 3-way string quicksort with its stack of (lo, hi, depth) permutes the stretch and, unless the budget runs out, sorts its rotations |
| `MainRadix.CountKeys` | lib/bzip2/blocksort.c:769-792 | the rolling two-byte key counts every pair of neighbouring symbols once, and all quadrants are zeroed |
| `MainRadix.DealKeys` | lib/bzip2/blocksort.c:802-830 | ptr becomes a permutation with every position in the bucket of its first two symbols, and ftab the start of every bucket |
| `MainOrder.RunningOrder` | lib/bzip2/blocksort.c:832-860 | the shell sort of the 256 big buckets gives a permutation in order of their sizes |
| `MainSort.SortRow` | lib/bzip2/blocksort.c:878-907 | step 1: every small bucket [ss, j] but [ss, ss] ends up sorted and flagged, unless the budget runs out |
| `MainScans.ScanUp` | lib/bzip2/blocksort.c:923-928 | the upward scan writes only into open buckets and has read exactly its whole queue when it stops, although it reads cells that it wrote itself |
| `MainScans.ScanDown` | lib/bzip2/blocksort.c:929-934 | the same for the downward scan |
| `MainBuckets.ScansDone` | lib/bzip2/blocksort.c:911-944 | together the two scans fill every open bucket [t, ss] with the right rotations in the right order, or the block is one symbol repeated |
| `MainSort.ScanBig` | lib/bzip2/blocksort.c:911-946 | step 2: after both scans every [t, ss] is finished and flagged |
| `MainFinish.QuadrantsStay` | lib/bzip2/blocksort.c:957-1002 | writing (shifted) positions as quadrants keeps their meaning: a smaller quadrant never stands for a larger rotation |
| `MainSort.UpdateQuadrants` | lib/bzip2/blocksort.c:987-1004 | step 3: the rotations of a finished big bucket get their places in it as quadrants, in the overshoot area as well, less the fewest low bits that must go for all of them to fit 16 bits (assertion 1002); all other quadrants stay, and a smaller quadrant still never stands for a larger rotation |
| `MainFinish.AllFinished` | lib/bzip2/blocksort.c:868-1006 | when every small bucket is finished all rotations are in order |
| `MainSort.MainSort` | lib/bzip2/blocksort.c:750-1011 | unless the budget runs out ptr ends as a permutation with its rotations in non-decreasing order, and the block is unchanged in any case |
| `BlockSort.BlockSort` | lib/bzip2/blocksort.c:1031-1089 | for every block, budget and work factor the rotations are sorted, the block is unchanged, origPtr is the row of rotation 0, and following T^-1 from there draws the block again |
| `InverseBwt.SteppedIsSorted` | lib/bzip2/decompress.c:506-509 | stepping all sorted rows back by one symbol and sorting stably by that symbol lists the rows in order again: the reason why T^-1 can be built by counting |
| `InverseBwt.BuildFast` | lib/bzip2/decompress.c:565-570 | the loop leaves in every 32-bit word the last-column byte below the T^-1 pointer of its row |
| `InverseBwt.SetLL` | lib/bzip2/bzlib_private.h:459-473 | a 20-bit pointer stored in 16 + 4 bits reads back, and the neighbour that shares the nibble byte keeps its own |
| `InverseBwt.BuildSmallT` | lib/bzip2/decompress.c:532-540 | ll16 and ll4 hold the pointers of T for every row |
| `InverseBwt.ReverseCycle` | lib/bzip2/decompress.c:542-551 | the pointer reversal in place stops, and every pointer met on the walk from origPtr has become one of T^-1 |
| `InverseBwt.IndexIntoF` | lib/bzip2/bzlib.c:687-698 | the binary search finds the symbol whose slots in the first column contain the index |
| `Output.FastGivesBlock` | lib/bzip2/decompress.c:565-580 | FAST: from the packed words and origPtr of any sorted block exactly its bytes are drawn, and two more can be |
| `Output.SmallGivesBlock` | lib/bzip2/decompress.c:542-561 | SMALL: so they are from the reversed 20-bit pointers, through cftab |
| `Output.FastDraws` | lib/bzip2/bzlib_private.h:444-456 | for every last column, sorted or not, and every origPtr the FAST words draw the bytes that T^-1 gives |
| `Output.SmallDraws` | lib/bzip2/bzlib_private.h:470-479 | the SMALL pointers draw the same bytes as the FAST words, for every last column and every origPtr |
| `Heap.UpHeap` | lib/bzip2/huffman.c:29-40 | lifting the last entry restores the heap order and loses no node |
| `Heap.DownHeap` | lib/bzip2/huffman.c:43-59 | so does sinking the first |
| `Heap.Pop` | lib/bzip2/huffman.c:100-102 | the node taken is one of the lightest, and only it leaves the heap |
| `HuffmanTree.MergeWeighed` | lib/bzip2/huffman.c:103-110 | merging two lightest roots keeps the depth fields right and every root heavier than the Fibonacci number of its depth |
| `HuffmanTree.HeightBound` | lib/bzip2/huffman.c:100-121 | a weight sum below 610 rules out a depth above 12, and one below 2^23 a depth above 32 |
| `HuffmanKraft.DepthsComplete` | lib/bzip2/huffman.c:114-121 | the depths of the leaves of a finished tree fill the code space exactly |
| `HuffmanLengths.RescaleShrinks` | lib/bzip2/huffman.c:142-146 | rescaling never raises a weight and lowers the sum unless all weights are 1 or 2 |
| `HuffmanLengths.MakeCodeLengths` | lib/bzip2/huffman.c:63-148 | terminates for every frequency table, with lengths from 1 to maxLen whose Kraft sum is exactly 1; no lengths within Kraft's inequality cost less, where a symbol costs its length as often as it occurs, but at least once; after rounds of rescaling the frequencies are halved and 1 more in each, and before each of them they added up to the Fibonacci number of maxLen + 3 or more |
| `HuffmanCodes.PrefixFree` | lib/bzip2/huffman.c:152-166 | for every length table with a Kraft sum of at most 1, no assigned code is a prefix of another |
| `HuffmanCodes.KraftFits` | lib/bzip2/huffman.c:152-166 | for such a table the codes of every length fit that length |
| `HuffmanCodes.AssignCodes` | lib/bzip2/huffman.c:152-166 | the loop gives every symbol its canonical code |
| `HuffmanCodes.CreateDecodeTables` | lib/bzip2/huffman.c:170-200 | limit, base and perm are decoding tables of the lengths, whatever the lengths are |
| `HuffmanCodes.JudgeRight` | lib/bzip2/decompress.c:88-101 | a value at or below the limit names a symbol that exists and whose code starts the bits; for an admissible code no other symbol does, and a refusal means that none does |
| `HuffmanCodes.DecodeSymbol` | lib/bzip2/decompress.c:77-102 | one symbol is decoded exactly as it was coded, for every admissible length table; other tables give an existing symbol or an error |
| `DecodeTables.TablesDetermined` | lib/bzip2/huffman.c:170-200 | all decoding tables for the same lengths agree wherever they are read |
| `DecodeTables.BuildTable` | lib/bzip2/decompress.c:337-353 | minLens, limit, base and perm of one table are those of its lengths |
| `Mtf.MoveUp` | lib/bzip2/compress.c:189-206 | the shifting search over yy returns the position of the symbol and leaves the list with it in front |
| `Mtf.RunRoundTrip` | lib/bzip2/compress.c:174-188 | the RUNA/RUNB digits of a run spell its length again |
| `MtfStage.MakeMapsE` | lib/bzip2/compress.c:106-115 | unseqToSeq gives every byte in use its index among those in use |
| `MtfStage.GenerateMtfValues` | lib/bzip2/compress.c:120-231 | the symbols are the MTF and run code of the last column, then EOB; at most nblock + 1 are written, never overtaking the read position, and the frequencies count them |
| `MtfWindows.Rebuild` | lib/bzip2/decompress.c:469-478 | copying all sixteen windows to the top of the array, although source and target overlap, leaves the list as it was |
| `MtfWindows.Move` | lib/bzip2/decompress.c:429-480 | one step of the sliding 16 x 16 decoder is one move to the front of the 256-entry list it stands for, and the windows stay apart inside the 4096-entry array |
| `MtfDecode.GuardExact` | lib/bzip2/decompress.c:387-402 | the guard N >= 2*1024*1024 lets exactly the runs below 2^22 - 1 pass, and so never rejects a legal one |
| `MtfDecode.DecodeValues` | lib/bzip2/decompress.c:381-492 | the symbol loop accepts and rejects what the plain MTF and run decoding accepts and rejects, and leaves its bytes in tt with their counts |
| `MtfDecode.StageRoundTrip` | lib/bzip2/decompress.c:381-492 | decoding what was coded for a last column gives that last column |
| `RunLength.ExpandCoded` | lib/bzip2/bzlib.c:216-247 | expanding the run-length code of any runs gives their bytes, whatever stands behind the block |
| `RandMask.UnmaskTwice` | lib/bzip2/bzlib_private.h:133-150 | the mask of a randomised block, driven by rNToGo and rTPos, undoes itself |
| `Output.DState.UnRleGeneric` | lib/bzip2/bzlib.c:540-583 | the generic loop (SMALL, and FAST for randomised blocks) writes until the buffer is full or the block used up; what has been written and what is left always make up the same bytes |
| `Output.DState.UnRleFast` | lib/bzip2/bzlib.c:585-680 | the loop over local variables, with its jump into the middle, writes the same bytes |
| `Output.DrainSizes` | lib/bzip2/bzlib.c:536-804 | for every sequence of buffer sizes all four loops give a prefix of the same bytes, all of them in the end, with their checksum, and find corruption only where there is some |
| `BlockText.RandomisedSurvives` | lib/bzip2/bzlib.c:540-583 | a block that was masked before it was sorted comes out unmasked |
| `BitStream.BitWriter.BsW` | lib/bzip2/compress.c:58-78 | n bits are appended and no live bit is lost |
| `BitStream.BitWriter.BsFinishWrite` | lib/bzip2/compress.c:46-54 | the bytes written are all bits so far, padded with fewer than eight zeros |
| `BitStream.BitReader.GetBits` | lib/bzip2/decompress.c:43-70 | either n bits are taken from the front of what is to come, or all input is in the buffer and the same request can be made again |
| `Wire.RunAppend` | lib/bzip2/decompress.c:43-102 | the reader of the format stops at the same state however its bits are cut in two |
| `Decoder.Feed` | lib/bzip2/decompress.c:106-192 | however the input is cut into pieces, suspending and resuming at any request for bits reaches the state, and leaves over the bits, of one run over all of it |
| `WireBlocks.NextKnown` | lib/bzip2/decompress.c:194-612 | every block handed on has a level from 1 to 9, a byte in use, and symbols within its alphabet |
| `SendMtf.PutMap` | lib/bzip2/compress.c:494-515 | the map of used bytes is written as sixteen group flags and the flags of the groups in use |
| `MapBits.ReadMap` | lib/bzip2/decompress.c:266-284 | the map is read back equal |
| `Selectors.SelectorMtf` | lib/bzip2/compress.c:461-478 | the selectors are coded by moving to the front |
| `Selectors.UndoSelectors` | lib/bzip2/decompress.c:308-320 | and decoded again |
| `SendMtf.PutSelectors` | lib/bzip2/compress.c:517-526 | counts and unary selectors are written |
| `SelectorBits.ReadSelectors` | lib/bzip2/decompress.c:286-320 | nGroups and all selectors are read back equal, and of more than 18002 those that are kept |
| `SendMtf.PutTables` | lib/bzip2/compress.c:528-542 | start lengths and unary steps are written |
| `LengthBits.ReadTables` | lib/bzip2/decompress.c:322-335 | every table of code lengths is read back equal |
| `SendMtf.PutSymbols` | lib/bzip2/compress.c:544-591 | every symbol is written with the table of its group of 50, the unrolled case included |
| `SymbolBits.ReadSyms` | lib/bzip2/decompress.c:381-492 | all symbols up to the end mark are read back with the tables of their groups |
| `TableChoice.FullGroupCosts` | lib/bzip2/compress.c:356-385 | adding two 16-bit costs at a time in one word never lets one run into the other: the result is that of the plain loop |
| `TableChoice.InitialTables` | lib/bzip2/compress.c:279-318 | the first tables: each is cheap for one stretch of the alphabet, no symbol is cheap in two, and every symbol that occurs is cheap in one |
| `TableChoice.SelectTables` | lib/bzip2/compress.c:345-435 | every group gets a cheapest table, and the frequencies collected for a table are those of the groups that selected it, one behind the other |
| `TableChoice.ChooseTables` | lib/bzip2/compress.c:266-458 | after four rounds every table is a complete code of lengths up to 17 for the whole alphabet, every selector names a table, and no code is shorter for the symbols of the groups that selected a table, each counted as often as it occurs in them and at least once; only if these are too many (Fibonacci number 20 or more together) may the counts be rescaled |
| `SendValues.SendMtfValues` | lib/bzip2/compress.c:239-598 | map, selectors, tables and symbols are written one after the other, with 2 to 6 admissible tables and at most 18002 selectors |
| `WholeBlock.ReadBlock` | lib/bzip2/decompress.c:220-492 | everything compressBlock serialises for a block is read back equal |
| `StreamBits.ReadTrailer` | lib/bzip2/decompress.c:588-612 | the end mark and the combined checksum are read back |
| `BlockText.BlockSurvives` | lib/bzip2/decompress.c:355-582 | all stages together: a block that was sorted and coded comes out as the bytes of its runs, and with the right checksum |
| `BlockCoder.CodeBlock` | lib/bzip2/compress.c:602-667 | whatever the bytes of a block, what is written for it is read back and comes out as the bytes of its runs |
| `BlockWriter.WriteBlock` | lib/bzip2/compress.c:602-667 | stream header, block and trailer: what has been written so far is always the beginning of a stream from which a decoder gets the blocks handed over |
| `Compressor.EState.AddPair` | lib/bzip2/bzlib.c:216-247 | the growing run becomes part of the block: its code, its marks in inUse and its checksum |
| `Compressor.EState.AddChar` | lib/bzip2/bzlib.c:259-284 | one more byte is fed, with runs cut at 255, and at most five bytes enter the block |
| `Compressor.EState.CopyInput` | lib/bzip2/bzlib.c:288-329 | input is taken in order until the block is full or the input used up; nblock stays below its limit |
| `Compressor.EState.CopyOutput` | lib/bzip2/bzlib.c:333-356 | output is handed out in order until the buffer is full or everything is written |
| `Compressor.EState.CompressBlock` | lib/bzip2/compress.c:602-667 | the block is handed over once, and the trailer written with the last one |
| `Compressor.EState.HandleCompress` | lib/bzip2/bzlib.c:360-403 | it terminates, conserves input and output, and stops only when there is nothing left to do |
| `Compressor.EState.BzCompress` | lib/bzip2/bzlib.c:407-464 | for every sequence of calls with any actions and buffers: input eaten and output made are conserved, flush and finish report done only when everything is handed out, and the end only after one trailer; which code is answered is fixed by the mode, the action, whether a flush or finish is offered the input it expects, and whether anything could be moved |
| `Compressor.EState.Restored` | lib/bzip2/bzlib.c:407-464 | once the end has been reported the output decompresses to all the input, whatever the calls were |
| `Compressor.BuffToBuffCompress` | lib/bzip2/bzlib.c:1247-1295 | if the result fits, it decompresses to the source; with room for 3 bytes per byte of source and 6600 more it always fits; parameters are refused exactly outside their ranges, and a sequence error means an empty source and no room |
| `BlockDecoder.OpenBlock` | lib/bzip2/decompress.c:381-582 | for every block that can be read, corrupt or not, randomised or not, FAST or SMALL: what the output stage has left to do is what the block stands for |
| `Decompressor.Stream.BzDecompress` | lib/bzip2/bzlib.c:808-858 | for every sequence of calls with any pieces of input and any room: the end is reported exactly when the text that the input stands for is complete, an error only if no continuation of the input stands for any text, and otherwise output or input is used up; the text is that of the format (`ReaderText.DecompressedIs`), and a wrong magic is told from other errors |
| `Decompressor.Stream.NeverAhead` | lib/bzip2/bzlib.c:808-858 | whatever input follows, what has been put out is the beginning of the text |
| `Decompressor.BuffToBuffDecompress` | lib/bzip2/bzlib.c:1299-1348 | succeeds if and only if the source is a compressed text that fits, and gives that text; a text that does not fit is reported as such, with its beginning in the full buffer, an unexpected end only if the source stops before the stream does, and a bad magic exactly if the source does not begin with BZh and a digit from 1 to 9 |
| `Compressor.EState.Continues` | lib/bzip2/bzlib.c:407-464 | at any moment what has been handed out is the beginning of a compressed form of what has been packed, and that is the beginning of what was taken in |
| `Compressor.EState.Flushed` | lib/bzip2/bzlib.c:445-452 | when a flush has reported that it is done, what was handed out and the at most 32 bits left in the word deliver all that was taken in |
| `Decompressor.AnyCutting` | lib/bzip2/bzlib.c:407-464 | at any moment, whatever calls have fed the compressor and whatever calls have handed its output, or the beginning of it, to the decompressor: what has come out is the beginning of what was fed, and no error is ever reported; once the compressor has reported the end, the decompressor reports it with all that was fed, and not later than with the last of the output |
| `Decompressor.RoundTrip` | lib/bzip2/bzlib.c:1247-1348 | one call on each side: what was compressed comes back from the packed bytes, which are a compressed form of it for every table of counts, and with enough room it always can be |
| `RangeCoder.RangeEnc.ShiftLow` | lib/libarchive/archive_ppmd7.c:984-999 | one more digit is decided or held back, and a carry through any number of 0xFF digits is resolved |
| `RangeCoder.RangeEnc.Encode` | lib/libarchive/archive_ppmd7.c:1001-1010 | the interval shrinks to the part of the symbol and is scaled up again |
| `RangeCoder.RangeEnc.EncodeBit` | lib/libarchive/archive_ppmd7.c:1012-1032 | the same for a binary step |
| `RangeCoder.RangeEnc.FlushData` | lib/libarchive/archive_ppmd7.c:1034-1039 | the bytes spell the lower end of the last interval |
| `RangeCoder.RangeDec.GetThreshold` | lib/libarchive/archive_ppmd7.c:770-774 | the threshold falls on the symbol that was encoded |
| `RangeCoder.RangeDec.DecodeBit` | lib/libarchive/archive_ppmd7.c:809-827 | the bit that was encoded comes back |
| `RangeCoder.RoundTrip` | lib/libarchive/archive_ppmd7.c:745-827 | for every run of legal steps: the bytes in between spell the lower end of the interval that the steps lead to and begin with 0, every threshold falls within its symbol, every bit comes back, and the decoder ends with Code equal to 0 |
| `Blake2s.State.IncrementCounter` | lib/libarchive/archive_blake2s_ref.c:63-67 | the two 32-bit words count 64 bits with carry |
| `Blake2s.State.Update` | lib/libarchive/archive_blake2s_ref.c:216-241 | after any piece the state is that of all input so far, with at least one byte held back |
| `Blake2s.State.Final` | lib/libarchive/archive_blake2s_ref.c:243-265 | the result is the hash of everything seen (what kind of hash that is, `Blake2Collide.HashCollides` says), and a second call is refused |
| `Blake2s.HashPieces` | lib/libarchive/archive_blake2s_ref.c:216-265 | however a message is cut into updates, the hash is that of the message, which differs for different messages unless the compression function collides (`Blake2Collide.HashCollides`) |
| `Blake2sp.Tree.Update` | lib/libarchive/archive_blake2sp_ref.c:135-183 | after any piece the eight leaves and the buffer hold exactly the stripes of all input so far |
| `Blake2sp.Tree.Final` | lib/libarchive/archive_blake2sp_ref.c:186-213 | the root hashes the results of the eight leaves on their whole messages |
| `Blake2sp.OneShot` | lib/libarchive/archive_blake2sp_ref.c:216-291 | the one-shot function gives the same tree hash |
| `Blake2sp.StreamAgrees` | lib/libarchive/archive_blake2sp_ref.c:135-291 | however a message is cut into updates, the result is the tree hash of the message, and so that of the one-shot function |
| `LinkTable.AddHead` | lib/libarchive/archive_entry_link_resolver.c:366-377 | entering a link at the head of its chain adds its key to the map |
| `LinkTable.RemoveAt` | lib/libarchive/archive_entry_link_resolver.c:295-307 | unlinking a chain member removes exactly its key from the map |
| `LinkTable.ReplaceAt` | lib/libarchive/archive_entry_link_resolver.c:286-294 | changing count or held entry in place changes the map at that key only |
| `LinkResolver.Rehash` | lib/libarchive/archive_entry_link_resolver.c:398-416 | moving all chains to twice as many buckets keeps the map |
| `LinkResolver.Resolver.FindEntry` | lib/libarchive/archive_entry_link_resolver.c:259-309 | a key is found exactly if it is in the map; its count goes down, and with the last one it leaves the map |
| `LinkResolver.Resolver.InsertEntry` | lib/libarchive/archive_entry_link_resolver.c:350-380 | the map gains the new link, growth included |
| `LinkResolver.Resolver.NextEntry` | lib/libarchive/archive_entry_link_resolver.c:311-348 | a link of the wanted kind is taken out of the map if there is any |
| `LinkResolver.Resolver.Respond` | lib/libarchive/archive_entry_link_resolver.c:190-257 | the chains do for an entry what the protocol does on the map, for all four strategies |
| `LinkProtocol.Conserves` | lib/libarchive/archive_entry_link_resolver.c:172-257 | an entry given and those held before are, as multisets, those handed back and those held after |
| `LinkResolver.Resolver.Linkify` | lib/libarchive/archive_entry_link_resolver.c:172-257 | over every run of calls, draining included, what was given is what was returned and what is held; draining comes to an end, and then every entry has been returned exactly once |
| `LinkResolver.Resolver.PartialLinks` | lib/libarchive/archive_entry_link_resolver.c:419-445 | a group not fully seen is reported with the links still missing, and nothing held is lost or released with it |
| `LinkResolver.Resolver.Free` | lib/libarchive/archive_entry_link_resolver.c:158-169 | each entry still held is released twice, once by the loop and once by the next lookup; so what is held is released exactly once if and only if nothing is, as after draining |
| `LinkProtocol.GroupLaw` | lib/libarchive/archive_entry_link_resolver.c:220-252 | however the groups are mixed, in the new cpio way all entries of a group but the latest have come back as hard links to the first without sizes, and the latest is held until the last one is seen |
| `LinkProtocol.FullGroup` | lib/libarchive/archive_entry_link_resolver.c:220-252 | in a fully seen group only the last entry keeps its size |
| `LinkProtocol.FollowLaw` | lib/libarchive/archive_entry_link_resolver.c:200-216 | in the tar and mtree ways the first of a group comes back as it is and all others as links to it |
| `PpmdModel.FillTables` | lib/libarchive/archive_ppmd7.c:100-115 | the tables of Ppmd7_Construct name a row of See from 0 to 24 for every number of symbols, and the columns of binary contexts |
| `PpmdModel.ProbInside` | lib/libarchive/archive_ppmd_private.h:93-96 | a binary probability never reaches either end of its scale of 2^14, whichever way it is updated; which way that is, `PpmdLearns.ProbMoves` says |
| `PpmdModel.BinInside` | lib/libarchive/archive_ppmd7.c:21-26 | in a well-formed model the place that Ppmd7_GetBinSumm computes lies within the 128 x 64 table |
| `PpmdModel.ChosenInside` | lib/libarchive/archive_ppmd7.c:667-690 | and the estimator that Ppmd7_MakeEscFreq picks within the 25 x 16 table |
| `PpmdSteps.Descends` | lib/libarchive/archive_ppmd7.c:926-933 | the suffixes skipped on an escape hold exactly the symbols already masked, so that no byte is lost on the way down; only the end mark gets past the last context |
| `PpmdSteps.CodedMeans` | lib/libarchive/archive_ppmd7.c:1044-1152 | for every well-formed model and every byte or end mark: each step of coding it is one the range coder can take, through any number of escapes |
| `PpmdScan.Scan` | lib/libarchive/archive_ppmd7.c:1120-1147 | the encoder, masking as it goes, arrives at the part of the symbol and the sum of all that is not masked |
| `PpmdScan.Gather` | lib/libarchive/archive_ppmd7.c:934-945 | the decoder stops its scan early, and still has all open symbols and their sum |
| `PpmdScan.OnePart` | lib/libarchive/archive_ppmd7.c:951-963 | a count falls into the part of one open symbol only, so that encoder and decoder name the same one |
| `PpmdCoder.Ppmd7.EscapeDown` | lib/libarchive/archive_ppmd7.c:926-933 | the loop over the suffixes stops, at the context that the model says, or at the root |
| `PpmdCoder.Ppmd7.MakeEscFreq` | lib/libarchive/archive_ppmd7.c:667-690 | the estimator gives its share, never zero, and keeps the rest |
| `PpmdCoder.Ppmd7.EncodeSymbol` | lib/libarchive/archive_ppmd7.c:1044-1152 | the range coder takes exactly the steps of the symbol, and the model ends as coding the symbol leaves it; what coding changes in the model is said by the lemmas of `PpmdLearns` |
| `PpmdCoder.Ppmd7.DecodeSymbol` | lib/libarchive/archive_ppmd7.c:862-970 | on a stream that continues with the steps of a symbol, that symbol is returned (-1 for the end mark), exactly its steps are read, and the model is the one the encoder has |
| `PpmdMessage.RoundTrip` | lib/libarchive/archive_ppmd7.c:862-1152 | from equal models, as long as the models stay well-formed: the bytes in between spell the lower end of the interval that the coding steps of the message lead to, every message comes back, both models are those after the message, and Code ends at 0 |
| `PpmdMessage.RestartGood` | lib/libarchive/archive_ppmd7.c:319-373 | the model after RestartModel and Ppmd7_Init is well-formed |
| `PpmdRescale.Sink` | lib/libarchive/archive_ppmd7.c:626-634 | a state takes its place among the larger frequencies before it, and nothing is lost |
| `PpmdRescale.Rescale` | lib/libarchive/archive_ppmd7.c:603-665 | the states are the halved ones in order of frequency with the found one first; states that vanish are dropped, none of them unless OrderFall is 0; the sum keeps half of what the escape had, rounded up; a lone state that is left has its frequency halved as often as that count can be |
| `PpmdRescale.StaysGood` | lib/libarchive/archive_ppmd7.c:603-665 | a well-formed context stays well-formed, the one-state form included, and knows no new symbol |
| `PpmdUnits.Construct` | lib/libarchive/archive_ppmd7.c:93-98 | the loops fill Indx2Units and Units2Indx with the 38 classes |
| `PpmdUnits.ClassFits` | lib/libarchive/archive_ppmd7.c:93-98 | the class of a size is the smallest that is large enough, and what splitting leaves over is at most three units and so a class of its own |
| `PpmdUnits.Balance` | lib/libarchive/archive_ppmd7.c:152-309 | free units, live units and the gap always add up to the memory |
| `PpmdLists.RemoveListed` | lib/libarchive/archive_ppmd7.c:158-163 | taking the first block of a list hands out a block of that class and keeps all lists |
| `PpmdLists.UnlinkRing` | lib/libarchive/archive_ppmd7.c:224-225 | taking a node out of the ring of free nodes leaves a ring of the others |
| `PpmdGlue.Neighbour` | lib/libarchive/archive_ppmd7.c:216-226 | a zero stamp right behind a block is that of a free node in the ring: neither the gap, the end nor a live block shows one |
| `PpmdAlloc.Allocator.LinkAll` | lib/libarchive/archive_ppmd7.c:192-207 | all free blocks are linked, the lists emptied, and no live block touched |
| `PpmdAlloc.Allocator.GlueAll` | lib/libarchive/archive_ppmd7.c:214-229 | every node takes in the free blocks right behind it: afterwards two free blocks lie side by side only if they have 65536 units or more together; the same units stay free |
| `PpmdAlloc.Allocator.GiveBack` | lib/libarchive/archive_ppmd7.c:231-246 | a free stretch goes to one list or in two pieces to two, the same units staying free |
| `PpmdAlloc.Allocator.GlueFreeBlocks` | lib/libarchive/archive_ppmd7.c:177-247 | gluing terminates and glues: afterwards a free block is followed by another one only if it has the largest size there is, or no list has blocks of their size together, or they are part of 65536 free units; the same units stay free, nothing is lost and no live block touched, provided live blocks start with a non-zero 16-bit word |
| `PpmdAlloc.Allocator.SplitBlock` | lib/libarchive/archive_ppmd7.c:165-175 | what the smaller class does not need is free afterwards, and nothing else |
| `PpmdAlloc.Allocator.AllocUnitsRare` | lib/libarchive/archive_ppmd7.c:249-273 | a block of exactly the class, new or split off, or from the text side; 0 only if no free block is large enough and the text leaves no room; the count to the next gluing goes down exactly if no list has a larger block |
| `PpmdAlloc.Allocator.AllocUnits` | lib/libarchive/archive_ppmd7.c:275-287 | a block of exactly Indx2Units[i] units that overlaps nothing live or free; live blocks keep what they hold; 0 only if the gap is too small as well |
| `PpmdAlloc.Allocator.ShrinkUnits` | lib/libarchive/archive_ppmd7.c:294-309 | the first units keep what they hold, in place or moved, the rest is given back, and no other live block is touched |
| `PpmdAlloc.Allocator.AllocContext` | lib/libarchive/archive_ppmd7.c:427-437 | one unit for a context, in the same sense, with 0 only if no unit is free, the gap is empty and the text leaves no room |
| `PpmdAlloc.Allocator.Restart` | lib/libarchive/archive_ppmd7.c:319-336 | after a restart the root context and its symbols are the only live blocks |
| `PayloadSize.PayloadFits` | lib/bzip2/compress.c:602-667 | what is written for a block of n bytes takes at most Room(n) bits |
| `BlockWriter.ZbitsFit` | lib/bzip2/compress.c:619-619 | zbits, which starts behind the block in arr2, stays inside arr2 |
| `Compressor.EState.Small` | lib/bzip2/bzlib.c:407-464 | without a flush, less than 3 bytes for every byte of input and 6600 more have been handed out at any time |
| `HuffmanOptimal.Siblings` | lib/bzip2/huffman.c:100-105 | whatever lengths the roots have within Kraft's inequality, lengths that cost no more give the two lightest roots the same, greatest length |
| `HuffmanOptimal.BestMerges` | lib/bzip2/huffman.c:97-112 | merging the two lightest roots keeps up with every rival code: the merges made so far and some lengths for the roots cost no more |
| `HuffmanOptimal.TreeCost` | lib/bzip2/huffman.c:114-121 | the depths of the leaves, weighted, add up to the weights of all merges |
| `HuffmanLengths.TreeIsShortest` | lib/bzip2/huffman.c:97-121 | the depths in a finished tree are the shortest code for its weights among all length tables that satisfy Kraft's inequality |
| `ReaderRuns.InUseRuns` | lib/bzip2/decompress.c:266-284 | on any bits the automaton takes the map of used bytes as the format says: a flag for each sixteen bytes, and sixteen flags where it is set; no byte in use is an error |
| `ReaderCodes.SelectorsRun` | lib/bzip2/decompress.c:291-306 | on any bits: a count from 1 to 32767, as many unary numbers below the number of tables, and the first 18002 of them are kept |
| `ReaderCodes.TablesRun` | lib/bzip2/decompress.c:322-335 | on any bits: every table is read as five bits and steps up and down, and refused exactly if a length leaves 1 to 20 |
| `ReaderSymbols.SymbolsRun` | lib/bzip2/decompress.c:381-492 | on any bits: symbols are decoded with the tables that the selectors name, fifty with each, up to the end mark |
| `ReaderStream.BlocksRun` | lib/bzip2/decompress.c:222-265 | on any bits: blocks with their magic, checksum, randomised flag and position, up to the end mark and the combined checksum |
| `ReaderText.Reads` | lib/bzip2/decompress.c:194-612 | on any bits at all the resumable reader ends where the grammar of the format does, with the same blocks and checksums, fails where the grammar does, a wrong magic apart from other errors, and waits exactly where the grammar has too few bits |
| `ReaderText.DecompressedIs` | lib/bzip2/decompress.c:194-612 | the text that any bytes stand for is that of the blocks that the grammar finds in their bits |
| `ReaderText.SurplusSkipped` | lib/bzip2/decompress.c:295-306 | selectors beyond 18002 are read and change nothing: reading goes on as if they had not been there |
| `ReaderText.SurplusText` | lib/bzip2/decompress.c:299-306 | two files that differ only in surplus selectors, wherever in them, stand for the same text |
| `ReaderText.Tells` | lib/bzip2/decompress.c:194-216 | the reader has failed with a bad magic exactly if the bits do not begin with BZh and a digit from 1 to 9, and waits for more exactly if they stop within a stream |
| `RandMask.Stretch` | lib/bzip2/bzlib_private.h:133-150 | behind a stretch the next has as many bytes as the next count says, the table of 512 counts is gone round, and the last byte but one of every stretch is turned over, no other one |
| `HuffmanLengths.EasedBounds` | lib/bzip2/huffman.c:80-80 | the rescaled frequencies are the frequencies (at least 1) over a power of two, more than that by less than 2, and never change their order |
| `HuffmanLengths.ShortestCosts` | lib/bzip2/huffman.c:142-146 | a code that is shortest for the weights is cheapest for the frequencies that they stand for |
| `PpmdLearns.ProbMoves` | lib/libarchive/archive_ppmd_private.h:93-96 | a hit takes the probability of a hit one part in 128 of the way up, an escape as far down, up to rounding |
| `PpmdLearns.BinaryHitLearns` | lib/libarchive/archive_ppmd7.c:905-912 | a symbol found in a binary context: the probability that was used rises, all other probabilities and everything else but flag and found state stay as they are, and then the update is made |
| `PpmdLearns.BinaryMissLearns` | lib/libarchive/archive_ppmd7.c:914-919 | an escape from a binary context: the probability that was used falls, all others stay, and InitEsc becomes a number from 2 to 25 |
| `PpmdLearns.ExpectedFalls` | lib/libarchive/archive_ppmd7.c:915-915 | the likelier a hit was, the smaller InitEsc |
| `PpmdLearns.HitShare` | lib/libarchive/archive_ppmd_private.h:112-113 | a symbol found after escapes: the share of the escape does not grow, and shrinks as soon as it has 2^Shift; when Count runs out the estimator learns half as fast, without a jump, until Shift is 7 |
| `PpmdLearns.MissShare` | lib/libarchive/archive_ppmd7.c:967-967 | one more escape: the sum is added, and the share of the escape grows, unless 16 bits overflow |
| `PpmdLearns.EscapeLearns` | lib/libarchive/archive_ppmd7.c:954-967 | both change the estimator that was picked, and no other one |
| `PpmdMessage.Restart` | lib/libarchive/archive_ppmd7.c:319-373 | the loops fill contexts, binSumm and See as the model after a restart has them |
| `Blake2Collide.HashCollides` | lib/libarchive/archive_blake2s_ref.c:216-265 | for every compression function: two messages below 2^64 bytes, or one as last node and not, that hash alike give two different inputs that the function takes to the same value; so block, counter and flags leave nothing of a message out |
| `Blake2Collide.HashIsNoChain` | lib/libarchive/archive_blake2s_ref.c:254-257 | a hash is not also a chaining value on the way of a longer message, unless the compression function collides |
| `Blake2Collide.LeafByte` | lib/libarchive/archive_blake2sp_ref.c:135-183 | byte x of a message goes to leaf x % 512 / 64, behind the key at place 64 * (x / 512) + x % 64 |
| `Blake2Collide.TreeCollides` | lib/libarchive/archive_blake2sp_ref.c:186-213 | two messages with the same tree hash give a collision of the compression function, in a leaf or in the root |
| `LinkProtocol.PassedOn` | lib/libarchive/archive_entry_link_resolver.c:189-219 | directories, devices, entries with one link, and all entries in the old cpio way come back at once as they are; any other entry that is new enters the table, held back in the new cpio way only |
| `LinkProtocol.OldCpioRuns` | lib/libarchive/archive_entry_link_resolver.c:217-219 | in the old cpio way a whole run returns the entries as they were given |

## Left out

- The stdio layer, verbosity printing, custom allocators and failures of allocation, null-pointer and `strm` checks, and the total byte counters of `bz_stream`.
- The values of the checksum tables and of the table of counts for randomised blocks: the update of a checksum, its combination and the counts are parameters of every result.
- Words as bits: shifts, masks and ORs on packed words are written as multiplication, division, remainder and addition; the header bits of `fallbackSort` are an array of booleans, in which the word-wise scans step over 32 entries that are all set or all clear.
- Aliased buffers are separate arrays (`ptr` and `mtfv` in arr1, `block` and `zbits` in arr2, `eclass` and the block in `fallbackSort`), and the work arrays of a block are allocated for it. The bound that lets `mtfv` share storage with `ptr`, never writing beyond the read position, is part of `MtfStage.GenerateMtfValues`, and that `zbits` stays inside arr2 is `BlockWriter.ZbitsFit`.
- `copy_input_until_stop` and the fast and general forms of unrolled loops are one loop where they do the same statements; `bsLive` is decreased below zero in the code of `bsFinishWrite` and set to zero here.
- Decoder.Feed: the code resumes in the middle of `BZ2_decompress` by a switch over saved locals; here the place to resume is the label of the automaton and the locals are its variables. The error that a symbol of the MTF stage causes is raised when the whole block has been read, so that a truncated stream may be reported as incomplete where the code already reports bad data.
- Decompressor.Stream.BzDecompress: after an error the code may be called again; what it does then is not modelled.
- Compressor.EState.Flushed: which part of the last block a decoder can already hand out without the bits that are left in the word is not stated.
- Compressor.BuffToBuffCompress: the room that is shown to suffice is 3 bytes for every byte of input and 6600 more; the 1% and 600 bytes that the manual asks for are not shown to suffice.
- MainCompare.MainGtU: the depth argument counts symbols that both rotations are known to share, which the code leaves implicit.
- HuffmanLengths.MakeCodeLengths: the weight sum is assumed to stay below 2^23, which block sizes up to 900000 guarantee. After a rescaling the code is the shortest one for the rescaled weights, not for the frequencies.
- TableChoice.ChooseTables: that the four rounds make the output shorter is not a property of the code.
- LinkResolver.Resolver.Free: `links_entry` nodes are not counted, only entries; the null check is left out.
- LinkResolver.Resolver.Linkify: entries carry an id to tell them apart, chains are sequences instead of doubly linked nodes, the hash of (dev, ino) is a parameter, and failures of `calloc` are left out. An entry with a link count of zero expects 2^32 - 1 more, as the unsigned subtraction in the code does, and is covered by the group laws.
- Blake2s.State.Final: the compression function, the parameter block and the order of bytes are parameters; a digest length other than the full one is not modelled.
- RangeCoder.RoundTrip: the RAR form of the range decoder has no encoder in the repository and is left out.
- PpmdMessage.RoundTrip: Ppmd7_Update1, Update1_0, Update2 and UpdateBin, which encoder and decoder share, are parameters of the model, and that each model on the way is well-formed is a condition on the message (`Healthy`); that UpdateModel and CreateSuccessors keep it so is not proved.
- PpmdCoder.Ppmd7.EncodeSymbol: contexts are kept by their places in a map with their order, and the char mask is the set of masked symbols. A stream that was not made by the encoder (return value -2) is not modelled.
- PpmdRescale.Rescale: the found state has a frequency of 125 to 128 and the others at most 124, as the callers leave it. The old units go back as `PpmdAlloc.Allocator.ShrinkUnits` and `PpmdAlloc.Allocator.Release` say; the call itself is not part of the method.
- PpmdAlloc.Allocator.AllocUnits: places are counted in units of 12 bytes, and a unit is three little-endian words; that live blocks start with a non-zero 16-bit word is a condition, as in the code's own comment.
- The rest of PPMd7 (UpdateModel, CreateSuccessors), `ppmd8`, and all other parts of libarchive.
