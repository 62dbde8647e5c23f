# libqbz2: a verified model of the codec

libqbz2 is a bzip2 codec written in C. Each stage of compression has a matching stage of
decompression, and several stages have a fast form that must agree with a simple one. This
project models both state machines and every stage between them, and proves that they fit.

The project is written in Dafny 4.11. `dafny verify dfyconfig.toml` checks all of it.

## The main results

- **What goes in comes out.** `Codec.FullCircle`: any finished compressor, driven by any legal
  RUN / FLUSH / FINISH calls with any buffer sizes, and a decompressor of either form fed its
  output with anything after it, in any pieces, with any room. No error is ever reported, what
  is out is always a prefix of what went in, and a reported end means exactly the stream was
  taken and exactly the input put out.
- **Each machine on its own.** `Compressor.Machine.Compress` and `.Faithful`;
  `Decompressor.Machine.Decompress`, whose every verdict is borne out by the bytes taken.
- **Chunking does not matter.** `Reader.Decoder.Decompress` and `Reader.FeedTwice`: the 64-bit buffer with
  its four-byte and one-byte refills, suspension at any bit and the choice of symbol path by what is
  buffered reach the state that the bits alone determine, and give back exactly the unread bytes at
  stream end. `Decompressor.FormsAgree`: two decompressors, FAST or SMALL, that have taken the same bytes in
  any pieces have given the same output.
- **What is written is pinned byte by byte.** `Compressor.Machine.Written`: the output of a finished stream
  is "BZh" and the level, six magic bytes before every block, the end magic and a trailer whose bit j is the
  parity of certain bits of the block CRCs. `Stream.EndParity` says the same of every stream a session accepts,
  and `Decompressor.Machine.Decompress` decides between its two error replies by the bytes taken alone.
- **The coding is the canonical one.** `RunLength.FrontEnd.Canonical`: block and pending run are the one
  coding of the bytes held into runs of at most 255 that nothing could lengthen. `Compressor.Machine.BlocksCut`:
  a block that no FLUSH or FINISH ended is full, and was not full before its last run.
- **The code lengths are optimal.** `Huffman.TreeOptimal`: no lengths with Kraft sum at most one cost less than
  the depths of the greedy tree. `CodeLengths.MakeCodeLengths` hands this on for the frequencies as halved,
  where they are halved only as often as an optimal code is too long.
- **No guard trips.** `BlockCompress.BlockRoundTrip`: from complete code lengths and one selector for every 50
  symbols, nothing more assumed, every printed block is read back as its column.
- **Fast forms refine simple ones.** Two-level decoding tables (`Reader.PrimaryHit`, `Reader.OverflowHit`),
  slicing-by-8 and carry-less-multiply CRC-32, packed 16-bit cost sums, the FAST and SMALL inverse block sort and output loops, and the
  two block sorters.
- **Sorting.** Prefix doubling with an overlaid class array, the doubled-string suffix array, and the
  last stage of libsais from sorted LMS suffixes to the suffix array. `PlaceLms.SortFromLms` is a result
  of its own: for a block of 10000 bytes or more `BlockCompress.SortBlock` takes its suffix array from the
  contract `Suffixes.SuffixArrayOf`, so `Codec.FullCircle` does not rest on the induction stage.
- **Bounds.** Every array access and every assertion of the source that the model reaches is in
  range: selectors, quicksort stack, Huffman depth field, compressed output behind the block.

## How the model is laid out

Bits are `seq<bool>`, most significant first; blocks are `seq<Byte>`; machine words are natural
numbers with every truncation and wrap written out. Code that updates state is a method over
arrays or a class, proved against a function of its inputs; what the format promises is then
proved about that function.

| file | part of the codec |
|---|---|
| Bits, Reader, BitWriter | bit order, both 64-bit bit buffers |
| Heap, Forest, Huffman, CodeLengths | the heap, the merged trees, why their depths are optimal, code lengths |
| Codes, FastTable | canonical codes, decoding tables |
| Parser, Printer, Layout, Sender, Refine | the block format: reading it, what it says, its literal bytes and limits, writing it |
| Mtf | move-to-front and run coding, in place over the sort array |
| Rotations, ByteCounts, InverseBwt | the block sort as strings, the byte counts kept while decoding, and the inverse in both forms |
| Bitmap, QuickSort, Cyclic, PrefixSort | fallbackSort |
| Suffixes, Induce, PlaceLms | suffix arrays, doubled blocks, the end of libsais |
| Gf2, Crc, CrcTable, FoldConstants, ClmulCrc | CRC-32 in its three forms, its table and constants |
| Expansion, Output, RunLength | run-length coding of the block |
| Stream, BlockCompress, Cutting, Compressor, Decompressor, Codec | whole streams, where blocks end, and the two machines |

The CRC generator is the one of section 3.2.9 of IEEE 802.3, most significant bit first and not
reflected. The container format has no public standard; the code is the definition.

Four things the code does that a reader might not expect, followed as they are:

- The end of input is looked at before the block being full (src/bzlib.c:390-399), so where the input is
  cut into RUN and FINISH calls can decide where a block ends. The theorems claim that the output
  of any legal calls decodes to the input and how a block may end, and nothing about two outputs being
  the same bytes.
- The first field read takes four bytes when four are there (src/decompress.c:55-68), so a call that
  refuses the first byte of a header may have taken up to three bytes behind it (`Reader.FourAtOnce`).
- In a periodic block several rotations are equal, the two sorters may order them differently, and
  the T vector splits into several cycles. Only the column of last bytes is determined
  (`Suffixes.SortersAgree`), and the inverse is proved on strings, not on indices.
- A FINISH call that can neither take a byte nor put one out, because the output is full, reports a
  sequence error (src/bzlib.c:463); one that took input reports FINISH_OK. `Compressor.Machine.Compress`
  says exactly when.

## Model

| member | source | states |
|---|---|---|
| Codec.FullCircle | src/bzlib.c:415-472 | a finished compressor's output followed by anything, fed in any pieces to a decompressor of either form: never an error, the output so far is a prefix of the input, nothing to wait for once the stream is taken, and at the reported end exactly the stream was taken and exactly the input put out |
| Compressor.Machine.constructor | src/bzlib.c:142-205 | a new stream is in RUNNING mode with nothing taken and nothing put out |
| Compressor.Machine.Compress | src/bzlib.c:415-472 | one call with any action and buffers: a call that does not fit the mode changes nothing; RUN stops only for want of input or room; FLUSH ends with every byte taken inside a printed block; FINISH reports the end exactly when nothing is left; otherwise the output is full; what is taken and put out is accounted for byte by byte; a block is ended early only by a FLUSH or FINISH call that has taken all its input |
| Compressor.Machine.HandleCompress | src/bzlib.c:367-409 | the alternation of input and output keeps the machine's invariant, reports progress exactly when a byte moved, and stops only when input or room has run out or the request is complete |
| Compressor.Machine.CopyInput | src/bzlib.c:298-331 | bytes go into block and run until the block is full, the input is empty or the promised bytes are taken; nothing is lost or reordered |
| Compressor.Machine.CopyOutput | src/bzlib.c:339-359 | as much pending output as fits is handed over, in order |
| Compressor.Machine.NextBlock | src/bzlib.c:104-113 | the next block starts empty with the pending run carried over, nothing put out lost |
| Compressor.Machine.CompressBlock | src/compress.c:582-641 | header (first block only), block and trailer (last block only) are appended to the stream's bits; the block's text joins what the stream stands for, and it ends where a block may end; combined CRC and room for the output are kept |
| Compressor.PutStreamHeader | src/compress.c:601-608 | the 32 bits of the stream header are appended |
| Compressor.PutTrailer | src/compress.c:630-640 | the 80 bits of end magic and combined CRC are appended |
| Compressor.Machine.Faithful | src/bzlib.c:415-472 | after any calls that end the stream, the bytes handed out decode, with all CRC checks passed and fewer than 8 zero bits left over, to exactly the bytes taken |
| Compressor.Machine.Written | src/compress.c:582-641 | the output of a finished stream, but for fewer than 8 zero bits, is the bytes 42 5a 68 and the digit of the level, then, if there is a block, the bytes 31 41 59 26 53 59 and the first CRC, and ends in the bytes 17 72 45 38 50 90 and 32 bits of which bit j is the parity over the blocks i of bit (j + n - 1 - i) % 32 of block i's CRC; the blocks' texts joined are the bytes taken |
| Compressor.Machine.BlocksCut | src/bzlib.c:298-331 | after any calls, every block is the coding of its runs; one not ended by FLUSH or FINISH has reached 100000 * level - 19 bytes with its last run and not before, and the next block begins with a run of its own; one ended early was not full before its last two runs |
| BlockCompress.SortBlock | src/blocksort.c:345-373 | for every block, below and above 10000 bytes, ptr lists all rotations in order, origPtr is where rotation 0 stands, and the block is intact |
| BlockCompress.PrintBlock | src/compress.c:610-626 | the block's bits are those of a record that sorts, encodes and checks the block's text; its tables and selectors are those of four rounds over its symbols, from seeds cut by the counts of the symbols; they fit behind the block; the block is intact |
| BlockCompress.BlockRoundTrip | src/compress.c:582-641 | a block whose lengths are complete codes of at most 17 bits, whose selectors are one for every 50 symbols and whose symbols are its column's is read back as exactly that column, whatever follows |
| BlockCompress.PutBlockHeader | src/compress.c:612-623 | the bytes 31 41 59 26 53 59, 32 bits of CRC, the zero randomisation flag and 24 bits of origPtr are appended |
| RunLength.FrontEnd.AddChar | src/bzlib.c:268-290 | block and pending run then stand for one more byte, and are the coding of all bytes held into maximal runs, the last of them pending; at most five bytes are added to the block |
| RunLength.FrontEnd.AddPair | src/bzlib.c:212-249 | the pending run enters the block: the block expands to everything held, its CRC is of exactly those bytes, inUse is exactly the set of bytes in the block, nblock stays within 9 of the limit |
| RunLength.FrontEnd.FlushRL | src/bzlib.c:256-260 | the run is closed: the block alone stands for all that was held |
| RunLength.FrontEnd.PrepareNewBlock | src/bzlib.c:104-113 | an empty block, the pending run kept |
| RunLength.FrontEnd.Canonical | src/bzlib.c:268-290 | at any time the coded runs and the pending one are the maximal runs of the bytes held, and the block is the coding of all of them but the pending one |
| RunLength.RunsUnique | src/bzlib.c:282-288 | two lists of runs of 1 to 255 bytes that stand for the same bytes, where a run follows one of the same byte only if that is 255 long, are equal |
| RunLength.RunsAre | src/bzlib.c:282-288 | splitting what such a list stands for gives the list back |
| RunLength.ExpandSplit | src/bzlib.c:212-249 | a block cut where a new run starts expands part by part |
| RunLength.ExpandPair | src/bzlib.c:226-248 | appending a run's one to five bytes appends exactly the run to the expansion |
| Expansion.RestExpands | src/bzlib.c:775-812 | reading a block byte by byte as the output loops do gives its expansion; a block that ends inside a run is found by both, the loops having written that run as well, 4 to 259 bytes of it |
| Stream.RoundTrip | src/compress.c:582-641 | a stream of printed blocks, whatever follows it, decodes to the concatenated texts, passes every CRC check and ends at its last bit |
| Stream.DecodeBlocks | src/bzlib.c:821-871 | blocks and trailer decode one after the other, the trailer's CRC being the fold of theirs |
| Stream.CombinedSnoc | src/compress.c:586-588 | the combined CRC kept while compressing is the left-to-right fold the decoder computes |
| Stream.CombineBits | src/compress.c:587-588 | bit j of the new combined CRC is bit (j + 1) % 32 of the old one, flipped if bit j of the block CRC is set |
| Stream.FinalisedBits | src/compress.c:586 | finalising a CRC flips every one of its 32 bits |
| Stream.FoldedParity | src/bzlib.c:845-848 | bit j of the combined CRC of n blocks is the parity over the blocks i of bit (j + n - 1 - i) % 32 of block i's CRC |
| Stream.EndParity | src/bzlib.c:834-868 | the last 32 bits of every stream that a session accepts are these parities of the CRCs of the parts its output falls into |
| Stream.StreamWritten | src/compress.c:582-641 | a stream of printed blocks begins and ends with the literal bytes of header, block magic and end magic, around its first CRC and before the parities of all CRCs |
| Stream.MagicVerdict | src/decompress.c:222-236 | a session ends in a bad magic exactly if one of the first four bytes it has is not the header byte due there |
| Stream.UnsortSorted | src/decompress.c:638-690 | the column of any sorted listing of rotations, with the place of rotation 0, gives the block back |
| Stream.SessionSplit | src/bzlib.c:821-871 | a session that ran out of input continues on more input exactly as one that had it all |
| Stream.SessionGrows | src/bzlib.c:821-871 | more input never takes back output or a verdict |
| Decompressor.Machine.constructor | src/bzlib.c:503-539 | a new stream waits for its header with nothing taken and nothing put out |
| Decompressor.Machine.Decompress | src/bzlib.c:821-871 | one call with any buffers, FAST or SMALL: OK with room left means the input is used up, the stream is incomplete, and all output it determines has been given; a data error, a bad magic, a randomised block or an end is reported only if the bytes taken, as a session, say so, and with an error all that the session gives before it has been put out; what is put out is accounted for byte by byte on every reply; a call after the end is a sequence error; the reply is a bad magic exactly if one of the first four bytes taken is not the header byte due there, and every other error is a data error |
| Decompressor.Machine.Parse | src/bzlib.c:854-868 | after parsing: a block ready for output, a pause with all input taken, an error the session bears out, or an end whose stored combined CRC matches |
| Decompressor.Machine.ParseOn | src/decompress.c:131-770 | the bytes taken during one entry of the parser, and no others, lead from the old parser state to the new; total_in is their number |
| Decompressor.Machine.Emit | src/bzlib.c:829-833 | either loop writes the next bytes of the block's expansion and stops when the output is full or the block done; corruption is reported only of a block that is corrupt, and then everything it expands to has been written, which the SMALL form counts as output and the FAST form does not |
| Decompressor.Machine.EndBlock | src/bzlib.c:834-848 | a block whose CRC matches joins the combined CRC (see Stream.CombineBits) and parsing goes on; one that does not is a data error of the session too, once the whole block has been put out |
| Decompressor.FormsAgree | src/bzlib.c:821-871 | two decompressors of either form that have taken the same bytes, however cut into calls, and given what they could have given the same output and are at the same place, bit buffer and combined CRC included |
| Decompressor.FinishedFacts | src/bzlib.c:834-844 | when the block is all out, the output is the expansion of the unsorted block, and the CRC comparison is the comparison with its CRC |
| Decompressor.TotalExpands | src/bzlib.c:775-812 | what the output loops owe for any parsed block, well formed or not, is the expansion of the unsorted column; if that ends inside a run, so do they, one run of 4 to 259 bytes further on |
| Decompressor.RunBitsTaken | src/decompress.c:756-767 | a parse that stopped did not need the bits given back |
| Decompressor.BuildCftab | src/decompress.c:598-626 | from the counts kept while decoding, cftab counts the smaller bytes, lies within the block size and never falls, and the counts lie within the block size, so none of the checks can fail |
| Reader.Decoder.Tally | src/decompress.c:507-541 | on every decoded symbol, through the table path or bit by bit, unzftab is updated by += es and ++ so that it counts the bytes of the column as it then is |
| ByteCounts.TallyRun | src/decompress.c:508-510 | adding the length of a run to one count accounts for the whole run |
| Decompressor.SetUpFast | src/decompress.c:663-687 | tt holds the inverse of the T vector over the column; the first byte is fetched |
| Decompressor.SetUpSmall | src/decompress.c:634-661 | the cells along the cycle of origPtr hold the inverse of the T vector; the first byte is fetched |
| Decompressor.Machine.OnCourse | src/bzlib.c:821-871 | inside a whole stream no error has been reported, the output so far begins its text, and an end reported is its end |
| Reader.Decoder.GetBits | src/decompress.c:44-82 | the next n pending bits, whichever mix of four-byte and one-byte refills brings them; on suspension nothing pending is lost |
| Reader.RefillBits | src/decompress.c:55-78 | a refill of the 64-bit word appends exactly the new bits, whatever has fallen off the top |
| Reader.Decoder.TryFast | src/decompress.c:545-593 | the table path reaches the state the bit-by-bit path reaches on the same bits, or changes nothing |
| Reader.PrimaryHit | src/decompress.c:561-570 | a positive primary word gives the symbol and length that limit, base and perm give on the same bits |
| Reader.OverflowHit | src/decompress.c:571-588 | so does a positive word of the sub-table a negative primary word leads to, at a legitimate index |
| Reader.FeedTwice | src/decompress.c:192-216 | two calls of the reader on x and then y end in the parser state, and leave the bits, of x followed by y, whatever refills and symbol paths either call took; at stream end the unread bytes of y are the rest |
| Reader.FastAgrees | src/decompress.c:561-590 | taking a symbol's bits at once is reading them one by one |
| Reader.Decoder.BuildTables | src/decompress.c:366-474 | every group's tables are sound for its code lengths |
| Reader.Decoder.Decompress | src/decompress.c:131-770 | the reader with its refills, suspension and fast path reaches exactly the parser state of the pure run over the pending bits; at stream end total_in is the number of bits parsed divided by 8 and rounded up, and the unread input is the rest |
| Reader.Decoder.GiveBack | src/decompress.c:756-767 | the whole bytes still buffered are given back and were all loaded in this call, so next_in never moves before the caller's buffer |
| Reader.DoneNeedsBits | src/decompress.c:696-722 | from a block header or any suspended state the parser takes at least as many bits to the end as the bound says, 80 from a block header |
| Reader.OldBitsUsed | src/decompress.c:756-767 | bits buffered by an earlier call are used up before the end |
| Reader.FourAtOnce | src/decompress.c:55-68 | of the input "Hello" the first field takes four bytes, though its value is already refused |
| Parser.NextOk | src/decompress.c:220-722 | every step on every input keeps the parser's invariant: no index of any table, selector or list leaves its range |
| Parser.ProbeIndex | src/decompress.c:108-121 | zvec - base is a legitimate index of perm whenever the limit test passes, for any code lengths |
| Parser.RunBitsSplit | src/decompress.c:192-216 | the pure run: bits left over from x and then y give what x followed by y gives; the buffered reader is proved against this run |
| Parser.ReadCode | src/decompress.c:94-122 | bit-by-bit decoding of a symbol's code, whatever follows, gives that symbol after exactly the code's bits |
| Layout.MagicLiterals | src/compress.c:612-635 | the block magic is the bytes 31 41 59 26 53 59 and the end magic 17 72 45 38 50 90 |
| Layout.HeaderLiteral | src/compress.c:602-608 | the stream header is the bytes 42 5a 68 and the digit of the level |
| Layout.U32Is | src/compress.c:75-81 | the four bytes of a 32-bit word are its 32 bits, most significant first |
| Layout.SixBytesRead | src/decompress.c:251-264 | of six bytes where a block may begin, the block magic leads to the block's CRC, the end magic to the combined CRC, and any others are a data error |
| Layout.HeaderRead | src/decompress.c:224-236 | the header is refused with a bad magic exactly if one of the bytes read is not 42, 5a, 68 or a digit 1 to 9 in its place |
| Layout.NoMagicError | src/decompress.c:249-722 | behind the header no bits whatever lead to a bad magic |
| Layout.TrailerRead | src/decompress.c:711-722 | the combined CRC stored is the last 32 bits before the end |
| Layout.RandomisedFlag | src/decompress.c:281-282 | one bit goes to the randomisation flag |
| Layout.NoByteInUse | src/decompress.c:298-315 | a block with no byte in use is refused |
| Layout.CountLimits | src/decompress.c:319-322 | exactly 2 to 6 tables are accepted; no selectors at all are refused |
| Layout.SelectorLimit | src/decompress.c:323-330 | a selector of as many ones as there are tables is refused |
| Layout.LengthLimits | src/decompress.c:352-361 | a table's first length is accepted exactly from 1 to 20; a step from 20 to 21 or from 1 to 0 is refused |
| Mtf.LongRun | src/decompress.c:495-506 | a run of 22 or more RUNA and RUNB digits is refused, whatever the digits |
| Printer.ReadBlock | src/decompress.c:251-596 | from any bit position, a printed block is parsed into its header and exactly its column, taking exactly its bits, no guard tripping |
| Printer.ReadMapping | src/decompress.c:298-315 | the printed byte mapping is read back as the set of bytes in use |
| Printer.ReadSelectors | src/decompress.c:318-349 | the unary selectors, of any number below 2^15, are read back, at most the first 18002 of them kept, and their move-to-front undone |
| Printer.SelectorsCut | src/decompress.c:331-335 | a block that announces more than 18002 selectors is parsed as the one with the first 18002 of them |
| Printer.ReadOrigPtr | src/decompress.c:284-296 | 24 bits of origPtr are accepted exactly up to 10 + 100000 * level |
| Printer.SelectorMtfInverse | src/decompress.c:337-349 | undoing the selectors' move-to-front gives the selectors back |
| Printer.ReadTables | src/decompress.c:351-364 | the delta-coded lengths are read back |
| Printer.ReadCodes | src/decompress.c:476-596 | the codes of a symbol sequence are read back as that sequence, group by group |
| Printer.ReadStreamHeader | src/decompress.c:222-247 | the stream header is read back as the block size |
| Printer.ReadTrailer | src/decompress.c:690-722 | the trailer is read back as the combined CRC |
| BitWriter.Writer.InitWrite | src/compress.c:17-22 | nothing written, nothing held |
| BitWriter.Writer.NeedRoom | src/compress.c:44-55 | whole words move to the output; the bits written are unchanged and fewer than 32 are held |
| BitWriter.Writer.PutBits | src/compress.c:61-68 | exactly the n bits of v are appended; the block before the output is untouched |
| BitWriter.Writer.FinishWrite | src/compress.c:28-37 | the output bytes are the bits written and fewer than 8 zero bits |
| Sender.SendMapping | src/compress.c:473-490 | the mapping bits owed are written |
| Sender.SendSelectors | src/compress.c:496-503 | group count, selector count and unary selectors owed are written |
| Sender.SendTables | src/compress.c:507-518 | the delta-coded lengths owed are written |
| Sender.SendCodes | src/compress.c:523-571 | the codes owed are written, each with its group's table |
| Sender.EncodeSelectors | src/compress.c:440-457 | the in-place move-to-front of the selectors is the function that the decoder inverts |
| Sender.SendMtfValues | src/compress.c:246-575 | the body written is that of a block text with the given symbols whose tables and selectors every decoder guard accepts, and which come of four rounds from seeds cut by the given frequencies |
| Sender.ChosenPrintable | src/compress.c:433-471 | tables and selectors as chosen meet every demand of the format: at most 18002 selectors, lengths 1 to 17, complete codes |
| Sender.BodySize | src/bzlib.c:170-173 | the body takes at most 17 bits a symbol and 159410 bits, so it fits behind the block |
| Refine.PackedParts | src/compress.c:325-332 | two 16-bit sums in one word stay apart |
| Refine.PairCost | src/compress.c:347-374 | the packed sums over a full group are the two tables' costs, with no carry between them |
| Refine.Cheapest | src/compress.c:384-387 | the first table of least cost |
| Refine.AssignGroups | src/compress.c:334-418 | every group of 50 symbols gets the first table of least cost for it; rfreq[t][v] is exactly how often v occurs in the groups that chose t, small enough for the length builder |
| Refine.TableCounts | src/compress.c:267-273 | two to six tables, with the steps at 200, 600, 1200 and 2400 symbols |
| Refine.Seed | src/compress.c:275-314 | the seeds cut the alphabet into consecutive segments, one a table from the last to the first, each cost 0 inside and 15 outside; a segment ends where its frequencies first reach the share of what is left, one symbol earlier on every other inner segment |
| Refine.QuotientIs | src/compress.c:284 | that share is the quotient rounded down |
| Refine.ChooseTables | src/compress.c:262-431 | after four rounds every table is a complete code with lengths 1 to 17; tables and selectors are those of the fourth round, each round assigning every group its first table of least cost and rebuilding every table from the counts of the groups that chose it, the first from the seeds |
| CodeLengths.MakeCodeLengths | src/huffman.c:63-127 | for a limit of 17 (what its caller passes) to 20 and frequencies whose sum is below 2^23 (what the packed 32-bit weights hold): terminates, all lengths in 1..maxLen, Kraft sum exactly one; the lengths are optimal for the frequencies, zeros counted as one, halved r times, where before each halving an optimal code was too long |
| CodeLengths.FirstRound | src/huffman.c:75-126 | unless an optimal code for the frequencies, zeros counted as one, is longer than the limit, the lengths are optimal for them |
| CodeLengths.LengthsOrdered | src/huffman.c:119-126 | a symbol that weighs more than another in the last round never has the longer code; each round's weights are one and half the weight before |
| Huffman.TreeOptimal | src/huffman.c:78-117 | the leaf depths of a tree that always merged two least weights cost no more than any lengths with Kraft sum at most one |
| Huffman.LowerBound | src/huffman.c:96-106 | at every stage of the merging, what is still to be merged is at most the cost of any depths that fit the trees in hand |
| Huffman.HeavierShorter | src/huffman.c:83-117 | among optimal lengths the heavier of two symbols never has the longer one |
| Huffman.SwapLengths | src/huffman.c:96-101 | giving the heavier of two trees the shorter length never costs more and keeps the Kraft sum |
| CodeLengths.BuildTree | src/huffman.c:83-108 | the heap-driven merge ends in one tree; its height h satisfies Fib(h + 2) <= total weight |
| Forest.MergeCore | src/huffman.c:96-106 | each merge keeps the forest's invariant: the packed words fit Int32 and the depth field never carries into the weight |
| Forest.HeightBound | src/huffman.c:16-18 | no root is as high as 33, so the 8-bit depth field is never full |
| CodeLengths.MeasureDepths | src/huffman.c:110-117 | the parent walk computes every leaf's depth; too long is reported only of a tree that high |
| CodeLengths.HalveWeights | src/huffman.c:121-125 | the retry strictly shrinks the weight sum |
| Forest.TreeKraft | src/huffman.c:96-117 | the depths of the leaves of a binary tree satisfy Kraft's equality |
| Heap.Upheap | src/huffman.c:24-33 | the last item sifted up restores the heap order and keeps the items |
| Heap.Downheap | src/huffman.c:35-50 | the first item sifted down restores the heap order and keeps the items |
| Codes.AssignCodes | src/huffman.c:136-150 | every symbol gets its canonical code |
| Codes.PrefixFree | src/huffman.c:136-150 | no symbol's code begins another's |
| Codes.KraftFits | src/huffman.c:136-150 | lengths within Kraft's bound have every code below 2^length |
| Codes.CreateDecodeTables | src/huffman.c:159-189 | limit, base and perm are the tables of the lengths, for any lengths 1 to 20 |
| Codes.DecodesCode | src/decompress.c:110-121 | a proper prefix of a code exceeds its limit, the code itself does not, and base and perm then name its symbol |
| FastTable.BuildFastTable | src/decompress.c:389-473 | for every length vector 1 to 20: abandoned exactly when some code does not fit its length; a positive primary or overflow word names the symbol whose code starts the window; abandoned tables are empty |
| FastTable.PlaceShort | src/decompress.c:406-416 | a short code fills exactly the windows it starts |
| FastTable.PlaceLong | src/decompress.c:417-460 | a long code goes to its prefix's sub-table; sub-tables do not overlap |
| Mtf.MakeMaps | src/compress.c:99-108 | each byte in use is numbered by the bytes in use below it |
| Mtf.GenerateMtfValues | src/compress.c:117-231 | written over the very array it reads, as 16-bit halves, the symbols are those of the column; at most nblock + 1 of them; the frequencies are their counts |
| Mtf.ShiftToFront | src/compress.c:145-212 | the byte's place in the list is found and the list rotated |
| Mtf.EncodeSize | src/compress.c:117-231 | at most one symbol a byte and the end mark, all within the alphabet |
| Mtf.ConsumeEncode | src/decompress.c:495-596 | the decoder's run arithmetic and list undo the encoder's, from any state of both; the run guard is never reached |
| Mtf.SymbolsDecode | src/decompress.c:476-596 | the encoder's symbols decode to the column |
| PrefixSort.BlockSort | src/blocksort.c:345-373 | rotations sorted, origPtr found, block intact (blocks below 10000 bytes) |
| PrefixSort.FallbackSort | src/blocksort.c:236-333 | fmap lists all rotations in order and the block, overlaid by the class array meanwhile, is restored byte for byte |
| PrefixSort.FillBuckets | src/blocksort.c:256-261 | the first pass sorts positions by byte |
| PrefixSort.FillClasses | src/blocksort.c:278-283 | each position gets the bucket start of the position h further on |
| PrefixSort.ClassOrder | src/blocksort.c:278-283 | comparing classes is comparing the next h cyclic bytes |
| PrefixSort.RefinePass | src/blocksort.c:285-315 | one pass refines every bucket by class; with nothing left undone all buckets were single |
| PrefixSort.PassBucket | src/blocksort.c:305-314 | sorting one bucket by class and marking its class changes keeps the pass invariant |
| PrefixSort.PassDoubles | src/blocksort.c:272-322 | a pass turns order by h bytes into order by 2h bytes, header bits marking exactly the buckets |
| PrefixSort.DepthSorts | src/blocksort.c:320-322 | at the exit, order by depth is order of rotations |
| PrefixSort.RestoreBlock | src/blocksort.c:326-331 | the byte counts and the sorted positions give the block back |
| QuickSort.QSort3 | src/blocksort.c:133-213 | the range is permuted and sorted by class, nothing outside moves, and the stacks are never full |
| QuickSort.StackBound | src/blocksort.c:205-211 | because the smaller side is popped first, at most 21 ranges are stacked, far below 99 |
| QuickSort.Partition | src/blocksort.c:165-195 | the three-way split with equal keys at both ends |
| QuickSort.SimpleSort | src/blocksort.c:74-101 | both insertion passes, stride 4 and stride 1, leave the range sorted |
| Bitmap.Skip | src/blocksort.c:289-301 | skipping by bits and whole words finds the first header bit of the other kind |
| Suffixes.FilterRotations | src/blocksort.c:52-60 | the entries below n of the doubled block's suffix array are a sorted listing of the rotations, with origPtr |
| Suffixes.FilterSorts | src/blocksort.c:36-60 | the same of the filtered sequence |
| Suffixes.FilterIsPerm | src/blocksort.c:52-60 | exactly n entries remain, each once |
| Suffixes.SortersAgree | src/blocksort.c:353-372 | both sorters give the same column; their origPtr name equal rotations |
| Suffixes.LBeforeS | src/libsais.c:4821-4841 | within a bucket L suffixes come before S suffixes |
| Suffixes.TypeRank | src/libsais.c:4821-4841 | a suffix is of type L exactly when the next one ranks lower |
| PlaceLms.PlaceSuffixes | src/libsais.c:4599-4626 | in place, highest bucket first, sorted LMS suffixes go to the ends of their buckets and all else becomes 0; no suffix still to be moved is overwritten |
| PlaceLms.SlotFacts | src/libsais.c:4606-4621 | a suffix's slot is in the S part of its bucket and never left of where it waits |
| PlaceLms.StartIsPlaced | src/libsais.c:4599-4626 | that is a legitimate start for the scans |
| PlaceLms.SortFromLms | src/libsais.c:6915-6922 | from the sorted LMS suffixes and the bucket counts to the suffix array |
| Induce.InduceFinalOrder | src/libsais.c:6202-6221 | the two scans leave exactly the suffix array |
| Induce.ScanRight | src/libsais.c:4821-4841 | the scan to the right places every L suffix, with its mark, at its final position |
| Induce.RightTarget | src/libsais.c:4821-4841 | the bucket's next free cell is the rank of the suffix induced, and lies ahead of the scan |
| Induce.ScanLeft | src/libsais.c:5450-5470 | the scan to the left places every S suffix and clears every mark |
| Induce.LeftTarget | src/libsais.c:5450-5470 | the bucket's next free cell from the end is the rank of the suffix induced |
| Rotations.SortedRotationsUnique | src/blocksort.c:345-373 | any two sorted listings agree as strings and in their last column |
| InverseBwt.WalkReadsBlock | src/decompress.c:663-687 | following the inverse T vector from origPtr reads off the block, periodic or not |
| InverseBwt.FollowRotation | src/decompress.c:663-687 | one step moves to the next rotation, as a string |
| InverseBwt.BuildFast | src/decompress.c:665-673 | the counting pass leaves the inverse T vector in the upper 24 bits and the column in the lower 8 |
| InverseBwt.BuildTSmall | src/decompress.c:639-644 | the cells hold the T vector |
| InverseBwt.ReverseCycle | src/decompress.c:646-655 | reversal in place turns the cycle of origPtr into the inverse T vector |
| InverseBwt.Packed20.Set | src/qbz2_internal.h:405-417 | a 20-bit store changes that cell and no other |
| InverseBwt.IndexIntoF | src/bzlib.c:703-714 | the search finds the byte whose bucket holds the position |
| InverseBwt.BucketIsByte | src/qbz2_internal.h:422-425 | that byte is the one the FAST form stores |
| Output.GetFast | src/qbz2_internal.h:391-403 | the next byte; the position stays inside the block, so the range guard never fires |
| Output.GetSmall | src/qbz2_internal.h:422-425 | the same byte from the 20-bit cells |
| Output.FetchedIsBlock | src/decompress.c:675-687 | the first n bytes fetched are the block |
| Output.Unrle.UnrleFast | src/bzlib.c:599-693 | for any room: the next bytes of the expansion, CRC of exactly the bytes written, done or full; corruption only if the block ends inside a run, and then all of the expansion has been written, the saved state and the output count being as before the call |
| Output.Unrle.UnrleSmall | src/bzlib.c:773-814 | the same bytes, CRC and verdict; on corruption too the output, now all of the expansion, is counted |
| Output.BlockOutput | src/bzlib.c:599-693 | for a sorted block both loops owe its run-length expansion, up to the one run written before a fault is found |
| Crc.UpdateConcat | src/crctable.c:637-676 | updates compose over concatenation |
| Crc.TableStep | src/qbz2_internal.h:153-158 | the table step is eight steps of polynomial division |
| CrcTable.TableIsEntry | src/crctable.c:16-82 | every one of the 256 literal words, the same as those of crc32_s8[0], is the entry that the bytewise step looks up: the byte times x^32, reduced |
| Crc.SliceMeaning | src/crctable.c:84-622 | crc32_s8[k][b] is the CRC step of b followed by k zero bytes |
| Crc.EightBytes | src/crctable.c:652-668 | eight look-ups are eight bytewise steps |
| Crc.UpdateSliced | src/crctable.c:643-675 | prefix, sliced loop and tail give the bytewise CRC for every buffer, alignment and initial value |
| Crc.UpdateLong | src/crc32_pclmul.c:212-222 | the CRC of a buffer is its seeded polynomial times x^32, reduced |
| Gf2.ClmulRem | src/crc32_pclmul.c:65-70 | multiplying by x^n mod P multiplies the residue by x^n |
| FoldConstants.Constants | src/crc32_pclmul.c:37-53 | the six fold constants are the powers of x they are said to be |
| FoldConstants.BarrettMu | src/crc32_pclmul.c:48-50 | mu is the quotient of x^64 by P |
| ClmulCrc.FoldRem | src/crc32_pclmul.c:65-70 | a fold keeps the residue of the data folded so far |
| ClmulCrc.BarrettExact | src/crc32_pclmul.c:83-103 | Barrett reduction is exact for every 64-bit polynomial |
| ClmulCrc.Reduce | src/crc32_pclmul.c:167-210 | 128 to 96 to 64 to 32 bits is the residue |
| ClmulCrc.CrcPclmul | src/crc32_pclmul.c:114-234 | equals the bytewise CRC for every initial value and every buffer of 64 bytes or more |
| ClmulCrc.UpdateBuffer | src/crctable.c:637-676 | whichever form is chosen, the result is the bytewise CRC |

## Left out

- Decompressor.Machine.Decompress: calls after a reported error are not modelled, nor what a randomised block decodes to; meeting one is reported as such.
- CodeLengths.MakeCodeLengths: limits below 17, which nothing in the codec passes, and sums of 2^23 or more, which a block of 900000 symbols cannot reach, are not covered.
- Refine.ChooseTables: states the four rounds, not how far their result is from the best choice of tables.
- Suffixes.SuffixArrayOf: stands for libsais by its contract. Of libsais itself the last stage is modelled (PlaceLms, Induce); gathering, radix sorting, renaming and the recursion on LMS suffixes are not.
- Randomised blocks and src/randtable.c: legacy, never written by the encoder.
- The parser's variables are held as one value rather than saved and restored one by one (save_i and the others); its decoded column is a sequence that is copied to tt or ll16 when the block is complete.
- minLen and maxLen of a table are functions of the lengths rather than the loops at src/decompress.c:368-373 and src/compress.c:461-466.
- total_in and total_out are single numbers, not two 32-bit halves.
- The finalised block CRC is not stored back into blockCRC, which is reset before it is read again.
- Work areas of the compressor other than the block and its output (symbol halves, frequencies, selectors, header bits) are allocated per block; the sort array is copied to 16-bit halves before symbols are written over it, with the two halves of a word in one fixed order.
- Crc.SliceMeaning: the literals of crc32_s8[1] to crc32_s8[7] (src/crctable.c:154-622) are given by their meaning; equality with the literals is stated for the 256-entry table alone.
- Carry-less multiplication and byte shuffles are modelled as polynomial arithmetic and as big-endian loads, not as instructions; the SSE2 search of the move-to-front list as the first index equal to the byte.
- Failing allocation, verbosity printing, parameter validation, the FILE* and buffer-to-buffer layers, error strings, bzopen and bzdopen: no part in the codec.
- OpenMP branches, prefetches, loop unrolling and the other variants inside libsais.
