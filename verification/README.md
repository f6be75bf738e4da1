# Verified models of BusyBox algorithms

This project models five pieces of BusyBox 1.37.0 in Dafny and proves what they
are for:

* **gzip** (`archival/gzip.c`): the whole DEFLATE compressor, from the reads that
  fill the window to the trailer of the file. One theorem stands at the end,
  `Gzip.PackGzip`: a decompressor written from RFC 1951 and RFC 1952 recovers the
  input from the file, for every input and every way the reads cut it into pieces.
* **dpkg** (`archival/dpkg.c`): interning by double hashing, Debian version order,
  the reading of Depends fields, and the dependency check; `Requirements.CheckControl`
  goes from the text of the fields to the verdict.
* **factor** (`coreutils/factor.c`): wheel factorisation with the shortcut for
  perfect squares.
* **expr** (`coreutils/expr.c`): the fused parser and evaluator.
* **lzop** (`archival/lzop.c`): Adler-32 with deferred division.

Run `dafny verify dfyconfig.toml` to check everything.

## How the compressor is put together

The C program keeps its state in two global structures. Here each concern has its
own module, and what the C code changes in place is an array or a class field.

| stage | modules |
|---|---|
| bits, bytes and the decoder of RFC 1951, an independent definition | Bits, Inflate (module Inflate), Tokens, RunLengths, Canonical, Blocks |
| bit writer | BitWriter (module BitWriting) |
| Huffman codes | Sums, Heap, Forest, Combine, Optimal, Repair, BitLengths, BuildTree |
| tables of ct_init, code lengths, exact lengths | Tables, TreeCoding, Accounting, DynTrees |
| blocks | Buffers, Guess (module Guessing), Sending, Coder |
| window, hash chains, lazy matching | Crc, Hashing, Window, Deflate |
| container | Gzip |
| the format, in numbers | Layout |

Of the other programs, dpkg has Probing and Interning (the hash tables), Versions,
VersionForms and PolicyLaws, CStrings and Fields (reading dependencies), Depends, Control
and Requirements (checking them); factor has Wheel and Factor, expr has Expr and ExprLaws,
and lzop has Adler and AdlerLaws.

The decoder in Inflate is a specification: it follows the text of RFC 1951
(sections 3.1.1 and 3.2.3 to 3.2.7), knows nothing about the compressor, and
insists on complete codes. The compressor has its own tables (`EXTRA_LBITS`,
`EXTRA_DBITS`, `BL_ORDER`), and Layout says by formula, without the tables of either,
what they have to hold and where the bits of a block are. Every stage of the compressor is proved to produce what
this decoder reads back, and `Deflating.Deflater.Act` and `Deflate` carry the
invariant of the main loop: the blocks sent so far decode to the input up to
`block_start`, and the tokens since then expand to the input up to `strstart`, less
one byte if `match_available`.

The other programs are treated alike: what the model computes with is also said without
it. ExprLaws states what expr prints for arguments as they are typed, operator by
operator; PolicyLaws states the rule for version parts character by character, and
`Versions.VersionCompare` the order of whole versions by their written parts; and
Requirements states the verdict of the dependency check by names, relations and status
words.

Huffman optimality is proved against every assignment of lengths that satisfies
the Kraft inequality (`TreeBuilding.HuffmanIsOptimal`), and hence against every
prefix code (`Optimality.KraftInequality`, `Optimality.NoPrefixCodeIsShorter`).

## Modelling decisions

* The default configuration: CONFIG_GZIP_FAST is 0, there are no compression
  levels, the bit buffer has 32 bits, integers have 32 bits.
* Reads are an input of the model: `supply(k)` says whether the k-th read fails or
  how many bytes it delivers at most. As in the code, a failed read counts as the
  end of the input.
* Words that can wrap around are taken modulo 2^32 or 2^16 explicitly (`U32`), or
  are shown not to wrap: `opt_len`, `static_len`, `stored_len`, the 16-bit
  frequencies and positions. `match_start` does wrap when a match at the largest
  distance survives a slide, and `Windows.SlideDistance` says why that is harmless.
  The depths that break ties in the heap wrap modulo 256.
* Near the end of the input `longest_match` compares bytes behind the window's
  valid part, up to 258 of them, and behind the window itself. The model's window
  has MAX_MATCH more bytes of arbitrary content, and nothing depends on them: the
  clamp to `lookahead` is part of `FindMatch`.
* `isqrt` and the CRC-32 table are modelled from libbb, as the results depend on them.
* In dpkg an index into the name table is replaced by the string it stands for in
  the version order and in the dependency check. That is what
  `Interning.NameTable.SearchAll` justifies: equal indices are equal strings.
  Version strings may hold any bytes: the signedness of char does not matter, as the
  macros `isdigit` and `isalpha` of libbb are about ASCII alone. `atoi` of an epoch is
  taken modulo 2^32.
* `hash_num` of dpkg is an `unsigned long`; its width, 32 or 64 bits, is left open
  (`Probing.LONG_VALUES`).
* A version in parentheses without an operator leaves the operator of the new edge
  with what its memory held; that is the parameter `junk` in Fields, and the results
  hold for every value of it.
* In expr, numbers have 64 bits, digits beyond them are cut to the range as `strtoll`
  does it, and division truncates. Two things are left open, as functions of their
  arguments (`Environment`): the matching of regular expressions, and what becomes of a
  sum, difference, product or quotient that does not fit, which C does not define. The
  results hold for every choice.

## Where the code and its comments disagree

* `build_tree` says of a forced symbol that it is 0 or 1 (gzip.c:1350). It can be 2,
  when the only symbol in use is 1: then the code in front of it, 0, is skipped. The
  symbol still has no extra bits, which is all the comment is needed for.
* `longest_match` asserts that there is enough room behind `strstart` (gzip.c:736).
  After the end of the input the window no longer slides, and the assertion can be
  false; the result is right all the same.
* The comment in `deflate` that `strstart` never exceeds WSIZE-MAX_MATCH
  (gzip.c:1866) does not hold for a window of twice WSIZE; what the loop needs is
  that two bytes behind `strstart` are in the buffer.
* `fill_window` treats `more == -1` (gzip.c:650-654), which cannot happen with
  32-bit integers; that branch is not part of the model.
* `search_name_hashtable` never gives up: with a full table and a new string its
  loop does not end. `Interning.StopsExactly` says exactly when it does.
* A single `<` or `>` in a Depends field is accepted and means `<<` or `>>`
  (dpkg.c:479-488), because strncmp compares only the characters that are there.

## Model

| member | source | states |
|---|---|---|
| Gzip.PackGzip | soal1/busybox-1.37.0/archival/gzip.c:2064-2103 | For every input and every supply of reads: decompressing the written file (RFC 1952 header, RFC 1951 blocks, CRC-32, length) gives exactly the bytes that were read; these are the whole input unless a read failed, and then it was one of the first n + 1 reads for n bytes read; the file begins with the ten bytes of the header |
| Gzip.FileDecompresses | soal1/busybox-1.37.0/archival/gzip.c:2096-2102 | A header, a finished stream, the complement of the CRC register and the length modulo 2^32 are accepted by the decompressor and give the data back |
| Gzip.HeaderBytes | soal1/busybox-1.37.0/archival/gzip.c:2070-2091 | The three words written first are the magic number, method 8, no flags, no time stamp: the ten bytes of an RFC 1952 header |
| Gzip.FileLayout | soal1/busybox-1.37.0/archival/gzip.c:2096-2102 | What the decompressor accepts has magic number, method and flags in front and CRC-32 and length, low bytes first, at the end |
| Gzip.CrcChecks | soal1/busybox-1.37.0/archival/gzip.c:2097-2101 | The checksum of nothing is 0 and that of four bytes 0xff is 0xffffffff: start value and complement |
| Layout.FileBits | soal1/busybox-1.37.0/archival/gzip.c:541-574 | Bit 8i + j of a file is the bit of weight 2^j of byte i |
| Layout.CodeBitsAt | soal1/busybox-1.37.0/archival/gzip.c:581-591 | Bit i of a code word is the bit of weight 2^(n-1-i) of the code |
| BitWriting.BitWriter.SendBits | soal1/busybox-1.37.0/archival/gzip.c:541-574 | Appends exactly the low-bit-first bits of the value to everything sent so far; the bit buffer stays below 32 bits and the byte buffer below its size |
| BitWriting.BitWriter.Put16 | soal1/busybox-1.37.0/archival/gzip.c:445-482 | Two bytes, low first, on every path: both fit, only one fits, or the buffer was flushed between them |
| BitWriting.BitWriter.BiWindup | soal1/busybox-1.37.0/archival/gzip.c:596-609 | Pads with zero bits to a byte boundary, and nothing else is added |
| BitWriting.BitWriter.CopyBlock | soal1/busybox-1.37.0/archival/gzip.c:615-631 | After the padding: LEN, its one's complement, and the bytes, as section 3.2.4 of RFC 1951 wants them |
| BitWriting.StoredHeader | soal1/busybox-1.37.0/archival/gzip.c:620-621 | The C expression for the length word has LEN in its low half and 65535 - LEN in its high half |
| BitWriting.OrAppends | soal1/busybox-1.37.0/archival/gzip.c:552-570 | Shifting a value into a partly filled 32-bit buffer, cut to 32 bits, is appending its low bits |
| BitWriting.WindupBits | soal1/busybox-1.37.0/archival/gzip.c:598-605 | The bytes written for an incomplete buffer are its bits and then zeros |
| Bits.BiReverse | soal1/busybox-1.37.0/archival/gzip.c:581-591 | The shifting loop returns the code with its bits in the opposite order |
| Canonical.GenCodes | soal1/busybox-1.37.0/archival/gzip.c:1254-1288 | Every symbol with a length gets the code of section 3.2.2 of RFC 1951, bit-reversed; other entries are untouched |
| Canonical.StartCodes | soal1/busybox-1.37.0/archival/gzip.c:1257-1267 | next_code[b] is the numerically first code of b bits |
| Canonical.PrefixFree | soal1/busybox-1.37.0/archival/gzip.c:1254-1288 | If the Kraft sum is not exceeded, no code word is a prefix of another |
| Layout.CanonicalOrder | soal1/busybox-1.37.0/archival/gzip.c:1254-1288 | The two rules of section 3.2.2 of RFC 1951: code words are in lexicographic order by length and, within a length, by symbol |
| Layout.FixedCodes | soal1/busybox-1.37.0/archival/gzip.c:2016-2048 | The fixed codes are those listed in section 3.2.6: 00110000 on for 0, 110010000 on for 144, 0000000 on for 256, 11000000 on for 280 |
| Canonical.StartFits | soal1/busybox-1.37.0/archival/gzip.c:1262-1272 | The codes of each length fit in that many bits |
| Canonical.DecodeSymCorrect | soal1/busybox-1.37.0/archival/gzip.c:1254-1288 | A written code word is read back as its symbol, whatever follows |
| Canonical.KraftByLength | soal1/busybox-1.37.0/archival/gzip.c:1262-1272 | The Kraft sum over symbols is the Kraft sum over the counts by length |
| Tables.InitLengths | soal1/busybox-1.37.0/archival/gzip.c:1983-1996 | length_code is the inverse of the table of section 3.2.5 of RFC 1951 (258 has code 285), base_length its first lengths |
| Tables.InitDistances | soal1/busybox-1.37.0/archival/gzip.c:1998-2014 | For every distance up to 32768, D_CODE gives the code whose range contains it |
| Layout.LengthCodes | soal1/busybox-1.37.0/archival/gzip.c:883-887 | Base and extra bits of every length code, by formula |
| Layout.DistanceCodes | soal1/busybox-1.37.0/archival/gzip.c:889-893 | Base and extra bits of every distance code, by formula |
| Tables.ExtraLIs | soal1/busybox-1.37.0/archival/gzip.c:883-887 | The table extra_lbits has the extra bits the decoder expects |
| Tables.ExtraDIs | soal1/busybox-1.37.0/archival/gzip.c:889-893 | The table extra_dbits has the extra bits the decoder expects |
| Tables.InitStaticLit | soal1/busybox-1.37.0/archival/gzip.c:2016-2048 | gen_codes turns the fixed lengths into the fixed literal/length code of section 3.2.6 |
| Tables.InitStaticDist | soal1/busybox-1.37.0/archival/gzip.c:2050-2054 | The fixed distance code: five bits, each symbol its own number |
| Heaps.PqDownHeap | soal1/busybox-1.37.0/archival/gzip.c:1127-1149 | Restores the heap below a node and permutes the nodes |
| Heaps.FirstIsLeast | soal1/busybox-1.37.0/archival/gzip.c:1121-1149 | The first node of a heap has the least frequency, and the least depth of those that have it |
| Combining.PqRemove | soal1/busybox-1.37.0/archival/gzip.c:1299-1310 | Takes the least node out; the rest is a heap of exactly the other nodes |
| Combining.MergedInv | soal1/busybox-1.37.0/archival/gzip.c:1360-1383 | One round of the combining loop keeps everything: heap and finished nodes are disjoint, every node is accounted for once, fathers stand before their sons, weights add up, and the cost so far plus the optimum of what is left is the optimum |
| Forests.Finish | soal1/busybox-1.37.0/archival/gzip.c:1363-1385 | When one root is left, the nodes from heap_max on are a tree over exactly the symbols that occur, every node in front of its sons |
| TreeBuilding.CombineAll | soal1/busybox-1.37.0/archival/gzip.c:1363-1385 | The loop ends with one root and 16-bit frequencies that never wrapped; the depths that decide between equal frequencies are the heights of the trees |
| TreeBuilding.ForceSymbols | soal1/busybox-1.37.0/archival/gzip.c:1337-1351 | At least two symbols take part; the forced ones are paid for in advance in opt_len and static_len |
| Optimality.CombineAtLeast | soal1/busybox-1.37.0/archival/gzip.c:1360-1383 | Combining two least weights loses nothing: if c is a lower bound for the combined weights, c plus the two is one for all (the exchange argument) |
| Optimality.KraftInequality | soal1/busybox-1.37.0/archival/gzip.c:1312-1394 | Every prefix code satisfies the Kraft inequality |
| Optimality.NoPrefixCodeIsShorter | soal1/busybox-1.37.0/archival/gzip.c:1312-1394 | What is least among all lengths the Kraft inequality allows is least among all prefix codes |
| TreeBuilding.HuffmanIsOptimal | soal1/busybox-1.37.0/archival/gzip.c:1360-1394 | If the tree is within the limit, the sum of Freq*Len is minimal among all lengths the Kraft inequality allows |
| TreeBuilding.BuildTree | soal1/busybox-1.37.0/archival/gzip.c:1312-1394 | Complete lengths within the limit for exactly the symbols in use and those forced in, reversed canonical codes; opt_len and static_len grow by exactly frequency times bits over all symbols, so that forced symbols cancel out; the tree built is always a best one, and if it is within the limit (which it is when no length reaches the limit) the lengths are its depths and minimal |
| BitLengths.FirstPass | soal1/busybox-1.37.0/archival/gzip.c:1172-1203 | The first loop leaves the depths cut to the limit, counted in bl_count; overflow is the number of cut nodes |
| BitLengths.FirstPassDone | soal1/busybox-1.37.0/archival/gzip.c:1177-1205 | The overflow is even, and the Kraft sum is too large by exactly half of it; cut lengths are more than that |
| Repairs.RepairCounts | soal1/busybox-1.37.0/archival/gzip.c:1210-1222 | The repair loop ends with a Kraft sum of exactly one and the same number of codes |
| Repairs.ShorterExists | soal1/busybox-1.37.0/archival/gzip.c:1212-1214 | While there is an excess, a shorter length that can be split exists: the inner search stays in range |
| BitLengths.HandOut | soal1/busybox-1.37.0/archival/gzip.c:1224-1242 | The repaired lengths are handed out in heap order until every symbol has one, opt_len following every change |
| BitLengths.OverflowIfHigh | soal1/busybox-1.37.0/archival/gzip.c:1177-1205 | Something overflows if and only if the tree is higher than the limit |
| TreeBuilding.TreeIsBest | soal1/busybox-1.37.0/archival/gzip.c:1360-1385 | Whatever its height, the tree in the heap is a best one for these frequencies |
| BitLengths.GenBitlen | soal1/busybox-1.37.0/archival/gzip.c:1161-1244 | All lengths in 1..max_length, bl_count matching them, Kraft sum exactly one, opt_len and static_len raised by exactly the cost; the lengths are the depths unless the tree is too high, and then some length is at the limit |
| RunLengths.OpsRoundTrip | soal1/busybox-1.37.0/archival/gzip.c:1402-1505 | Decoding the run-length symbols by section 3.2.7 of RFC 1951 gives the lengths back, for every table |
| RunLengths.OpsDecode | soal1/busybox-1.37.0/archival/gzip.c:1454-1505 | The bits of the run-length symbols decode to what they stand for |
| Layout.RepeatCodes | soal1/busybox-1.37.0/archival/gzip.c:1454-1505 | Symbol 16 and two bits stand for 3 to 6 times the length before, 17 and three bits for 3 to 10 zeros, 18 and seven bits for 11 to 138 |
| TreeCoding.ScanTree | soal1/busybox-1.37.0/archival/gzip.c:1402-1448 | The frequencies rise by exactly the number of times send_tree sends each symbol; the guard is set behind the table |
| TreeCoding.SendTree | soal1/busybox-1.37.0/archival/gzip.c:1454-1505 | Sends exactly the symbols scan_tree counted |
| TreeCoding.CountOfRun | soal1/busybox-1.37.0/archival/gzip.c:1421-1434 | One run adds to the counts what is sent for it |
| Accounting.DataLength | soal1/busybox-1.37.0/archival/gzip.c:1198-1202 | The compressed data takes, for every symbol, its count times its code length and extra bits |
| Accounting.OpsLength | soal1/busybox-1.37.0/archival/gzip.c:1519-1534 | The same for the run-length symbols |
| Accounting.DataBound | soal1/busybox-1.37.0/archival/gzip.c:1620-1624 | A token takes at most two codes and 18 extra bits |
| DynamicTrees.LitTotal | soal1/busybox-1.37.0/archival/gzip.c:1573-1591 | The literal/length frequencies add up to the number of tokens and one end symbol, so 16 bits are enough |
| DynamicTrees.StaticLength | soal1/busybox-1.37.0/archival/gzip.c:1201-1202 | static_len is the exact length of the data in the fixed codes |
| DynamicTrees.Trees.BuildMain | soal1/busybox-1.37.0/archival/gzip.c:1687-1695 | After the first two trees, opt_len and static_len are exactly the bits compress_block would send with either pair of codes |
| DynamicTrees.Trees.BuildBlTree | soal1/busybox-1.37.0/archival/gzip.c:1511-1539 | opt_len grows by exactly the bits send_all_trees will send; the lengths form a header any strict decoder accepts |
| DynamicTrees.Trees.SendAllTrees | soal1/busybox-1.37.0/archival/gzip.c:1545-1567 | Sends counts, code length code and both length tables |
| DynamicTrees.AtLeastFour | soal1/busybox-1.37.0/archival/gzip.c:1525-1532 | The search for the last code length code length never needs fewer than four |
| Sending.CompressBlock | soal1/busybox-1.37.0/archival/gzip.c:1630-1676 | Sends the code words and extra bits of the pending tokens in order, and the end symbol, reading literals, distances and flags from their three buffers |
| Sending.FlagRead | soal1/busybox-1.37.0/archival/gzip.c:1641-1670 | The flag register shows for each token whether it is a match |
| Tokens.DataDecodes | soal1/busybox-1.37.0/archival/gzip.c:1630-1676 | Decoding the data of a block gives the meaning of its tokens |
| Buffers.BufferEighth | soal1/busybox-1.37.0/archival/gzip.c:1590-1600 | A token that completes a byte of flags is stored with it |
| Coding.Coder.CtTally | soal1/busybox-1.37.0/archival/gzip.c:1573-1625 | The buffers hold one token more and the frequencies count it; a flush is asked for exactly if the buffer is full or, at a multiple of 4096 tokens, few of them are matches and the estimate of their cost is less than half of the input |
| Guessing.GuessBySymbols | soal1/busybox-1.37.0/archival/gzip.c:1601-1619 | The estimate, which the code sums up over distance codes, is 8 bits a token and 5 more and the extra bits for a match; it is at most 26 bits a token, so it does not wrap |
| Coding.Coder.EmitBlock | soal1/busybox-1.37.0/archival/gzip.c:1702-1753 | Whichever kind of block is chosen decodes to the bytes its tokens stand for, and it takes at most 10 bits more than the cheapest kind counted in whole bytes |
| Coding.Coder.FlushBlock | soal1/busybox-1.37.0/archival/gzip.c:1680-1766 | One complete block, no longer than the fixed codes or the plain bytes would make it (up to 10 bits), after which everything is ready for the next; at the end the stream is padded to a byte |
| Blocks.StoredDecodes | soal1/busybox-1.37.0/archival/gzip.c:1730-1741 | A stored block decodes to its bytes |
| Blocks.FixedDecodes | soal1/busybox-1.37.0/archival/gzip.c:1742-1746 | A block with the fixed codes decodes to the expansion of its tokens |
| Blocks.DynamicDecodes | soal1/busybox-1.37.0/archival/gzip.c:1747-1753 | A block with its own codes decodes to the expansion of its tokens |
| Blocks.HeaderDecodes | soal1/busybox-1.37.0/archival/gzip.c:1545-1567 | The header of such a block decodes to exactly the two length tables |
| Blocks.OrderIs | soal1/busybox-1.37.0/archival/gzip.c:899-900 | bl_order is 16, 17, 18, 0, and then 8 and up at even ranks, 7 and down at odd ones |
| Layout.HeaderLayout | soal1/busybox-1.37.0/archival/gzip.c:1545-1567 | Five, five and four bits for the three counts, and then, for rank r, bits 14+3r to 14+3r+2 hold the length of the symbol the rank stands for, by formula |
| Layout.KindLayout | soal1/busybox-1.37.0/archival/gzip.c:1738-1748 | The first bit says whether the block is the last one; the next two are 00, 10 and 01 in the order sent for stored, fixed and own codes |
| Layout.StoredLayout | soal1/busybox-1.37.0/archival/gzip.c:615-631 | At the next byte boundary LEN and its complement, 16 bits each, and the bytes; zero bits before |
| Layout.MatchRepeats | soal1/busybox-1.37.0/archival/gzip.c:1854-1856 | What a match stands for: byte k of the output equals byte k - dist |
| Blocks.EmittedFinal | soal1/busybox-1.37.0/archival/gzip.c:1680-1766 | Blocks sent one after the other decode one after the other |
| Crc.CrcByTable | soal1/busybox-1.37.0/libbb/crc32.c:66-75 | One table step is eight single-bit steps of the shift register: section 8 of RFC 1952 |
| Crc.PolynomialTerms | soal1/busybox-1.37.0/libbb/crc32.c:22-43 | The polynomial has the exponents 32, 26, 23, 22, 16, 12, 11, 10, 8, 7, 5, 4, 2, 1, 0 |
| Crc.CrcBitAt | soal1/busybox-1.37.0/libbb/crc32.c:22-43 | One step moves every bit down and subtracts the polynomial if a bit drops out |
| Crc.FillTable | soal1/busybox-1.37.0/libbb/crc32.c:22-43 | The table holds the register after eight steps from each byte |
| Crc.BlockEndian0 | soal1/busybox-1.37.0/libbb/crc32.c:66-75 | The CRC of a buffer by table is the CRC by definition |
| Crc.CrcConcat | soal1/busybox-1.37.0/archival/gzip.c:512-515 | The CRC can be continued piece by piece |
| Hashing.HashDecides | soal1/busybox-1.37.0/archival/gzip.c:752-757 | Equal hashes with equal first two bytes mean equal third bytes |
| Hashing.HashForgets | soal1/busybox-1.37.0/archival/gzip.c:1768-1774 | After MIN_MATCH updates the oldest byte no longer takes part in the hash |
| Windows.InsertChains | soal1/busybox-1.37.0/archival/gzip.c:1803-1808 | Inserting a position keeps every chain in order, although it takes over a slot of prev |
| Windows.SlideChains | soal1/busybox-1.37.0/archival/gzip.c:655-679 | Moving the window down by WSIZE keeps every chain in order |
| Windows.Window.FileRead | soal1/busybox-1.37.0/archival/gzip.c:522-535 | Any number of bytes, end of input or failure; CRC and length count what was read |
| Windows.Window.Slide | soal1/busybox-1.37.0/archival/gzip.c:655-679 | The window still shows the end of the input; chains, hash and places in the input are unchanged, match_start modulo 2^32 |
| Windows.Window.FillWindow | soal1/busybox-1.37.0/archival/gzip.c:641-689 | Reads at least one byte or sets eofile; what has been read is kept, and the window shows its end |
| Windows.Window.FillWindowIfNeeded | soal1/busybox-1.37.0/archival/gzip.c:691-695 | Ends with enough lookahead or the end of the input |
| Windows.Window.LmInit | soal1/busybox-1.37.0/archival/gzip.c:1927-1961 | Empty chains, the first bytes of the input, and their hash |
| Windows.Window.InsertString | soal1/busybox-1.37.0/archival/gzip.c:1803-1808 | Returns an earlier position with the same hash, or 0, and keeps the chains |
| Windows.Window.NextCandidate | soal1/busybox-1.37.0/archival/gzip.c:780-781 | Following prev above the limit leads to a strictly earlier position with the same hash |
| Windows.Window.ThirdByte | soal1/busybox-1.37.0/archival/gzip.c:752-758 | On a chain the third byte need not be compared |
| Windows.Window.Compare | soal1/busybox-1.37.0/archival/gzip.c:758-770 | The exact number of equal bytes, at most 258 |
| Windows.Window.LongestMatch | soal1/busybox-1.37.0/archival/gzip.c:710-784 | The longest match, and the nearest of that length, among the positions of the chain that the limits allow, unless it stops at one of nice_match bytes, which it does at the first such match; a result longer than prev_length is a real match within MAX_DIST, otherwise match_start is unchanged |
| Windows.VisitedIs | soal1/busybox-1.37.0/archival/gzip.c:780-781 | The positions visited: each is what prev holds for the one before and above the limit; the chain ends after so many of them or where prev goes to the limit or below |
| Windows.Window.SearchLimits | soal1/busybox-1.37.0/archival/gzip.c:710-725 | At most 128 positions, 32 if there is a good match already, none below strstart - 32506; a match of 128 bytes ends the search |
| Windows.Window.SkipMatch | soal1/busybox-1.37.0/archival/gzip.c:1858-1874 | Inserts every string of a match and ends behind it |
| Windows.SlideDistance | soal1/busybox-1.37.0/archival/gzip.c:661-665 | The distance to match_start survives a slide even when match_start wraps around |
| Deflating.CopyIsInput | soal1/busybox-1.37.0/archival/gzip.c:1854-1856 | Copying byte by byte, overlaps included, reproduces the input at a match |
| Deflating.CoveredMatch | soal1/busybox-1.37.0/archival/gzip.c:1854-1856 | A match token extends what the tokens stand for by the input it covers |
| Deflating.Deflater.FindMatch | soal1/busybox-1.37.0/archival/gzip.c:1825-1850 | A search is made exactly if the first candidate is near enough and the match before not good enough; what it finds is cut to the lookahead, three bytes further back than 4096 do not count, and what is accepted is a match in the input, not in leftover bytes |
| Deflating.Deflater.TakeMatch | soal1/busybox-1.37.0/archival/gzip.c:1851-1878 | The pending match becomes a token that covers the input up to strstart |
| Deflating.Deflater.Act | soal1/busybox-1.37.0/archival/gzip.c:1819-1898 | The pending match is taken exactly if it has three bytes and the new one is not longer; otherwise the pending byte goes out as a literal. One round keeps: the tokens since the last flush expand to the input up to strstart, less one byte if match_available |
| Deflating.Deflater.Refill | soal1/busybox-1.37.0/archival/gzip.c:1901-1906 | Slides and reads disturb neither the tokens nor the match still pending |
| Deflating.Deflater.StoredInput | soal1/busybox-1.37.0/archival/gzip.c:1788-1795 | As long as block_start has not gone negative, the window holds exactly the bytes of the block |
| Deflating.Deflater.Deflate | soal1/busybox-1.37.0/archival/gzip.c:1810-1912 | Ends for every input, and the whole stream decodes to it |
| Wheels.UnpackWheel | soal1/busybox-1.37.0/coreutils/factor.c:101-120 | The packed words unpack to the increments, although shifting leaves a stray bit behind large ones |
| Wheels.WheelStep | soal1/busybox-1.37.0/coreutils/factor.c:46-85 | Every number the wheel skips has a factor below 13, and the next increment starts where this one ends |
| Wheels.WheelTurn | soal1/busybox-1.37.0/coreutils/factor.c:60-89 | The wheel passes 2, 3, 5, 7, 11, 13 and comes back after 2310 |
| Factoring.Isqrt | soal1/busybox-1.37.0/libbb/isqrt.c:19-35 | The integer square root: s*s <= N < (s+1)*(s+1), below 2^32 |
| Factoring.StopPrime | soal1/busybox-1.37.0/coreutils/factor.c:155-158 | Testing divisors up to the odd-rounded square root is enough |
| Factoring.StopAtOverflow | soal1/busybox-1.37.0/coreutils/factor.c:204-206 | If the next divisor does not fit in 32 bits, what is left is prime |
| Factoring.SkipIsSafe | soal1/busybox-1.37.0/coreutils/factor.c:202-211 | Skipping along the wheel skips no divisor |
| Factoring.Factorizer.IsqrtOdd | soal1/busybox-1.37.0/coreutils/factor.c:137-159 | Either a square, dealt with by printing the factors of its root twice as often, or the bound to test up to; square_count never exceeds 32 |
| Factoring.Factorizer.Factorize | soal1/busybox-1.37.0/coreutils/factor.c:161-217 | For every 64-bit N >= 1: only primes are printed, in order, their product is N to the power square_count, and one line is ended |
| Factoring.SquareFactors | soal1/busybox-1.37.0/coreutils/factor.c:147-153 | Twice the factors of the root are the factors of the square |
| Adler.LzoAdler32 | soal1/busybox-1.37.0/archival/lzop.c:510-537 | 32-bit sums with deferred division give the checksum of section 2.2 of RFC 1950, for every starting value |
| Adler.RawIsAdler | soal1/busybox-1.37.0/archival/lzop.c:526-535 | Putting off the division changes nothing modulo 65521 |
| Adler.ChunkFits | soal1/busybox-1.37.0/archival/lzop.c:513-518 | No chunk of 5552 bytes overflows 32 bits |
| Adler.ChunkIsTight | soal1/busybox-1.37.0/archival/lzop.c:515-517 | A chunk of 5553 bytes can |
| Adler.NothingMore | soal1/busybox-1.37.0/archival/lzop.c:510-537 | No bytes leave the checksum as it is: splitting it into two sums and joining them is the identity |
| Adler.Incremental | soal1/busybox-1.37.0/archival/lzop.c:510-537 | The checksum of two pieces is that of the second continued from that of the first |
| AdlerLaws.ClosedForm | soal1/busybox-1.37.0/archival/lzop.c:510-537 | High half: sum of the running sums; low half: sum of the bytes; both modulo 65521 and continued from the halves of the starting value |
| AdlerLaws.LargestPrime | soal1/busybox-1.37.0/archival/lzop.c:514 | 65521 is the largest prime below 65536 |
| Probing.ProbesCover | soal1/busybox-1.37.0/archival/dpkg.c:194-203 | With a prime table size the probe sequence reaches every slot |
| Probing.MakeHash | soal1/busybox-1.37.0/archival/dpkg.c:169-186 | The loop computes the hash by recursion over the key, whether unsigned long has 32 or 64 bits; the start is taken from its low 32 bits and the step from all of it, and both are in range for the prime: 0..prime-1 and 1..prime-1 |
| Probing.HashIsTotal | soal1/busybox-1.37.0/archival/dpkg.c:171-183 | The hash is the first character and the sum of (key[i] + key[i-1]) * 2^(key[i] * i mod 24), cut to the width once at the end |
| Interning.NamePrime | soal1/busybox-1.37.0/archival/dpkg.c:88 | 16381 is prime |
| Interning.PackagePrime | soal1/busybox-1.37.0/archival/dpkg.c:98 | 10007 is prime |
| Interning.StatusPrime | soal1/busybox-1.37.0/archival/dpkg.c:116 | 8191 is prime |
| Interning.Fill | soal1/busybox-1.37.0/archival/dpkg.c:195-205 | Filling the slot where a search ended keeps every key within reach of its own search |
| Interning.NameTable.Search | soal1/busybox-1.37.0/archival/dpkg.c:189-206 | Ends if some slot is free or holds the string; equal strings get the same index, different strings different ones, and an index never changes its meaning |
| Interning.StopsExactly | soal1/busybox-1.37.0/archival/dpkg.c:195-203 | A search ends if and only if some slot is free or holds its key: with a full table and a new string the loop would not end |
| Interning.NameTable.SearchAll | soal1/busybox-1.37.0/archival/dpkg.c:189-206 | Over any run of calls for which there are slots enough, indices are equal exactly if the strings are |
| Versions.VersionComparePart | soal1/busybox-1.37.0/archival/dpkg.c:229-277 | For all bytes: the sign of the result is the lexicographic order of text and numbers |
| Versions.PolicyIsCmp | soal1/busybox-1.37.0/archival/dpkg.c:239-277 | That order is the rule of section 5.6.12 of the Debian Policy Manual: text, number, text, number, tilde before the end |
| PolicyLaws.CommonPrefix | soal1/busybox-1.37.0/archival/dpkg.c:240-277 | What two parts have in common in front does not matter |
| PolicyLaws.TildeFirst | soal1/busybox-1.37.0/archival/dpkg.c:229-236 | A tilde comes before anything else, even the end |
| PolicyLaws.EndNext | soal1/busybox-1.37.0/archival/dpkg.c:229-236 | The end or a number comes before any other character |
| PolicyLaws.LettersNext | soal1/busybox-1.37.0/archival/dpkg.c:229-236 | Letters come before other characters; within both kinds ASCII decides |
| PolicyLaws.NumbersDecide | soal1/busybox-1.37.0/archival/dpkg.c:256-273 | Numbers are compared by value, and if they are equal what follows decides |
| Versions.VersionCompare | soal1/busybox-1.37.0/archival/dpkg.c:283-334 | For versions in their written parts, [epoch:]upstream[-revision]: the sign is that of the epochs as numbers, else of the upstream versions by the Policy rule, else of the revisions, where none counts as empty |
| Versions.EveryVersion | soal1/busybox-1.37.0/archival/dpkg.c:293-321 | Every text is such a version: the first colon ends the epoch and the last hyphen begins the revision |
| Versions.EpochReads | soal1/busybox-1.37.0/archival/dpkg.c:293-303 | The number of an epoch is the one its digits write, below 2^32 |
| Versions.KeyAntisymmetric | soal1/busybox-1.37.0/archival/dpkg.c:283-334 | Swapping the versions changes the sign |
| Versions.KeyTransitive | soal1/busybox-1.37.0/archival/dpkg.c:283-334 | The order is transitive, and equality goes both ways |
| Versions.CmpEqual | soal1/busybox-1.37.0/archival/dpkg.c:240-277 | Two sequences of ranks compare as equal exactly if they agree once both are filled up with zeros |
| VersionForms.SameForm | soal1/busybox-1.37.0/archival/dpkg.c:240-277 | The code takes two parts for the same exactly if they have one canonical form: zeros that lead a number are dropped, a number that is zero stays as one zero before more text and vanishes at the end, so that a equals a0 but ab does not equal a0b |
| Versions.TestVersion | soal1/busybox-1.37.0/archival/dpkg.c:336-354 | The six operators against the sign |
| Versions.AcceptsIs | soal1/busybox-1.37.0/archival/dpkg.c:336-354 | A version is accepted for =, <<, <=, >> or >= exactly if it stands so to the one wanted in the order of written versions, and without an operator always |
| Depends.SearchPackage | soal1/busybox-1.37.0/archival/dpkg.c:356-377 | Finds a package of that name in an accepted version if there is one at all |
| Depends.SearchStatus | soal1/busybox-1.37.0/archival/dpkg.c:211-227 | Finds the status of a package if there is one |
| Depends.SearchForProvides | soal1/busybox-1.37.0/archival/dpkg.c:379-408 | The next package that provides a name |
| Depends.Satisfies | soal1/busybox-1.37.0/archival/dpkg.c:963-978 | For a status written as three words: for a dependency the first must be install, for a pre-dependency the third must be installed |
| Depends.WantedIs | soal1/busybox-1.37.0/archival/dpkg.c:1085-1090 | A package is one to be checked exactly if the first word of its written status is install |
| Depends.EdgeMet | soal1/busybox-1.37.0/archival/dpkg.c:1113-1147 | A dependency is met by a package of that name and version, or by any provider |
| Depends.CheckEdges | soal1/busybox-1.37.0/archival/dpkg.c:1096-1177 | Passes exactly if every clause has an alternative that is met: the counter of alternatives and the skip are right, and the corruption error cannot happen |
| Depends.CheckDependencies | soal1/busybox-1.37.0/archival/dpkg.c:1064-1179 | Passes exactly if, for every package the first word of whose status is install, each clause of its dependencies has an alternative met directly or by a provider |
| Depends.GetStatus | soal1/busybox-1.37.0/archival/dpkg.c:692-712 | The word of a status string with that number |
| Depends.StatusWords | soal1/busybox-1.37.0/archival/dpkg.c:692-712 | From a status of three words, separated by single spaces, each of the three is read |
| Fields.Node.AddSplitDependencies | soal1/busybox-1.37.0/archival/dpkg.c:429-519 | Fails exactly for an operator that is not known; otherwise the edges appended are those of the clauses that the text says, a root counting its alternatives |
| Fields.Node.AddEntry | soal1/busybox-1.37.0/archival/dpkg.c:443-515 | One clause: a root edge exactly if the text holds more than its first alternative |
| Fields.MakeEdge | soal1/busybox-1.37.0/archival/dpkg.c:459-505 | One alternative: name, operator and version from the text; for a written alternative the edge has exactly its name, version and operator |
| Fields.FieldRoundTrip | soal1/busybox-1.37.0/archival/dpkg.c:429-519 | Every well-formed field, written with commas, bars and versions in parentheses, is read as exactly the alternatives it was written from |
| Fields.FieldMeaning | soal1/busybox-1.37.0/archival/dpkg.c:429-519 | The clauses of such a field are met exactly if every one of them has an alternative that is met |
| Fields.FieldSound | soal1/busybox-1.37.0/archival/dpkg.c:429-519 | Whatever readable field it was, its edges have the form the dependency loop relies on |
| Control.FillEdges | soal1/busybox-1.37.0/archival/dpkg.c:618-675 | The edges of a package are those of the clauses of all its fields, one after another; it fails exactly if a field has an unknown operator |
| Control.AllClausesSound | soal1/busybox-1.37.0/archival/dpkg.c:618-675 | Whatever readable fields they were, all edges of a package have the form the dependency loop relies on |
| Control.FieldsMeaning | soal1/busybox-1.37.0/archival/dpkg.c:618-675 | The clauses of a package are met exactly if each of its Depends and Pre-Depends fields is; the other fields ask for nothing |
| Control.CheckFields | soal1/busybox-1.37.0/archival/dpkg.c:1064-1179 | If the edges of the packages come from their fields, the check passes exactly if every clause of every Depends and Pre-Depends field of every wanted package has an alternative that is met |
| Requirements.TextWritten | soal1/busybox-1.37.0/archival/dpkg.c:429-519 | The text of such a field: name (relation version), bars between alternatives, commas between clauses |
| Requirements.AnsweredIs | soal1/busybox-1.37.0/archival/dpkg.c:1113-1147 | A dependency is met exactly if some package of the name has a version that stands in the relation to the one written, or some package lists the name in its Provides field, and the status word of that package is right |
| Requirements.CheckControl | soal1/busybox-1.37.0/archival/dpkg.c:1064-1179 | From the text of the control data to the verdict: it passes exactly if every package whose status begins with install has, for each clause of its Depends and Pre-Depends fields, an alternative answered so |
| Expressions.Evaluator.Eval0 | soal1/busybox-1.37.0/coreutils/expr.c:522-537 | The level of the or operator: value and position are those of the parser as a function |
| Expressions.Evaluator.Eval1 | soal1/busybox-1.37.0/coreutils/expr.c:502-518 | The level of &: the same; & is 0 if either side is null |
| Expressions.Evaluator.Eval2 | soal1/busybox-1.37.0/coreutils/expr.c:472-498 | Comparisons, from the left and with higher precedence than &; numeric only if both sides are numbers |
| Expressions.Evaluator.Eval3 | soal1/busybox-1.37.0/coreutils/expr.c:448-468 | + and -, from the left, with higher precedence than comparisons; text is an error |
| Expressions.Evaluator.Eval4 | soal1/busybox-1.37.0/coreutils/expr.c:424-444 | * / %, from the left, with higher precedence than + and -; division by zero and text are errors |
| Expressions.Evaluator.Eval5 | soal1/busybox-1.37.0/coreutils/expr.c:406-420 | Pattern matching with the colon, from the left, with the highest binary precedence |
| Expressions.Evaluator.Eval6 | soal1/busybox-1.37.0/coreutils/expr.c:341-401 | quote takes the next argument as it is; length, match, index and substr take their operands at this same level |
| Expressions.Evaluator.Eval7 | soal1/busybox-1.37.0/coreutils/expr.c:317-337 | An operand, or an expression in parentheses; a missing operand or parenthesis is an error; the descent ends on every list of arguments |
| Expressions.ArithmeticCommon | soal1/busybox-1.37.0/coreutils/expr.c:247-266 | Both sides must be numbers, and dividing by zero is an error; otherwise the value of the operator if it fits in 64 bits, and if not whatever overflow does |
| ExpressionLaws.Plus | soal1/busybox-1.37.0/coreutils/expr.c:255-256 | The sum of two numbers, if it fits |
| ExpressionLaws.Minus | soal1/busybox-1.37.0/coreutils/expr.c:257-258 | The number that gives the left side when the right side is added |
| ExpressionLaws.Times | soal1/busybox-1.37.0/coreutils/expr.c:259-260 | The left side added up as often as the right side says |
| ExpressionLaws.Division | soal1/busybox-1.37.0/coreutils/expr.c:261-265 | Quotient and remainder: i = q*j + r, r smaller than j and with the sign of i |
| ExpressionLaws.ArithmeticErrors | soal1/busybox-1.37.0/coreutils/expr.c:251-262 | Text as an operand and division by zero are errors |
| ExpressionLaws.NumberText | soal1/busybox-1.37.0/coreutils/expr.c:177-203 | What is printed for a number is read as that number |
| ExpressionLaws.NumberForms | soal1/busybox-1.37.0/coreutils/expr.c:187-203 | Digits, also behind a sign or a space, are their decimal value cut to 64 bits |
| Expressions.QuotFitsExactly | soal1/busybox-1.37.0/coreutils/expr.c:262-265 | Of all quotients of 64-bit numbers, only that of the least number and -1 does not fit |
| Expressions.NoOverflow | soal1/busybox-1.37.0/coreutils/expr.c:247-266 | If no operation of an expression leaves the 64-bit range, its value does not depend on what overflow does |
| Expressions.QuotTruncates | soal1/busybox-1.37.0/coreutils/expr.c:258-263 | Division truncates toward zero: the remainder is smaller than the divisor and has the sign of the dividend or is zero |
| Expressions.QuotUnique | soal1/busybox-1.37.0/coreutils/expr.c:258-263 | No other quotient leaves such a remainder |
| Expressions.CmpCommon | soal1/busybox-1.37.0/coreutils/expr.c:217-243 | Two numbers compare by value, anything else as text |
| ExpressionLaws.ComparesNumbers | soal1/busybox-1.37.0/coreutils/expr.c:217-243 | Each of the seven comparisons of two numbers is 1 exactly if they stand so |
| ExpressionLaws.ComparesTexts | soal1/busybox-1.37.0/coreutils/expr.c:217-243 | If one side is no number, the texts are compared, numbers as they are printed: the first difference decides, or being a proper prefix |
| ExpressionLaws.Or | soal1/busybox-1.37.0/coreutils/expr.c:522-537 | The left side, unless it is empty or 0 |
| ExpressionLaws.And | soal1/busybox-1.37.0/coreutils/expr.c:502-518 | The left side, unless one of them is empty or 0; then 0 |
| ExpressionLaws.NullNumber | soal1/busybox-1.37.0/coreutils/expr.c:167-172 | A number is null exactly if it is 0 |
| ExpressionLaws.Colon | soal1/busybox-1.37.0/coreutils/expr.c:406-420 | The colon and match are the same matching of the two texts |
| ExpressionLaws.Quote | soal1/busybox-1.37.0/coreutils/expr.c:354-358 | quote gives any argument as it is |
| ExpressionLaws.Length | soal1/busybox-1.37.0/coreutils/expr.c:359-363 | The number of characters |
| ExpressionLaws.Index | soal1/busybox-1.37.0/coreutils/expr.c:372-381 | The first position that holds one of the characters, from 1; 0 if there is none |
| ExpressionLaws.Substr | soal1/busybox-1.37.0/coreutils/expr.c:382-398 | The characters from that position on, at most so many; nothing if position or length is out of range |
| ExpressionLaws.Precedence | soal1/busybox-1.37.0/coreutils/expr.c:406-537 | Of two operators the tighter one takes its operands first, and of two equally tight ones the left one; from the loosest: or, and, comparisons, sums, products, the colon |
| ExpressionLaws.Parentheses | soal1/busybox-1.37.0/coreutils/expr.c:325-333 | Parentheses make the looser operator go first |
| ExpressionLaws.KeywordFirst | soal1/busybox-1.37.0/coreutils/expr.c:341-363 | A keyword takes one operand, and operators come after it |
| ExpressionLaws.NothingAtAll | soal1/busybox-1.37.0/coreutils/expr.c:546-549 | No arguments at all are an error |
| ExpressionLaws.LeftOver | soal1/busybox-1.37.0/coreutils/expr.c:551-552 | Arguments that do not continue the expression are an error |
| ExpressionLaws.Unclosed | soal1/busybox-1.37.0/coreutils/expr.c:325-331 | So is a parenthesis that is not closed |
| Expressions.ExprEvaluates | soal1/busybox-1.37.0/coreutils/expr.c:317-559 | Writing any expression down with parentheses and quote only where needed, and running expr on it, gives the expression's value |
| Expressions.RoundTrip | soal1/busybox-1.37.0/coreutils/expr.c:317-537 | The parser uses exactly the arguments of the expression and finds its value, or fails exactly if the expression has none |
| Expressions.ArgsParse | soal1/busybox-1.37.0/coreutils/expr.c:317-537 | Parsing at any level, with anything behind the expression that cannot continue it, goes on from the expression's value |
| Expressions.ExprMain | soal1/busybox-1.37.0/coreutils/expr.c:540-559 | The whole command: an error for no arguments, for arguments left over and wherever the evaluator fails, with 64-bit numbers, digits cut to their range by strtoll, and any behaviour on overflow |
## Left out

- Deflating.Deflater.Act: the rule for giving up a pending match is stated, but how well the choice compresses is not.
- Windows.Window.LongestMatch: what the bytes behind the valid input are is left open, so the result is the longest match in the buffer and only the clamp in FindMatch makes it one in the input.
- Depends.SearchPackage: requires a free slot in the package table (and SearchStatus one in the status table), without which a search for something that is not there would not end.
- Depends.CheckDependencies: the status and package tables are values here, because the check only reads them; how they are filled from the status file is not part of the model.
- Fields.Node.AddSplitDependencies: requires something in the field and in each of its clauses, because the code dereferences NULL otherwise.
- Expressions.SubStr: size_t is taken to have 64 bits, like the numbers of expr; with fewer a length could be cut on its way to strndup.
- Probing.MakeHash: the characters of a key count as non-negative, which is exact for ASCII keys; for other bytes the sign of char decides which number is hashed, and only the ranges of start and step carry over.
- Control.FillEdges: the fields of a package arrive as name and text; how read_package_field cuts them out of a control file is not part of the model.
- Gzip.PackGzip: the file is a sequence of bytes; descriptors, file names, time stamps from the file system, deletion of the source and the option parser are not part of the model.
- TreeBuilding.CombineAll: depths are heights only below 256, where they wrap around.
- The faster configurations of gzip (CONFIG_GZIP_FAST above 0), the compression levels and the 16-bit bit buffer.
- The inflate code of libarchive: the decoder here is written from RFC 1951 alone.
- The conflicts half of check_deps, the error messages, and the scripts, archives and status files of dpkg.
- Reading numbers from the command line in factor; printing appends to a sequence, and the newline is counted.
- Printing the value and the exit status of expr.
- The framing of lzop and its LZO1X codecs.
- The other applets of the repository.
