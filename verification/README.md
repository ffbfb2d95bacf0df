# Verified models of the data structures, codecs and protocols

This project models the algorithmic core of the repository in Dafny and proves what it promises, for all inputs, all
runs and all reachable states:

- **gzip 1.5** (`zlib/gzip-1.5`): the matcher of deflate with its sliding window and hash chains, the bit writer and
  reader, huft_build, inflate, and unlzw. What deflate emits expands to its input, and inflate restores it from the bits.
- **Trees** (`tree`): the red-black tree with its string and timer clients, and the AVL tree, on linked nodes that are
  changed in place.
- **cJSON** (`json`): printer, parser and in-place minifier, which undo or agree with each other.
- **Concurrency**: the reference-counted cache in its atomic and its locked version (`kernel/lock`), and the thread pool
  (`thread/pool`), as interleaved steps of any number of threads.
- **MD5** (`md5sum`): the incremental interface against the once-padded definition of RFC 1321, for any block function.

How the files fit together:

| files | content |
|---|---|
| Common | options and sequences without repetition |
| Lz77, HashChains, LongestMatch, Deflate | LZ77 expansion, the invariant of the hash chains, the plain search, the compressor |
| BitIo, BitWriter, BitReader | numbers as bits, bits.c, the bit buffer of inflate |
| Huffman, HuftCode, HuftTable, HuftBuild, HuftSteps, HuftLoop, HuftFront | canonical codes, walking tables, huft_build from its inner loops outwards |
| InflateWindow, InflateSpec, InflateCodes, Inflate, InflateTrees, InflateHeader, InflateBlocks, InflateStream | the window, what bits stand for, the block decoders, whole streams and which of them are well-formed |
| GzipRoundTrip | from a file through deflate, the bit writer and inflate back to the file |
| LzwSpec, Unlzw, LzwCoder, LzwLimits | a decoder with a dictionary of strings, unlzw against it, a coder whose output comes back, and from how many bits on the decoder is clean |
| RbZipper, RbBalance, RbTree, RbClients | trees laid out in nodes, colours and heights, rbtree.c, its two clients |
| AvlZipper, AvlTree | the same for avltree.c |
| JsonText, JsonTree, JsonRoundTrip, JsonBounds | printing and parsing as functions, the round trip, where the passes of parse_string stay |
| JsonNumerals, JsonPieces, JsonGrammar, JsonLayout | the texts that are read, part by part, and what they stand for; the layout of printouts |
| JsonMinify, JsonPrinter, JsonParser | the loops of cJSON.c |
| RefcntAtomic, RefcntLocked | the two versions of the cache, and the refinement between them |
| ThreadPool | the pool |
| Md5 | the context and the reference definition |

Linked trees are classes whose nodes are updated in place. A tree value and a path into it describe how the nodes are laid
out; every operation is proved against what it does to that tree. Tables and windows are arrays. A protocol is a state and
a step function; an invariant is kept by every step of every thread.

Results that are not what one would expect:

- huft_build does not build usable tables for every complete set of lengths: when code lengths jump over a whole level of
  l bits, a table is made too wide and entries are never set (`HuftFront.GapExample`). `HuftFront.Build` states exactly when
  the tables decode everything, and two lemmas show that all calls made by inflate are of that kind. The comment above
  huft_build promises 2 for lengths that are all zero; the code returns 0, and the model follows the code.
- MD5Update reads behind an input whose length is within 64 bytes of 2^32, because a 32-bit sum wraps round
  (`Md5.Context.Update`, `Md5.WrapsNearLimit`).
- cJSON_Minify reads behind the end of a text exactly if a left-to-right scan of it ends inside a string or a comment
  (`JsonMinify.MinifyInPlace`, `JsonMinify.MinifyClosed`, `JsonMinify.NotClosed`).
- The two passes of parse_string in cJSON need not agree: a \u skips the next four places even if the closing quote is
  among them, so that the second pass can go on behind the string and write more than was counted, and a backslash near
  the end takes either pass behind the text (`JsonBounds.OverrunExamples`, `JsonBounds.HiddenQuote`).
  `JsonBounds.StringOverruns` and `JsonBounds.OverrunCases` say exactly when, and `JsonBounds.ParseFits` for whole texts.
  It never happens on strings with whole escapes and a closing quote (`JsonBounds.ProperInBounds`), nor on anything the
  printer writes (`JsonBounds.PrintedInBounds`).
- cJSON takes the end of the text for a closing quote, at the top of the text only (`JsonGrammar.ParsedIsGrammar`), drops
  half a surrogate pair and \u0000, and closes an empty object one tab too far to the left (`JsonLayout.LayoutIff`).
- A full cache never takes in a new object: the object thrown out is the newcomer (`RefcntAtomic.FullCacheRefuses`).
- unlzw is a clean LZW decoder for all data if and only if the header gives at least 10 bits
  (`LzwLimits.CleanFromTenBits`). With fewer, codes are still 9 bits wide, a code can stand for no entry, and the code
  behind it then refers to one that was never made (`LzwLimits.NineBits`, `LzwLimits.FewBits`). The entry made right after
  CLEAR is junk that no code refers to.
- inflate can return 0 for input that is no deflate stream. For code-length lengths that are all zero, huft_build leaves the
  values of two table entries unset, and inflate_dynamic takes the lengths from them; what memory holds there is a parameter
  of the model. `InflateStream.ExampleAccepted` has bits that are accepted where it holds 8 and 18, and
  `InflateStream.InflateAll` says that a return of 0 means a well-formed stream if and only if no dynamic block read has
  only zeros there. With a single code-length code, bits that are not that code are taken for it; the lengths are then all
  alike, and no block follows from them (`InflateHeader.ReadLengths`, `InflateBlocks.FlatFails`).
- insert of the AVL tree steps above the root, to no node, if and only if the value is that of the root (`AvlTree.Insert`).

## Model

| member | source | states |
|---|---|---|
| Deflate.Compressor.Compress | zlib/gzip-1.5/deflate.c:300-778 | For every file, every pattern of short reads and every answer of ct_tally, levels 1 to 9: the tokens of the flushed blocks are legal and expand under LZ77 to exactly the file; each block spells the bytes from block_start to strstart, and only the last is marked as the end |
| Deflate.Compressor.DeflateAll | zlib/gzip-1.5/deflate.c:678-778 | The lazy matcher (or deflate_fast, up to level 3), from any state that lm_init leaves, ends with all of the input spelt by the blocks |
| Deflate.Compressor.DeflateFast | zlib/gzip-1.5/deflate.c:596-671 | The same of the fast matcher |
| Deflate.Compressor.LazyRound | zlib/gzip-1.5/deflate.c:689-774 | A round keeps the invariant of the lazy matcher: what is tallied spells the input up to strstart, or up to the byte before it while that byte waits, and a waiting match is a true repeat that survives window slides |
| Deflate.Compressor.SearchHere | zlib/gzip-1.5/deflate.c:693-718 | The string at strstart joins its hash chain; a length above prev_length is that of a true match within MAX_DIST and the lookahead |
| Deflate.Compressor.Decide | zlib/gzip-1.5/deflate.c:722-765 | Whichever branch is taken, the tallied tokens spell the input up to the new position, and a match is kept for the next round only if it is longer than the one before |
| Deflate.Compressor.EmitPrevious | zlib/gzip-1.5/deflate.c:722-745 | The match of the previous round is emitted at the right distance although prev_match is a wrapped 32-bit window index, and all of its strings are inserted |
| Deflate.Compressor.EmitWaiting | zlib/gzip-1.5/deflate.c:747-757 | The waiting byte becomes a literal, and the tokens spell the input up to the byte that now waits |
| Deflate.Compressor.FastRound | zlib/gzip-1.5/deflate.c:603-667 | A round of deflate_fast keeps: tokens spell the input up to strstart, the chains are sound, enough lookahead or end of file; the position advances |
| Deflate.Compressor.TakeMatch | zlib/gzip-1.5/deflate.c:622-652 | A true match extends the spelling by its length, whether its strings are inserted or skipped, and leaves the rolling hash ready |
| Deflate.Compressor.SkipOver | zlib/gzip-1.5/deflate.c:645-648 | The hash restarts behind a long match without unsettling the chains |
| Deflate.Compressor.TakeLiteral | zlib/gzip-1.5/deflate.c:653-659 | A literal extends the spelling by one byte |
| Deflate.Compressor.InsertRun | zlib/gzip-1.5/deflate.c:633-643 | The loop inserts n strings one after the other and keeps chains and rolling hash |
| Deflate.Compressor.FlushBlock | zlib/gzip-1.5/deflate.c:586-588 | The block handed to flush_block spells exactly the bytes since the last flush, with the stored copy when block_start is still in the window |
| Deflate.Compressor.FillWindow | zlib/gzip-1.5/deflate.c:530-580 | Absolute positions of strstart, block_start and match_start do not change when the window slides; window, lookahead and chains stay consistent, and a byte is read unless the file ends |
| Deflate.Compressor.Slide | zlib/gzip-1.5/deflate.c:544-568 | Moving the upper half down moves every table entry with it or drops it, and keeps the chains sound |
| Deflate.Compressor.ReadMore | zlib/gzip-1.5/deflate.c:569-579 | Reading extends the window behind the data, or sets eofile and clears the bytes behind it |
| Deflate.Compressor.Refill | zlib/gzip-1.5/deflate.c:662-667 | The refill loop ends with MIN_LOOKAHEAD bytes or at the end of the file, with no position disturbed |
| Deflate.Compressor.LongestMatch | zlib/gzip-1.5/deflate.c:371-494 | The optimised search returns the same length and match_start as a plain byte-by-byte search of the same chain, and a result above prev_length is a true repeat within MAX_DIST |
| Deflate.Compressor.Probe | zlib/gzip-1.5/deflate.c:451-475 | The quick tests turn down only candidates that are no better than the best so far |
| Deflate.Compressor.Compare | zlib/gzip-1.5/deflate.c:462-475 | The unrolled comparison, which looks at the end only every eighth byte, gives the plain match length |
| Deflate.Compressor.ThirdByteAgrees | zlib/gzip-1.5/deflate.c:456-461 | The third byte need not be compared: equal hashes and two equal bytes make it equal |
| Deflate.Compressor.InsertString | zlib/gzip-1.5/deflate.c:292-295 | INSERT_STRING adds the string to its chain, returns the previous head and keeps all chains |
| Deflate.Compressor.Init | zlib/gzip-1.5/deflate.c:300-356 | lm_init rejects exactly the levels outside 1 to 9, and otherwise leaves a running state at position 0 |
| HashChains.ThirdByte | zlib/gzip-1.5/deflate.c:282-282 | With 15 hash bits and a shift of 5, the hash and two bytes determine the third byte |
| HashChains.InsertKeeps | zlib/gzip-1.5/deflate.c:284-295 | Inserting keeps: every link within reach leads to an older string with the same hash |
| HashChains.SlideKeeps | zlib/gzip-1.5/deflate.c:550-566 | Sliding keeps that invariant, positions below WSIZE becoming NIL |
| HashChains.GrowKeeps | zlib/gzip-1.5/deflate.c:569-579 | Reading more bytes behind all inserted strings keeps it |
| LongestMatch.SearchFinds | zlib/gzip-1.5/deflate.c:410-493 | The plain search finds only true repeats within MAX_DIST that beat the best before |
| LongestMatch.NextCandidate | zlib/gzip-1.5/deflate.c:490-491 | Within the limit a chain leads from candidate to older candidate |
| LongestMatch.SearchIsBest | zlib/gzip-1.5/deflate.c:410-493 | The search looks along the chain up to its end, its allotted length or a match of the nice length; no candidate it has looked at is longer than the result, and the result is the best before or the first of the longest |
| Lz77.CopyRepeat | zlib/gzip-1.5/deflate.c:622-627 | An LZ77 copy of a repeat, overlapping or not, continues the data it is a repeat of |
| BitWriter.Writer.SendBits | zlib/gzip-1.5/bits.c:128-150 | The bits sent so far, buffered ones included, grow by exactly the bits of the value, lowest first, across the 16-bit buffer boundary |
| BitWriter.Writer.Windup | zlib/gzip-1.5/bits.c:172-184 | Zero bits up to the next byte boundary, and everything sent is in the output |
| BitWriter.Writer.CopyBlock | zlib/gzip-1.5/bits.c:190-214 | Alignment, length and complement if asked for, and then the bytes |
| BitWriter.Reverse | zlib/gzip-1.5/bits.c:157-167 | The low len bits in the opposite order |
| BitReader.Reader.NeedBits | zlib/gzip-1.5/inflate.c:229-229 | The stream of unread bits does not change, and n bits are buffered unless the input has fewer |
| BitReader.Reader.Peek | zlib/gzip-1.5/inflate.c:180-218 | Masking reads the number that the next n bits stand for |
| BitReader.Reader.DumpBits | zlib/gzip-1.5/inflate.c:230-230 | Exactly n bits are taken from the front of the stream |
| BitReader.Reader.GiveBack | zlib/gzip-1.5/inflate.c:969-975 | After giving back whole bytes, the input starts at the first byte of which no bit was used |
| BitReader.FieldsRoundTrip | zlib/gzip-1.5/bits.c:124-184 | Any list of fields written by send_bits and bi_windup reads back through NEEDBITS and DUMPBITS as it was |
| HuftFront.Build | zlib/gzip-1.5/inflate.c:279-485 | Return code decided by the Kraft sum; the tables decode every bit string as the canonical code of RFC 1951 does, bit strings without a code giving an invalid entry with the value of the last symbol, if and only if FitsLevels holds, which the lengths and the root size decide; all-zero lengths give return 0 and a one-bit table of two invalid entries, whose values are whatever memory has held |
| HuftFront.GapExample | zlib/gzip-1.5/inflate.c:401-420 | A complete set of lengths whose tables leave a bit string undecoded: lengths 1 to 5, 256 times 13, root of 6 bits |
| HuftFront.TwoLevelsFit | zlib/gzip-1.5/inflate.c:401-445 | Two levels of tables always fit: this covers the literal/length and fixed codes |
| HuftFront.FewSymbolsFit | zlib/gzip-1.5/inflate.c:401-445 | A complete code of fewer than 2^l symbols always fits: this covers the distance codes |
| HuftFront.AllStart | zlib/gzip-1.5/inflate.c:358-364 | If no code is missing, every bit string of full length starts with a code |
| HuftFront.SortSymbols | zlib/gzip-1.5/inflate.c:367-381 | The value table lists the symbols by length and then by number, each exactly once |
| HuftFront.Missing | zlib/gzip-1.5/inflate.c:358-364 | The running y detects exactly the oversubscribed sets and otherwise is the number of missing codes |
| HuftLoop.MakeTables | zlib/gzip-1.5/inflate.c:384-480 | All codes entered: every bit string walks to the entry of the code it starts with if there is no gap, and some bit string is lost if there is one |
| HuftSteps.AddCode | zlib/gzip-1.5/inflate.c:397-479 | Entering one code keeps the invariant of the main loop: all bit strings before the current code are decoded, and i is the code bit-reversed |
| HuftSteps.OpenTable | zlib/gzip-1.5/inflate.c:401-445 | Linking in a new table changes nothing for bit strings already decoded |
| HuftSteps.NextCode | zlib/gzip-1.5/inflate.c:468-471 | The backwards increment turns the reversed code into the reversed next code, and the last code into 0 |
| HuftSteps.BackUp | zlib/gzip-1.5/inflate.c:473-478 | Backing up stops at the innermost table whose prefix the next code shares |
| HuftBuild.TableBits | zlib/gzip-1.5/inflate.c:406-420 | The size loop picks the smallest table that the codes of the block fill, up to the limit |
| HuftBuild.FillTable | zlib/gzip-1.5/inflate.c:463-466 | Exactly the entries that start with the code get the new entry |
| Huffman.CodeFits | zlib/gzip-1.5/inflate.c:384-480 | Canonical codes fit into their length unless the lengths are oversubscribed |
| Huffman.Canonical | zlib/gzip-1.5/inflate.c:384-480 | The two rules of section 3.2.2 of RFC 1951: codes of one length are consecutive in the order of the symbols, and shorter codes come before longer ones |
| PrefixCode.StartsUnique | zlib/gzip-1.5/inflate.c:384-480 | No code is the start of another one |
| InflateWindow.Window.Copy | zlib/gzip-1.5/inflate.c:583-604 | The copy loop, with its wrap-arounds, memcpy runs and overlapping runs, is n single LZ77 byte copies for every distance up to 32K |
| InflateWindow.Window.CopyStep | zlib/gzip-1.5/inflate.c:585-603 | One run copies no further than either end of the window and flushes a full one |
| InflateWindow.Window.SlowRun | zlib/gzip-1.5/inflate.c:595-598 | The overlapping byte loop repeats the last bytes as LZ77 does |
| InflateWindow.Window.MoveRun | zlib/gzip-1.5/inflate.c:587-592 | The memcpy is used only where source and target are apart, and then equals the byte loop |
| InflateWindow.Window.Put | zlib/gzip-1.5/inflate.c:546-555 | A literal is appended, and a full window written out |
| Inflate.Inflater.Lookup | zlib/gzip-1.5/inflate.c:536-545 | Walking the tables with NEEDBITS and DUMPBITS finds what the bits decode to, even when fewer bits than the longest code are left; it fails exactly if the bits are too few for the root table or for a table linked from there |
| Inflate.Inflater.NextSymbol | zlib/gzip-1.5/inflate.c:536-545 | The next symbol is the one whose canonical code is next, and exactly its bits are consumed; otherwise there is no such code, or, if and only if a look-up asks for more bits than are left, too few bits |
| Inflate.Inflater.ReadCopy | zlib/gzip-1.5/inflate.c:562-580 | Length and distance with their extra bits: the item that the bits are, or an invalid distance code, or, exactly if extra bits or a look-up ask for more bits than are left, too few bits |
| Inflate.Inflater.NextItem | zlib/gzip-1.5/inflate.c:536-580 | One round: input that ends early, an invalid code, the end of the block, or else the literal or copy that the bits are; each of the first three if and only if the bits are of that kind |
| Inflate.Inflater.InflateCodes | zlib/gzip-1.5/inflate.c:514-616 | The bits read are those of the items reported, and the window has been fed exactly these items; what is left in front decides the return value, in both directions: an end of block, a code that stands for nothing, or fewer bits than the look-ups and extra bits of the next item ask for |
| InflateItems.BlockUnique | zlib/gzip-1.5/inflate.c:534-606 | Bits that are a block determine its items: whatever was read is what was sent |
| Inflate.Inflater.InflateStored | zlib/gzip-1.5/inflate.c:621-670 | Exact outcome for every input: too short, length and complement do not fit, or the bytes are appended to the output |
| Inflate.StoredRoundTrip | zlib/gzip-1.5/bits.c:190-214 | After any fields, what copy_block writes inflate_stored recovers |
| InflateTrees.BuildTree | zlib/gzip-1.5/inflate.c:279-485 | For the calls inflate makes, the tables read the code completely, or with its unused codes marked invalid |
| InflateTrees.FixedComplete | zlib/gzip-1.5/inflate.c:688-699 | The fixed literal/length lengths form a complete code |
| InflateTrees.FixedDistances | zlib/gzip-1.5/inflate.c:702-710 | The fixed distance lengths form an incomplete, not oversubscribed code |
| InflateTrees.FixedCode | zlib/gzip-1.5/inflate.c:688-699 | The fixed literal/length codes are those that section 3.2.6 of RFC 1951 lists |
| InflateTrees.FixedDistanceCode | zlib/gzip-1.5/inflate.c:702-710 | The fixed distance codes are the 5-bit numbers of the symbols |
| InflateHeader.ReadCounts | zlib/gzip-1.5/inflate.c:758-767 | The three counts are the next 5, 5 and 4 bits; it fails exactly if there are fewer than 14 |
| InflateHeader.BorderOrder | zlib/gzip-1.5/inflate.c:160-161 | The order of the code-length lengths as section 3.2.7 of RFC 1951 has it: 16, 17, 18, 0, and then 8 upwards and 7 downwards in turn |
| InflateHeader.RunsAre | zlib/gzip-1.5/inflate.c:809-842 | The runs of that section: 3 to 6 times the last length, 3 to 10 zeros, 11 to 138 zeros, each number in one way |
| InflateHeader.ReadClLengths | zlib/gzip-1.5/inflate.c:776-784 | Succeeds exactly if 3 bits per length are there; the lengths read, in their permuted order and zero elsewhere, are those that the bits are |
| InflateHeader.ClUnique | zlib/gzip-1.5/inflate.c:776-784 | No other lengths have these bits |
| InflateHeader.NextLength | zlib/gzip-1.5/inflate.c:805-808 | The next symbol of the code-length code; with a single code, bits that are not that code give its symbol as well; without any code, each bit gives one of the two values that memory has held |
| InflateHeader.ReadRun | zlib/gzip-1.5/inflate.c:799-843 | One length or one run, with every outcome: it is the item that the bits are, or a run too long, or input that ends early, or bits that are not the single code; without any code, exactly what the values in memory make of the bits |
| InflateHeader.ReadLengths | zlib/gzip-1.5/inflate.c:799-843 | The bits read are those of the run-length coded items reported; the outcome is that these are all the lengths, or that the next run is too long, or that the input ends early; bits that are not the single code can only ever give lengths that are all alike; without any code, outcome, lengths and rest are those that the values in memory make of the bits |
| InflateHeader.LensUnique | zlib/gzip-1.5/inflate.c:799-843 | Bits that are a list of lengths determine it, repeats crossing from literal to distance codes included: whatever was read is what was sent |
| InflateHeader.ReadHeader | zlib/gzip-1.5/inflate.c:758-843 | A dynamic header that is followed by 15 bits is read back, whatever lengths it describes; lengths that were read are those of a header that the bits read are, unless they are all alike, or the bits give only zero lengths for the code-length code, where outcome and lengths are those that memory makes of them |
| InflateHeader.EmptyIff | zlib/gzip-1.5/inflate.c:776-784 | The code-length lengths are all zero if and only if the 3 bits of each of them are |
| InflateHeader.EmptyIsNone | zlib/gzip-1.5/inflate.c:776-843 | Bits with only zero lengths for the code-length code are no header of RFC 1951 |
| InflateBlocks.InflateFixed | zlib/gzip-1.5/inflate.c:677-722 | A fixed block that is followed by 15 bits decompresses to what its items stand for, and the input is left behind it; and if inflate_fixed succeeds, the bits read are such a block and the output is what it stands for |
| InflateBlocks.InflateLengths | zlib/gzip-1.5/inflate.c:855-892 | The same for any two lists of lengths, in both directions; it succeeds only if huft_build takes both |
| InflateBlocks.FlatFails | zlib/gzip-1.5/inflate.c:855-892 | Lengths that are all alike make no complete literal/length code, or one without an end of block |
| InflateBlocks.InflateDynamic | zlib/gzip-1.5/inflate.c:727-892 | The same of a dynamic block, in both directions, with any header for complete codes; a block whose code-length lengths are all zero is read, again in both directions, as what the values in memory make of it |
| InflateBlocks.InflatePlain | zlib/gzip-1.5/inflate.c:621-670 | The same of a stored block, in both directions |
| InflateBlocks.InflateBlock | zlib/gzip-1.5/inflate.c:898-940 | The same of a block of any type, in both directions, with its last-block bit: the block read is the block that is there |
| InflateStream.InflateAll | zlib/gzip-1.5/inflate.c:944-984 | Every stream of blocks that is followed by 15 bits is read as these blocks; if inflate returns 0, what it has read is such a stream, its output is what the blocks stand for, and the input is left at the first unused byte; and then the input starts with a stream of RFC 1951 if and only if no block read has only zero lengths for its code-length code |
| InflateStream.WellFormedIff | zlib/gzip-1.5/inflate.c:758-784 | Blocks that follow one another are a stream of RFC 1951 if and only if none of them has only zero lengths for its code-length code, which the bits of each block show |
| InflateStream.SameChain | zlib/gzip-1.5/inflate.c:944-984 | Bits that are a stream of RFC 1951 are no other stream of blocks: block by block, and with the same rest |
| InflateStream.ExampleAccepted | zlib/gzip-1.5/inflate.c:324-338 | Bits that inflate takes for a complete stream where memory holds 8 and 18, though they are none: 286 and 30 codes and four zero lengths for the code-length code |
| InflateSpec.FeedExpands | zlib/gzip-1.5/inflate.c:583-604 | If no distance reaches back beyond the start, what a block stands for is the LZ77 expansion of its tokens and does not depend on old window contents |
| InflateSpec.LengthTable | zlib/gzip-1.5/inflate.c:162-169 | The lengths of section 3.2.5 of RFC 1951: from 3 on without gap or overlap, with one more extra bit after every four symbols from 265 on, and 285 for 258 |
| InflateSpec.LengthUnique | zlib/gzip-1.5/inflate.c:162-169 | No length below 258 has two symbols or two values of the extra bits |
| InflateSpec.DistanceTable | zlib/gzip-1.5/inflate.c:170-177 | The distances of that section: from 1 to 32768 without gap or overlap, with one more extra bit after every two symbols from 4 on |
| InflateSpec.DistanceUnique | zlib/gzip-1.5/inflate.c:170-177 | No distance has two symbols or two values of the extra bits |
| GzipRoundTrip.DeflateInflates | zlib/gzip-1.5/deflate.c:678-778 | The blocks of tokens that deflate emits, as items of fixed blocks in whatever way stands for them, stand for the input |
| GzipRoundTrip.RoundTrip | zlib/gzip-1.5/deflate.c:300-778 | From file to file: every file, compressed at any level from 1 to 9, sent with the fixed codes through the bit writer, followed by any trailer of 2 bytes or more, is decompressed by inflate to itself, and the trailer is what is left of the input |
| GzipRoundTrip.Pack | zlib/gzip-1.5/bits.c:124-184 | The bytes written are the bits of fixed blocks that encode the tokens of deflate, zero bits up to a byte boundary, and the trailer |
| GzipRoundTrip.Unpack | zlib/gzip-1.5/inflate.c:944-984 | inflate, from a new reader and window over these bytes, gives back the file and leaves the trailer |
| GzipRoundTrip.Restore | zlib/gzip-1.5/inflate.c:944-984 | The same from any reader and window that start at the bits of the blocks |
| GzipRoundTrip.BlocksEncode | zlib/gzip-1.5/inflate.c:162-177 | Each length and distance of a legal token list has a symbol, and the items that these make stand for the tokens |
| GzipRoundTrip.LengthSymbol | zlib/gzip-1.5/inflate.c:162-169 | Every match length from 3 to 258 has a symbol and extra bits, and 285 is used for 258 alone |
| Unlzw.Unlzw | zlib/gzip-1.5/unlzw.c:183-370 | For every header byte and every input, output and outcome are those of a decoder that keeps a dictionary of strings; with 10 to 16 bits no entry is used that was never made |
| Unlzw.Tables.DecodeCode | zlib/gzip-1.5/unlzw.c:276-363 | One code: first code, CLEAR, known code, KwKwK, corrupt, or KwKwK behind a code without an entry; the prefix and suffix tables spell the dictionary before and after |
| Unlzw.Tables.Unwind | zlib/gzip-1.5/unlzw.c:323-328 | Following prefixes leaves the string of the code on the stack, in order |
| Unlzw.Tables.PutString | zlib/gzip-1.5/unlzw.c:294-355 | What is put out is the string of the code, or the last string and its first byte for the code still to be made |
| Unlzw.Tables.PutOut | zlib/gzip-1.5/unlzw.c:330-355 | The stack is put out completely, in pieces when the output buffer fills up |
| Unlzw.Tables.AddEntry | zlib/gzip-1.5/unlzw.c:357-362 | The new entry spells the last string and one byte more, if there is room; entry 256 after CLEAR is none |
| Unlzw.NextGroup | zlib/gzip-1.5/unlzw.c:265-266 | The expression rounds up to a whole group of eight codes |
| Unlzw.InputCode | zlib/gzip-1.5/unlzw.c:276-276 | The input macro reads the n bits at a bit position |
| LzwSpec.DecompressDecodes | zlib/gzip-1.5/unlzw.c:263-364 | With 10 to 16 bits, from any state of the decoder, no entry is used that was never made |
| LzwCoder.Recover | zlib/gzip-1.5/unlzw.c:183-370 | For all data, every way of picking strings that have codes, with a CLEAR behind any code, in any width up to 16 bits and in both modes: unlzw gives back the data from the packed codes, KwKwK included |
| LzwCoder.DecodeCodes | zlib/gzip-1.5/unlzw.c:276-363 | The same for lists of codes: the decoder gives the data back |
| LzwCoder.CodeStep | zlib/gzip-1.5/unlzw.c:292-362 | One code puts out its string; the entry that the decoder makes is the one that the coder has made from the string before and the byte behind it |
| LzwCoder.Codable | zlib/gzip-1.5/unlzw.c:276-363 | All data have such codes: those of the coder that always takes the longest string |
| LzwSpec.WidthNeeded | zlib/gzip-1.5/unlzw.c:263-275 | The width grows exactly when the next free code would not fit |
| LzwSpec.RunIs | zlib/gzip-1.5/unlzw.c:265-266 | Where the width changes, the old codes fill a whole number of groups of eight, and no more than need be |
| LzwSpec.StaysMade | zlib/gzip-1.5/unlzw.c:292-362 | One code: as long as the last code has an entry, none that was never made is used, and the code has an entry if there is room or it is a valid index |
| LzwLimits.CleanFromTenBits | zlib/gzip-1.5/unlzw.c:206-364 | That no data lead to an entry that was never made holds if and only if there are at least 10 bits |
| LzwLimits.NineBits | zlib/gzip-1.5/unlzw.c:206-364 | Data for 9 bits that do |
| LzwLimits.FewBits | zlib/gzip-1.5/unlzw.c:206-364 | Data for any smaller number of bits that do |
| Unlzw.StringsFit | zlib/gzip-1.5/unlzw.c:295-328 | The stack is large enough for every string |
| RbTree.Root.InsertColor | tree/rbtree/rbtree.c:87-150 | From a tree whose only fault is a red node under a red parent, the loop restores a red-black tree with the same order of nodes and consistent parent links |
| RbTree.Root.InsertLeft | tree/rbtree/rbtree.c:95-120 | One round moves the fault up or removes it, keeping order and black heights |
| RbTree.Root.InsertRight | tree/rbtree/rbtree.c:121-146 | The mirror image |
| RbTree.Root.EraseColor | tree/rbtree/rbtree.c:152-230 | From a tree in which one subtree is one black node short, the loop restores a red-black tree with the same order |
| RbTree.Root.EraseLeft | tree/rbtree/rbtree.c:159-192 | One round moves the missing black node up or makes up for it, in every case of the sibling's colours |
| RbTree.Root.EraseRight | tree/rbtree/rbtree.c:193-226 | The mirror image |
| RbTree.Root.RotateLeft | tree/rbtree/rbtree.c:41-62 | The links around a left rotation, for a node anywhere in the tree |
| RbTree.Root.RotateRight | tree/rbtree/rbtree.c:64-85 | The links around a right rotation |
| RbTree.Root.TurnLeft | tree/rbtree/rbtree.c:41-62 | Rotating the nodes in memory rotates the tree they are laid out as |
| RbTree.Root.TurnRight | tree/rbtree/rbtree.c:64-85 | Rotating the nodes in memory rotates the tree they are laid out as |
| RbTree.Root.Attach | tree/rbtree/rbtree.c:87-150 | Linking a node in and recolouring yields a red-black tree with the node at its place in the order, and no other node moved |
| RbTree.Root.Erase | tree/rbtree/rbtree.c:232-297 | Erasing any node yields a red-black tree with exactly that node taken out of the order |
| RbTree.Root.EraseInner | tree/rbtree/rbtree.c:241-277 | A node with two children is replaced by its successor, adjacent or not |
| RbTree.Root.EraseOuter | tree/rbtree/rbtree.c:279-296 | A node with at most one child is spliced out |
| RbTree.Root.First | tree/rbtree/rbtree.c:370-380 | The first node of the order, null exactly for the empty tree |
| RbTree.Root.Next | tree/rbtree/rbtree.c:394-420 | The neighbour in the order, null for the last node and for a cleared one |
| RbTree.Root.Walk | tree/rbtree/rbtree.c:370-420 | Following rb_next from rb_first visits all nodes in order, each once |
| RbBalance.HeightIsLogarithmic | tree/rbtree/rbtree.c:87-297 | A red-black tree of n nodes has height at most 2 log2(n + 1) |
| RbStrings.StringTree.Search | tree/rbtree/rbtree-test.c:29-47 | my_search finds a record with the string if and only if there is one |
| RbStrings.StrcmpFirst | tree/rbtree/rbtree-test.c:29-72 | The first difference decides a comparison, and a string comes behind its own beginnings |
| RbStrings.StringTree.Insert | tree/rbtree/rbtree-test.c:49-72 | my_insert adds the record exactly if its string is new, and else changes nothing; the order stays that of strcmp |
| RbTimers.TimerQueue.Add | tree/rbtree/rbtree-list.c:38-60 | The timer goes behind all that expire no later, and head->next stays the first timer of the tree |
| RbTimers.TimerQueue.Delete | tree/rbtree/rbtree-list.c:62-73 | Exactly this timer leaves, and head->next is again the first timer, null exactly when none is left |
| RbTimers.TimerQueue.IterateNext | tree/rbtree/rbtree-list.c:75-85 | The next timer in order |
| RbTimers.TimerQueue.Pending | tree/rbtree/rbtree-list.c:22-85 | Iterating from head->next lists all pending timers in nondecreasing expiry order |
| AvlTree.Insert | tree/avltree.c:118-152 | The way up starts above the root, at no node, if and only if the value is that of the root; otherwise the result is the true root of an AVL tree with exact stored heights, balance within 1, consistent parent links and search order; its keys are the old ones and the value; a value that is there changes nothing, a new one costs one node |
| AvlTree.Descend | tree/avltree.c:120-142 | The search stops at the node of the value, in the tree or new under its parent, between smaller and larger keys; at the root exactly if the root has it |
| AvlTree.Climb | tree/avltree.c:144-151 | The way up restores heights and balance of the whole tree and keeps the order of the keys |
| AvlTree.Balance | tree/avltree.c:89-116 | The rotations of balance, in memory, do what they do to the tree |
| AvlTree.RotateRight | tree/avltree.c:37-56 | Links, parent links and both heights after a right rotation, in memory and as a tree |
| AvlTree.RotateLeft | tree/avltree.c:58-75 | Links, parent links and both heights after a left rotation |
| AvlTree.AdjustHeight | tree/avltree.c:31-34 | The stored height becomes one more than the larger stored height below |
| AvlTree.Find | tree/avltree.c:15-24 | A node with the value if and only if the value is a key |
| AvlBalance.GrowsUp | tree/avltree.c:89-116 | Above a subtree that has grown by at most one level, adjust_height and balance leave a balanced subtree that has grown by at most one level: this is why insert needs no more |
| AvlBalance.StaysSame | tree/avltree.c:144-149 | Above an unchanged subtree, adjust_height and balance change nothing |
| JsonRoundTrip.RoundTrip | json/cJSON.c:264-507 | Every printable tree, printed formatted or not, parses back to itself with nothing left |
| JsonText.StringRoundTrip | json/cJSON.c:153-248 | Every string without NUL, control characters and bytes above 127 included, prints and parses back |
| JsonText.NumberRoundTrip | json/cJSON.c:95-138 | Every printed integer parses back exactly |
| JsonText.UnescapeEscape | json/cJSON.c:165-248 | Each escape that is written is undone by the escape that is read |
| JsonMinify.MinifyFormatted | json/cJSON.c:581-596 | Minifying the formatted printout of any printable tree gives its compact printout |
| JsonMinify.MinifyInPlace | json/cJSON.c:581-596 | In place, the text becomes the characters that a left-to-right scan finds in strings, or outside of strings and comments and other than tab, line feed, carriage return and space; writing never overtakes reading; it stays within the text if and only if the scan ends outside strings and block comments |
| JsonMinify.MinifyKeeps | json/cJSON.c:581-596 | The same of the text made piece by piece, for every closed text: comments of both kinds go as a whole, strings stay as they are |
| JsonMinify.MinifyPlain | json/cJSON.c:586-589 | A text without quotes and slashes loses its characters 9, 10, 13 and 32, and keeps all others in order |
| JsonMinify.MinifyClosed | json/cJSON.c:581-596 | That scan decides for every text whether it can be minified |
| JsonMinify.NotClosed | json/cJSON.c:591-592 | Texts that cannot: a lone quote, a lone comment mark |
| JsonMinify.CopyLiteral | json/cJSON.c:592-592 | A string literal is copied with its escapes; running past the end is exactly the case of an unclosed one |
| JsonMinify.SkipComment | json/cJSON.c:591-591 | A comment is skipped up to its closing mark; running past the end is exactly the case of an unclosed one |
| JsonParser.ParseText | json/cJSON.c:263-280 | For every text, outcome, tree and end position are those of the grammar functions; the text or a buffer is left if and only if one of the strings that the parser comes to is not in bounds; a text parsed to its end has only strings in bounds |
| JsonParser.ParseValueAt | json/cJSON.c:286-299 | Success, failure or overrun, value and end are those of the grammar function for values |
| JsonParser.ParseArrayAt | json/cJSON.c:320-345 | The loop over the items does what the recursive grammar function for arrays does |
| JsonParser.ParseObjectAt | json/cJSON.c:406-439 | The loop over the members does what the recursive grammar function for objects does |
| JsonParser.ParseStringAt | json/cJSON.c:155-212 | Both passes, surrogate pairs and invalid escapes included, with a buffer of the size counted: string and end are those of the grammar function, and text and buffer are left if and only if the string is not in bounds |
| JsonParser.CountAt | json/cJSON.c:160-160 | The counting pass gives the size of FirstPass, and leaves the text exactly if it ends behind a backslash |
| JsonBounds.StringOverruns | json/cJSON.c:160-206 | parse_string leaves its text or its buffer if and only if one of the two passes leaves the text or the second writes more than the first has counted |
| JsonBounds.OverrunCases | json/cJSON.c:160-206 | The ways to do so, in both directions: a pass leaves the text, or the second goes on behind the quote at which the first has stopped and writes more than was counted |
| JsonBounds.EarlyFits | json/cJSON.c:160-206 | Whatever the string, a second pass that stops no later than the first never writes more than was counted |
| JsonBounds.HiddenQuote | json/cJSON.c:179-182 | Behind a \u that skips a quote, n plain characters, 3 or more, are in bounds if and only if n is at most 4 |
| JsonBounds.OverrunExamples | json/cJSON.c:160-206 | Strings that overrun: a hidden quote, a \u at the end, a backslash at the end |
| JsonBounds.ProperInBounds | json/cJSON.c:160-206 | Every string with whole escapes and a closing quote is in bounds |
| JsonBounds.ParseFits | json/cJSON.c:263-280 | For every text, whether it can be parsed or not: the parser overruns if and only if one of the strings that it comes to is not in bounds; these are the first strings of the text, up to the place where it ends |
| JsonBounds.ParseInBounds | json/cJSON.c:263-280 | A text whose strings are all in bounds is parsed without leaving it, and a text parsed to its end is one of these |
| JsonBounds.PrintedInBounds | json/cJSON.c:215-248 | Every printout is one of these |
| JsonParser.ParseNumberAt | json/cJSON.c:96-115 | The loops over sign, digits, fraction and exponent give the decimal of the grammar function |
| JsonNumerals.NumeralParses | json/cJSON.c:96-115 | A sign, a zero, digits, digits behind a point and an exponent are read as the number that the digits without the point stand for, times ten to the exponent less the places behind the point |
| JsonNumerals.NumeralIs | json/cJSON.c:96-115 | Whatever is read as a number is a number of this form, read as what it stands for |
| JsonPieces.PiecesParse | json/cJSON.c:165-206 | Characters, short escapes, \u escapes and surrogate pairs up to a quote or the end of the text are read as the characters they stand for |
| JsonPieces.PiecesAre | json/cJSON.c:165-206 | Whatever is read as a string is made of such pieces, and read as what they stand for |
| JsonPieces.Utf8Back | json/cJSON.c:194-202 | The bytes written for a character are undone by a decoder of RFC 3629, and as few as can be |
| JsonPieces.Hex4Is | json/cJSON.c:140-151 | parse_hex4 gives the number of four hexadecimal digits, and 0 if one of the four is none |
| JsonGrammar.GrammarParses | json/cJSON.c:263-439 | Every text of the grammar, with white space of any characters up to 32 around everything, is parsed to what it stands for, if its \u escapes have four digits |
| JsonGrammar.ParsedIsGrammar | json/cJSON.c:263-439 | Whatever is parsed is a text of the grammar with the value it stands for, or a string that the end of the text closes |
| JsonGrammar.SkipSpaces | json/cJSON.c:261-261 | skip passes over exactly the characters up to 32 |
| JsonPrinter.PrintValue | json/cJSON.c:302-317 | The printout built in buffers is the printout of the tree |
| JsonLayout.LayoutIff | json/cJSON.c:442-506 | In a formatted printout, each line has as many tabs as there are brackets and braces open, if and only if no object below the top is empty |
| JsonLayout.HollowExample | json/cJSON.c:450-458 | An empty object in an array is closed one tab too far to the left |
| JsonPrinter.PrintStringPtr | json/cJSON.c:215-248 | The counting loop gives exactly the size that the writing loop needs, terminator included |
| JsonPrinter.JoinEntries | json/cJSON.c:365-402 | The buffer of print_array is large enough for what is put together in it |
| JsonPrinter.JoinMembers | json/cJSON.c:460-506 | The buffer of print_object is large enough for what is put together in it |
| RefcntAtomic.RunsAreSafe | kernel/lock/sample_refcnt_atomic.c:25-123 | In every state of every run of any number of threads: no freed object is touched; what is listed or held is allocated; refcnt is the list's reference, the one in transit and those held; outside the lock cache_num is the length of a list without repetition of at most 10 |
| RefcntAtomic.FreedOnce | kernel/lock/sample_refcnt_atomic.c:25-33 | No object is freed twice in a run |
| RefcntAtomic.FullCacheRefuses | kernel/lock/sample_refcnt_atomic.c:65-76 | In every run, the outcast of a full cache is a least popular object, and it is the very object that the thread has just put into the list |
| RefcntAtomic.ScanForId | kernel/lock/sample_refcnt_atomic.c:45-54 | The loop finds what First gives |
| RefcntAtomic.FirstIs | kernel/lock/sample_refcnt_atomic.c:45-54 | First gives an object with the id, with none of that id in front of it, or nothing if no listed object has it |
| RefcntAtomic.FindsTheId | kernel/lock/sample_refcnt_atomic.c:108-123 | In every run, a cache_find goes on with the first object that has the id asked for, or without one if no listed object has it |
| RefcntAtomic.DeletesTheId | kernel/lock/sample_refcnt_atomic.c:99-106 | In every run, a cache_delete unlinks the first object that has the id asked for, and no other |
| RefcntAtomic.AddsTheId | kernel/lock/sample_refcnt_atomic.c:65-97 | In every run, a new object has the id it is added under and keeps it, and goes to the front of the list |
| RefcntAtomic.PopularityCounts | kernel/lock/sample_refcnt_atomic.c:45-54 | In every run, the popularity of an object is the number of searches that have found it |
| RefcntAtomic.ScanForOutcast | kernel/lock/sample_refcnt_atomic.c:67-74 | The loop finds the first of the least popular objects |
| RefcntLocked.Refines | kernel/lock/sample_refcnt.c:23-129 | Every step of the atomic version is, seen through the abstraction, one whole call of the locked version or no change at all |
| RefcntLocked.RunsRefine | kernel/lock/sample_refcnt.c:23-129 | Every run of the atomic version is, state by state, a run of the locked version from the empty cache on; a call of cache_find or cache_delete is one for the id that the thread has asked for |
| RefcntLocked.TakesTheId | kernel/lock/sample_refcnt_atomic.c:108-123 | In every run, the reference that cache_find hands out is one to the first object with the id asked for |
| RefcntLocked.AddToFull | kernel/lock/sample_refcnt.c:70-101 | Adding to a full cache changes nothing |
| ThreadPool.NothingIsLost | thread/pool/thread_pool.c:11-35 | In every interleaving: items are taken in the order added, and each item added is in exactly one place: queued, with the worker that carries it, or done |
| ThreadPool.RunOnce | thread/pool/thread_pool.c:26-31 | No item is run twice |
| ThreadPool.NobodySleepsThroughWork | thread/pool/thread_pool.c:145-160 | Before shutdown a nonempty queue never meets a pool of sleepers, except while the thread that has just added an item holds the lock and is about to signal; after the broadcast no worker sleeps |
| Md5.Context.Update | md5sum/md5.c:23-51 | After any message, the context after one more input is that of the longer message: state folded over whole blocks, rest in the buffer, count words the number of bits modulo 2^64; this holds if and only if the 32-bit loop counter does not wrap round |
| Md5.Context.Final | md5sum/md5.c:53-64 | The digest is that of the block function folded over the message with its padding and length, as sections 3.1 to 3.3 of RFC 1321 define it, however the message was cut into updates |
| Md5.Context.AddCount | md5sum/md5.c:30-34 | The truncating shifts and the carry test add modulo 2^64 |
| Md5.Context.Absorb | md5sum/md5.c:36-44 | The buffered block and all whole blocks are absorbed, with the exact condition for the counter |
| Md5.Context.constructor | md5sum/md5.c:12-20 | A context of the empty message |
| Md5.WrapsNearLimit | md5sum/md5.c:41-42 | The counter wraps round only for inputs within 64 bytes of 2^32, and for all of those at a block boundary |
| Md5.CountAdds | md5sum/md5.c:30-34 | The two words after the truncated additions are those of the sum |
| Md5.Encode | md5sum/md5.c:66-80 | Words are written lowest byte first |
| Md5.Decode | md5sum/md5.c:82-96 | Words are read lowest byte first |
| Md5.DecodeEncode | md5sum/md5.c:66-96 | Decoding undoes encoding |
| Md5.PaddedWhole | md5sum/md5.c:53-62 | The padded message is a number of whole blocks, with 1 to 64 bytes of padding |
| Md5.PaddingBits | md5sum/md5.c:4-10 | The padding is a 1-bit and zero bits, 1 to 512 of them, up to 448 modulo 512 (section 3.1 of RFC 1321) |
| Md5.BitCountIs | md5sum/md5.c:30-34 | The two words are the number of bits modulo 2^64, lower word first (section 3.2) |
| Md5.InitialBytes | md5sum/md5.c:12-20 | The bytes of the first state are 01 23 45 67 and on, as section 3.3 lists them |
| Md5.FileDigest | md5sum/calc.c:33-71 | A file read in pieces of 1024 bytes gets the digest of its contents |

## Left out

- Deflate.Compressor.Tally: trees.c is not part of this model; ct_tally records a token and gives an arbitrary answer, and
  FLUSH_BLOCK records what it is given. Which codes trees.c chooses is therefore open; the end-to-end result uses the fixed codes.
- Deflate.Compressor.ReadBuf: any number of bytes per read; the CRC, the byte counters and a read that fails are not modelled,
  nor are 16-bit machines, BIG_MEM, the assembler matcher and the UNALIGNED_OK variant of the comparison.
- BitWriter.Writer.SendBits: the output buffer and its flushing to the file are one growing sequence; in-memory output is left out.
- BitReader.Reader.NeedBits: the input is one sequence, and running out of it is a result (the original ends the program).
- HuftFront.Build: running out of memory (return 3) and huft_free are left out; table pointers are indices. The value of an
  invalid entry is left over from the last symbol; where a table was linked in after it, the original has part of a pointer
  there that nobody reads. For all-zero lengths the values are a parameter of any two numbers.
- Inflate.Inflater.InflateCodes: the original leaves its global bit buffer and window position as they were on an error; the
  model keeps what was read.
- InflateHeader.ReadHeader: which error a malformed header gives is stated part by part (ReadCounts, ReadClLengths,
  ReadLengths), not for the header as a whole.
- InflateStream.InflateAll: a stream with fewer than 15 bits behind its last block may be reported as cut short, because
  table lookups ask for more bits than the codes have; the trailer of a gzip file is 64 bits.
- GzipRoundTrip.RoundTrip: trees.c is not part of this model, so the blocks are sent with the fixed codes; header and checksum
  of the gzip format are left out.
- Unlzw.Unlzw: where the original would go on with a table entry that was never made, the model stops with a result of its
  own, so what is put out from there on is open. Refilling of the input buffer, warnings about reserved flags and what is
  written before corrupt input is reported are left out.
- RbTree.Root.Erase: the tagged word of parent and colour is two fields; rb_prev, rb_last, rb_replace_node and the rb_augment
  functions are left out.
- RbStrings.StringTree.Insert: container_of is a map from nodes to their strings; my_free is left out.
- RbTimers.TimerQueue.Add: container_of is a map from nodes to expiry times; the warnings are preconditions.
- AvlTree.Insert: malloc succeeds; for the value of the root the model stops where the original uses a null pointer.
- AvlTree.Descend: the branch of the loop that returns the root is dead code and left out.
- JsonRoundTrip.RoundTrip: numbers are exact decimals, and only integers of 32 bits, which print_number writes with %d, are
  printed; the formats with a fraction or an exponent depend on floating point and are left out. Null strings and references
  are left out.
- JsonParser.ParseNumberAt: numbers are exact decimals and exponents have no bound; the rounding of double, pow and a 32-bit
  exponent that wraps round are not modelled.
- JsonParser.ParseStringAt: what happens after text or buffer have been left is open; running out of memory is left out.
- JsonParser.ParseArrayAt: children are a sequence instead of a doubly linked list.
- JsonParser.ParseObjectAt: the same.
- JsonPrinter.PrintValue: memory failures are left out.
- RefcntAtomic.RunsAreSafe: names and overflow of counters are left out; clients give back only what they hold, and cache_delete
  is called with an id that is present (the original stops the kernel otherwise).
- ThreadPool.NothingIsLost: the linked queue is a sequence; creating threads, joining them and freeing the pool are left out, and
  so are null routines and memory failures.
- Md5.Context.Update: MD5Transform is any function of a state and a block.
- Md5.FileDigest: read errors and short reads before the end of the file, and the hexadecimal form of the digest, are left out.
- Sockets, event loops, netfilter and driver modules, wrappers over foreign libraries, gzip's command line: input and output over
  code that is not shown.
- The other list, hash and sort samples of the repository: they would only add easy members.
