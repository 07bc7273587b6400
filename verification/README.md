# MegaGlest installer, map editor and symbol store: a verified model

This project models the parts of the repository that move data and must not
lose any, and proves what they do for all inputs, runs and splits into calls.

## What is modelled

- **Inflate** (`Bits`, `Huffman`, `HuffTable`, `Table`, `Rfc1951`, `Rfc1950`,
  `InflateFacts`, `StoredStream`, `Adler`, `BitReader`, `OutWindow`, `Tinfl`).
  `Rfc1951` and `Rfc1950` are a decoder by bit positions, written from section
  3.2 of RFC 1951 and section 2.2 of RFC 1950, without tables or buffers.
  `Tinfl.Decompressor` is the resumable decompressor of miniz with its resume
  labels, its two-level tables in real arrays, its bit buffer, its careful and
  unrolled paths, its copy loops and its deferred-modulo checksum. It is proved
  to give the reference decoder's bytes over any run of calls.
- **Writers** (`BitWriter`, `DeflateWriter`, `StreamWriter`, `ZlibWriter`,
  `ZipWriter`): what the formats say a stream or an archive is made of, written
  by arithmetic and field by field, without the reader's tables and offsets.
  Whatever they write reads back as what was written.
- **mz_inflate** (`MzInflate`): the 32 KiB ring between the decompressor and
  the caller, on top of `Tinfl`.
- **ZIP archives** (`Names`, `ZipEntry`, `ZipSort`, `ZipFind`, `ZipResolve`,
  `ZipFile`, `ZipOpen`): in-place sort, binary search, the memoising symlink
  resolver, and random access on top of `MzInflate`. `ZipOpen.OpenRead` puts
  them together: a name leads to a file whose reads give the content of the
  regular entry at the end of its links.
- **Digests** (`Digest`, `Sha1`, `Md5`, `Crc32`, `DigestExamples`) against
  whole-message definitions written from FIPS 180-4, RFC 1321 and RFC 1952, and
  the examples of the standards.
- **Map editor** (`History`, `MapGrid`, `MapBrush`, `MapUndo`, `MapMirror`):
  brushes, partial-layer undo points against a history of whole states, and the
  diagonal transforms that read cells they have already overwritten.
- **Symbol store** (`SymbolJobs`, `PlainJobs`): the job bookkeeping of
  symbolstore.py as steps of a main thread, workers and one callback thread,
  with Mac pre-processing and without.
- **Text** (`Utf8`, `SplitText`): the installer's UTF-8 decoder and line
  breaker.

Each class keeps the source's fields and loops; ghost fields hold what they
stand for (the output so far, the message so far, the history). The methods
are proved against the pure definitions, and the lemmas are about those.

## Where the code does less than one would expect

- `zip_find_entry` does not find every directory: the path itself as a file, or
  a name that continues it with a byte below the slash, can hide it
  (`ZipFind.DirectoryMissed`; exactly when, `ZipFind.FindsDirectoryIff`). All
  callers that ask for directories lie under `#if !__MOJOSETUP__`
  (mk/linux/mojosetup/archive_zip.c:1665-1851), so the installer's own build
  never takes that branch.
- `UndoPoint::revert` does not restore a cell with both an object and a resource:
  setting the resource clears the object (`MapUndo.RestoresIff`). No edit makes
  such a cell (`MapUndo.Program.Change`), and none is loaded
  (source/shared_lib/sources/map/map_preview.cpp:876-881), so undo is right.
- `rotatecopyXY` does not make every map its own image: not one of a single row,
  and not one that is two rows or more higher than wide but less than twice as
  high (`MapMirror.RotateCopyXY`, `MapMirror.FailsElsewhere`).
- `ProcessFiles` in symbolstore.py sets the counter of a file tuple to 0 before
  each job, so that a callback between two submissions is forgotten. The end of
  the tuple is then not noticed, and its record stays behind
  (`PlainJobs.NoticedUnlessLate`). With one architecture, the default, this
  cannot happen; with more it can (`PlainJobs.AlwaysNoticedIff`). More are
  documented for OS X only, and a cleanup function is only ever passed on after
  Mac pre-processing, where the callback thread itself submits and the count is
  right (`SymbolJobs.EveryFileCleaned`): what is lost is the record alone.
- `utf8codepoint` refuses seven surrogates only and lets the others through, and
  refuses the scalar values U+FFFE and U+FFFF (`Utf8.ScalarsAreGood`).
- `MojoSha1_append` adds the waiting bytes and the new ones in 32 bits; where that
  sum wraps, which takes a piece within 63 bytes of 4 GiB, it takes the wrong
  branch (`Sha1.BlockTestIff`).
- `MojoMd5_append` does the same in a signed 32-bit sum: from 2^31 bytes on the
  test for a full block is wrong (`Md5.BlockTestIff`).
- `splitText` remembers the last blank across line ends, so that a long word
  can be cut at a place that has no blank (`SplitText.CutAtOldBlank`; exactly
  when, `SplitText.CutWellIff`). And a line as wide as the screen is cut at a
  blank although it fits (`SplitText.FullLineKeptIff`, `SplitText.FullLineCut`).

## Model

| member | source | states |
|---|---|---|
| `Bits.TakeBits` | mk/linux/mojosetup/miniz.h:229-231 | masking and shifting the integer bit buffer takes exactly the next bits of the stream, and what stays in it are the bits after those |
| `Bits.AddByte` | mk/linux/mojosetup/miniz.h:229-231 | a byte placed above the buffered bits extends the buffer by the next eight bits of the stream |
| `Bits.MatchIffReversed` | mk/linux/mojosetup/miniz.h:365-366 | a word starts with a code of length l exactly when its low l bits are that code with its bits reversed, which is what indexing by reversed code needs |
| `Huffman.PrefixFree` | mk/linux/mojosetup/miniz.h:355-365 | in any code that passes the total check, no symbol's canonical code is a prefix of another's |
| `Huffman.StreamHasUnique` | mk/linux/mojosetup/miniz.h:256-269 | at any position of a stream at most one symbol of an accepted code matches, so decoding is well defined |
| `Huffman.AcceptableFits` | mk/linux/mojosetup/miniz.h:357-361 | the check `total == 65536` or at most one used symbol, the only one made, rules out every oversubscribed code |
| `Huffman.InnerAgainstLeaves` | mk/linux/mojosetup/miniz.h:357-374 | level by level, the used symbols of a code against the inner nodes of its tree (the Kraft count) |
| `HuffTable.TreeHasRoom` | mk/linux/mojosetup/miniz.h:101-112 | with at most 288 symbols and an accepted code the overflow tree never has more than 287 nodes, two entries each, whatever symbols are entered so far: all indices stay below 576 and all references within 16 bits |
| `HuffTable.LookFinds` | mk/linux/mojosetup/miniz.h:237-243 | with enough bits buffered the lookup gives a short code's symbol and length |
| `HuffTable.LookSound` | mk/linux/mojosetup/miniz.h:237-243 | a lookup entry whose code length is covered by the buffered bits is the symbol of the stream, even when fewer than ten bits are buffered |
| `HuffTable.TreeStep` | mk/linux/mojosetup/miniz.h:244-248 | at a tree node on the way of the stream's code, the next bit leads to the symbol if the code ends there, and else to the next node on the way |
| `HuffTable.AddInner` | mk/linux/mojosetup/miniz.h:369-373 | making a missing inner node keeps the arrays equal to the code tree of the symbols entered so far |
| `HuffTable.AddLeaf` | mk/linux/mojosetup/miniz.h:374 | writing the leaf completes a symbol of more than ten bits; all entries of other symbols stay right |
| `Table.NextCodes` | mk/linux/mojosetup/miniz.h:356-357 | the running total and next_code are the canonical first codes of section 3.2.2 of RFC 1951, for every length |
| `Table.CodesStep` | mk/linux/mojosetup/miniz.h:362-365 | taking codes in symbol order gives each symbol its canonical code |
| `Table.Reverse` | mk/linux/mojosetup/miniz.h:365 | the inner loop reverses the bits of a code |
| `Table.HuffmanTable.FillLookUp` | mk/linux/mojosetup/miniz.h:366 | the stepping loop writes exactly the lookup entries whose low bits are the reversed code |
| `Table.HuffmanTable.EnterShort` | mk/linux/mojosetup/miniz.h:366 | a code of at most ten bits: the tables then hold one symbol more |
| `Table.HuffmanTable.EnterLong` | mk/linux/mojosetup/miniz.h:367-374 | a code of more than ten bits: the tables then hold one symbol more, and tree_next is the next free node |
| `Table.HuffmanTable.Build` | mk/linux/mojosetup/miniz.h:351-375 | returns whether the code is complete or has at most one symbol, and then the two arrays are exactly its code tree |
| `Rfc1951.MatchBytes` | mk/linux/mojosetup/miniz.h:463-510 | what a match means, byte by byte: each new byte equals the one dist before it, overlap included |
| `StoredStream.AnyDataHasAStream` | mk/linux/mojosetup/miniz.h:300-332 | for all data: packed into stored blocks, the reference decoder gives it back and ends at the end of the stream, so the decoding theorems are about every possible output |
| `StoredStream.FixedAcceptable` | mk/linux/mojosetup/miniz.h:339-344 | the fixed codes of section 3.2.6 of RFC 1951 pass the table builder's check |
| `InflateFacts.BlocksExtend` | mk/linux/mojosetup/miniz.h:300-513 | decoding only ever adds to the output: whatever the rest of the stream holds, what is out so far is a prefix of the final output |
| `BitWriter.BytesHold` | mk/linux/mojosetup/miniz.h:213-231 | bits packed eight to a byte, the first one least significant, are the bits of the stream, at every position |
| `BitWriter.SymbolRead` | mk/linux/mojosetup/miniz.h:256-269 | a code written most significant bit first is found, and no other symbol is |
| `DeflateWriter.LengthStep` | mk/linux/mojosetup/miniz.h:273-274 | the lengths from 3 on that the symbols stand for follow on one another without gap or overlap, with the extra bits section 3.2.5 of RFC 1951 gives; 285 is 258 |
| `DeflateWriter.DistStep` | mk/linux/mojosetup/miniz.h:275-276 | the same for the distances, from 1 to 32768 |
| `DeflateWriter.LengthIs` | mk/linux/mojosetup/miniz.h:448-451 | the symbol and the extra bits computed from a length by halving stand for that length |
| `DeflateWriter.DistIs` | mk/linux/mojosetup/miniz.h:453-455 | the same for every distance |
| `DeflateWriter.FixedLitIs` | mk/linux/mojosetup/miniz.h:339-344 | the canonical codes of the fixed lengths are those of the table of section 3.2.6 of RFC 1951, bit by bit |
| `DeflateWriter.FixedDistIs` | mk/linux/mojosetup/miniz.h:339-344 | and the distances are the five bits of their symbol |
| `DeflateWriter.BodyRead` | mk/linux/mojosetup/miniz.h:400-513 | any literals and matches written in any accepted codes read back as the data they spell |
| `StreamWriter.ClLensIs` | mk/linux/mojosetup/miniz.h:277-348 | the code length code comes in the order that goes from the middle outwards |
| `StreamWriter.HeaderRead` | mk/linux/mojosetup/miniz.h:345-393 | any code lengths, run-length coded in any way, read back as the two codes of the block |
| `StreamWriter.BlocksRead` | mk/linux/mojosetup/miniz.h:300-513 | blocks of all three kinds, in any order and from any position, read back as their data |
| `StreamWriter.WrittenInflates` | mk/linux/mojosetup/miniz.h:300-513 | every written stream decodes to the data it tells, and ends where it was written to: stored, fixed and dynamic blocks, matches of every length at every distance, codes of every shape |
| `StreamWriter.AnyTokensCanBeWritten` | mk/linux/mojosetup/miniz.h:300-513 | and whatever spells the data, with matches or without, can be written in the fixed codes and in codes of its own |
| `ZlibWriter.SumsAre` | mk/linux/mojosetup/miniz.h:524-535 | the byte-wise sums are those over the whole output, the first byte counted as often as there are bytes |
| `ZlibWriter.WrappedInflates` | mk/linux/mojosetup/miniz.h:292-298 | a wrapped stream, of any window size, level and content, decodes with its checksum if its window fits, and else is refused |
| `ZlibWriter.WrongChecksum` | mk/linux/mojosetup/miniz.h:514-540 | with any other four bytes behind it, the mismatch is noticed |
| `ZlibWriter.FourthType` | mk/linux/mojosetup/miniz.h:333-336 | a block of type 3 is refused |
| `ZlibWriter.WrongLength` | mk/linux/mojosetup/miniz.h:305-307 | stored bytes whose number and complement do not agree are refused |
| `InflateFacts.BlocksEnd` | mk/linux/mojosetup/miniz.h:300-513 | a block is read before the end of the stream, so what has been read tells how much is still needed |
| `Adler.SumStep` | mk/linux/mojosetup/miniz.h:530-535 | from reduced sums, 5552 bytes of any value never take the two sums past 32 bits, and modulo 65521 they stay the sums of RFC 1950 |
| `Adler.Update` | mk/linux/mojosetup/miniz.h:524-538 | the blocked loop, whose first block may be empty, ends, and turns the checksum of what came before into that of the whole, for every chunking |
| `Rfc1950.TrailerIs` | mk/linux/mojosetup/miniz.h:514-517 | the four bytes behind the last block, shifted one by one into the field that starts as 1, are the big-endian checksum they are compared as, or the stream ends short of it |
| `BitReader.Reader.Get` | mk/linux/mojosetup/miniz.h:213-231 | a GET_BITS gives the next n bits of the stream, or suspends without losing any |
| `BitReader.Reader.Fill` | mk/linux/mojosetup/miniz.h:237-250 | the careful fill ends with a whole code in the buffer, and suspends only with the input used up and the code still incomplete |
| `BitReader.Reader.Verdict` | mk/linux/mojosetup/miniz.h:239-243 | whether a lookup entry settles the symbol, for any number of buffered bits |
| `BitReader.Reader.HuffDecode` | mk/linux/mojosetup/miniz.h:256-269 | both refill paths decode exactly the symbol at the position and consume exactly its code's length; a resumed call goes on where the code was incomplete |
| `BitReader.Reader.NextSymFast` | mk/linux/mojosetup/miniz.h:410-435 | the unrolled refill of four bytes (or two) decodes the same symbol from the same position, and leaves enough bits for the second one |
| `OutWindow.RingSource` | mk/linux/mojosetup/miniz.h:283-286 | in a ring that holds the last bytes, the masked source index holds the byte dist back, for every distance up to the ring's size |
| `OutWindow.MaskedIs` | mk/linux/mojosetup/miniz.h:463-470 | masking the running offset in the copy loop is stepping back in the ring, laps included |
| `OutWindow.Window.CopyWrapped` | mk/linux/mojosetup/miniz.h:465-472 | the byte loop copies as far as there is room, and what is left of the match then is the rest of the same match |
| `OutWindow.Window.CopyEights` | mk/linux/mojosetup/miniz.h:475-495 | copying eight bytes at a time is the byte-by-byte copy when the length is at most the distance |
| `OutWindow.Window.CopyThrees` | mk/linux/mojosetup/miniz.h:497-510 | copying three bytes at a time, with its remainder of one or two, is the byte-by-byte copy for every distance |
| `OutWindow.Window.Copy` | mk/linux/mojosetup/miniz.h:457-510 | whichever path is taken, a match of length 3 or more at distance 1 to the ring's size gives the bytes of a byte-by-byte windowed copy, or stops when the region is full with the rest still to do |
| `Tinfl.Decompressor.StepFast` | mk/linux/mojosetup/miniz.h:409-446 | the unrolled path decodes one or two symbols exactly as the careful path would, and always makes progress |
| `Tinfl.Decompressor.StepSymbol` | mk/linux/mojosetup/miniz.h:400-408 | the careful path decodes one symbol, or suspends with the state it needs to go on |
| `Tinfl.Decompressor.StepDistBits` | mk/linux/mojosetup/miniz.h:455-473 | distance extra bits and the copy: the output gains the match, or the rest of it waits in state 53 |
| `Tinfl.Decompressor.StepRawHeader` | mk/linux/mojosetup/miniz.h:305-307 | the two lengths of a stored block, read from the bit buffer or from the input; a block is rejected exactly when they are not complements |
| `Tinfl.Decompressor.StepRawByte` | mk/linux/mojosetup/miniz.h:308-331 | stored bytes come out unchanged whether they are still in the bit buffer or copied in one go |
| `Tinfl.Decompressor.StepBlockStart` | mk/linux/mojosetup/miniz.h:302-344 | the block header leads to the stored, fixed or dynamic case of the reference decoder, and type 3 to rejection |
| `Tinfl.Decompressor.StepClSizes` | mk/linux/mojosetup/miniz.h:348-375 | the code length code's lengths in their own order, then its table |
| `Tinfl.Decompressor.StepLenCode` | mk/linux/mojosetup/miniz.h:376-393 | the run-length coded lengths; rejected exactly when a repeat comes first or the runs do not end at the announced count |
| `Tinfl.Decompressor.FillCodes` | mk/linux/mojosetup/miniz.h:386 | writes a run of lengths behind those read so far, which stay; it must end within the 457 slots, and every call does, with runs of up to 138 that start below 320 |
| `Tinfl.Decompressor.CheckZlib` | mk/linux/mojosetup/miniz.h:292-298 | accepts a zlib header exactly when section 2.2 of RFC 1950 does and its window fits the buffer |
| `Tinfl.Decompressor.StepTrailer` | mk/linux/mojosetup/miniz.h:514-517 | the checksum bytes after the last block, from the byte boundary |
| `Tinfl.Decompressor.Step` | mk/linux/mojosetup/miniz.h:289-519 | every step from one resume label to the next keeps the invariant (what is decoded so far, and what the rest of the stream still leads to), and uses up bits or goes to an earlier label |
| `Tinfl.Decompressor.Run` | mk/linux/mojosetup/miniz.h:289-523 | the call ends, by suspension or for good, with the invariant |
| `Tinfl.Decompressor.SoFar` | mk/linux/mojosetup/miniz.h:271-541 | in every state, resumed or not, the output so far is a prefix of the stream's full decode |
| `Tinfl.Decompressor.Decompress` | mk/linux/mojosetup/miniz.h:271-541 | for every stream whose decode is defined, every split of it into input pieces and every sequence of output regions of a ring of at least 32768 bytes or of one flat buffer: the bytes of all calls together are a prefix of what the bit-level decoder of RFC 1951 gives; a call returns done (mismatch, failed) only with all of it out and the stream good (checksum wrong, malformed), and with at most eight bytes taken beyond its end; it asks for input only when it has none left and what it had so far is not the whole stream, and for room only when it has none left and more bytes follow; a ring whose size is no power of two is refused untouched |
| `MzInflate.RingDelivers` | mk/linux/mojosetup/miniz.h:642-645 | handing out n bytes keeps the ring's pending bytes the ones that follow in the stream, across its end |
| `MzInflate.Stream.constructor` | mk/linux/mojosetup/miniz.h:551-580 | the state after initialisation: nothing taken, nothing delivered, first call ahead |
| `MzInflate.Stream.Deliver` | mk/linux/mojosetup/miniz.h:639-645 | a copy out of the ring moves exactly min(available, room) bytes and touches nothing else of the caller's buffer |
| `MzInflate.Stream.Refill` | mk/linux/mojosetup/miniz.h:634-643 | the decompressor is re-entered only with the ring drained and at the offset where it stopped, and then the ring holds the next bytes of the stream |
| `MzInflate.Stream.Pump` | mk/linux/mojosetup/miniz.h:634-670 | the loop ends; its answer says whether the stream is over and all of it delivered; an OK with room moved something |
| `MzInflate.Stream.AllAtOnce` | mk/linux/mojosetup/miniz.h:603-624 | a first call with MZ_FINISH decodes straight into the caller's buffer: stream end with all of the output there, or the buffer was too small, or the data is bad |
| `MzInflate.Stream.Inflate` | mk/linux/mojosetup/miniz.h:582-671 | one call with any flush value, any input and any room: delivered bytes are appended to those before and are what follows in the full decode; MZ_STREAM_END if and only if the stream is good, all of it was taken in and all of its output is delivered; MZ_DATA_ERROR if and only if the status is bad, and for good after one; MZ_STREAM_ERROR exactly for bad flush values or after a finish; MZ_BUF_ERROR only without input or room, and for a first finishing call exactly if the output is longer than the buffer |
| `MzInflate.Stream.DeliveredIsPrefix` | mk/linux/mojosetup/miniz.h:582-671 | after any sequence of calls the delivered bytes are a prefix of the stream's decode |
| `MzInflate.ServesThen` | mk/linux/mojosetup/miniz.h:634-670 | what two calls in a row do to the caller's buffer and input is what one would, which is how runs of calls compose |
| `Names.LeTrans` | mk/linux/mojosetup/archive_zip.c:1266-1275 | strcmp's order is transitive, strictly so if either step is strict |
| `Names.CmpIs` | mk/linux/mojosetup/archive_zip.c:1266-1275 | it is the order of bytes: the first that differs decides, and a name comes before its continuations |
| `Names.CmpEqual` | mk/linux/mojosetup/archive_zip.c:1266-1275 | strcmp says 0 exactly for equal names |
| `Names.PrefixDecides` | mk/linux/mojosetup/archive_zip.c:732-774 | comparing the first strlen(path) bytes decides the full comparison unless they are equal; then the rest does |
| `ZipSort.EntryCmp` | mk/linux/mojosetup/archive_zip.c:1266-1275 | the sign of the comparison is the order of the names |
| `ZipSort.BubbleStep` | mk/linux/mojosetup/archive_zip.c:138-149 | one exchange moves the greatest name on and leaves the settled end alone |
| `ZipSort.BubbleSort` | mk/linux/mojosetup/archive_zip.c:132-151 | the range ends up in order, rearranged, and nothing outside it is touched; the loop ends |
| `ZipSort.Median` | mk/linux/mojosetup/archive_zip.c:166-173 | the median of three is at hi - 1, with the least at lo and the greatest at hi as sentinels |
| `ZipSort.Partition` | mk/linux/mojosetup/archive_zip.c:166-184 | the two scans stay inside the range and split it: nothing right of the gap is less than anything left of it, also for equal keys, with one element between the parts when the scans meet |
| `ZipSort.SidesSorted` | mk/linux/mojosetup/archive_zip.c:185-186 | sorting [lo, j] and [i + 1, hi] sorts [lo, hi], although position i, and with it a one-element gap, is in neither call |
| `ZipSort.QuickSort` | mk/linux/mojosetup/archive_zip.c:154-188 | every range is sorted and rearranged only within itself; the recursion ends |
| `ZipSort.Sort` | mk/linux/mojosetup/archive_zip.c:191-201 | for every array, duplicates included: a sorted permutation of it |
| `ZipFind.FindEntry` | mk/linux/mojosetup/archive_zip.c:732-774 | the binary search loop computes the pure search function, for files and for directories |
| `ZipFind.FindsName` | mk/linux/mojosetup/archive_zip.c:732-774 | in a sorted directory an entry is found exactly when one with that full name exists, even among names that are prefixes of each other, and the one found has it |
| `ZipFind.DirectoryIsThere` | mk/linux/mojosetup/archive_zip.c:754-762 | a directory is reported only if a file lies in it |
| `ZipFind.InDirectoryIs` | mk/linux/mojosetup/archive_zip.c:754-762 | a file lies in a directory if its name is the path, a slash and anything |
| `ZipFind.FindsDirectoryIff` | mk/linux/mojosetup/archive_zip.c:732-774 | in any sorted directory: a directory is reported if and only if bisection comes to one of its files before it comes to the path itself or a name that continues it with a byte below the slash; otherwise the answer is the file of that name, or nothing if there is none |
| `ZipFind.FirstHitDecides` | mk/linux/mojosetup/archive_zip.c:732-774 | the same for every part of the list that holds those three groups of names: which of them the search comes to first settles the answer |
| `ZipFind.FindsDirectory` | mk/linux/mojosetup/archive_zip.c:754-762 | so it is always reported when no entry has the directory's own name or continues it with a byte below the slash |
| `ZipFind.DirectoryMissed` | mk/linux/mojosetup/archive_zip.c:754-762 | two directories in which it is not: with a.b and a/c, and with a and a/b, the directory a is not found |
| `ZipResolve.Archive.ParseLocal` | mk/linux/mojosetup/archive_zip.c:949-990 | true exactly when every field of the local header agrees; only then the offset moves, by the header's own lengths |
| `ZipResolve.Archive.Resolve` | mk/linux/mojosetup/archive_zip.c:993-1035 | ends for every graph of links (fewer unresolved entries at each call down); true exactly when the entry's chain reaches a regular entry with every header on the way in order; the entry then is in its final state, and entries already settled are untouched |
| `ZipResolve.Archive.ResolveSymlink` | mk/linux/mojosetup/archive_zip.c:883-943 | the link ends up pointing to the regular entry at the end of its chain, or to nothing |
| `ZipResolve.Archive.FollowSymlink` | mk/linux/mojosetup/archive_zip.c:861-880 | the target is the regular entry at the end of the chain of the named one, not an intermediate link |
| `ZipResolve.Archive.StateOf` | mk/linux/mojosetup/archive_zip.c:993-1035 | what each resolve state says: RESOLVING exactly the links being followed, BROKEN and RESOLVED their chain's verdict |
| `ZipResolve.Listing.LoopNeverEnds` | mk/linux/mojosetup/archive_zip.c:993-1012 | a link met again while it is being followed has a chain that never ends |
| `ZipResolve.Listing.IntoLoop` | mk/linux/mojosetup/archive_zip.c:993-1012 | so does every link whose chain runs into a loop: all of them end up broken |
| `ZipResolve.Listing.GoodIsShort` | mk/linux/mojosetup/archive_zip.c:861-943 | a chain that ends at all ends within as many steps as there are entries |
| `ZipResolve.Listing.SettledSays` | mk/linux/mojosetup/archive_zip.c:883-1035 | the final state of an entry: RESOLVED exactly for good chains, its symlink the final regular entry, its offset moved once or not at all, its other fields as loaded |
| `ZipResolve.Listing.SameVerdict` | mk/linux/mojosetup/archive_zip.c:993-1035 | in any two histories of queries, an entry that was reached in both has the same final state in both, and is RESOLVING in neither |
| `ZipFile.ObjectsFit` | mk/linux/mojosetup/archive_zip.c:419-431 | as many whole objects as asked for or as fit in what is left |
| `ZipFile.ReadsAreOneSlice` | mk/linux/mojosetup/archive_zip.c:413-484 | any run of reads of any object sizes gives one slice of the data from where it began |
| `ZipFile.ReadsTakeAll` | mk/linux/mojosetup/archive_zip.c:413-484 | with single bytes as objects the slice has min(requested, remaining) bytes |
| `ZipFile.File.Drain` | mk/linux/mojosetup/archive_zip.c:444-476 | the decode loop ends and delivers exactly the n bytes asked for, through 128 KiB input pieces of any alignment with the stream |
| `ZipFile.File.ReadPacked` | mk/linux/mojosetup/archive_zip.c:438-476 | a packed entry: the plaintext slice at the current position |
| `ZipFile.File.ReadStored` | mk/linux/mojosetup/archive_zip.c:433-436 | a stored entry: the same, straight from the archive |
| `ZipFile.File.Read` | mk/linux/mojosetup/archive_zip.c:413-484 | after any history of reads and seeks: the plaintext slice at the current position, as many whole objects as asked for or left, nothing else of the buffer touched |
| `ZipFile.File.Seek` | mk/linux/mojosetup/archive_zip.c:509-563 | succeeds exactly within the file, forward by decoding on and backward by starting again, and leaves a state from which every read is right; a failed seek changes nothing |
| `ZipFile.File.constructor` | mk/linux/mojosetup/archive_zip.c:1895-1920 | a file opened at the entry's data is at position 0 and in order |
| `ZipOpen.OpenRead` | mk/linux/mojosetup/archive_zip.c:1882-1927 | opens exactly the names whose chain is good, at position 0 of the content of the regular entry the chain ends at; the file exists flag says whether the name is in the directory |
| `ZipWriter.HeaderRead` | mk/linux/mojosetup/archive_zip.c:949-990 | a local header written field by field is accepted if and only if its fields agree with the directory, zeros and all ones for unknown sizes included; its size is that of all its bytes, name and extra field too |
| `ZipWriter.MemberRead` | mk/linux/mojosetup/archive_zip.c:949-990 | behind it the offset is at the member's data: the bytes themselves for method 0, for method 8 a stream that decodes to them |
| `ZipWriter.WrittenUnpacks` | mk/linux/mojosetup/archive_zip.c:438-476 | as every written deflate stream does |
| `ZipWriter.ReadBack` | mk/linux/mojosetup/archive_zip.c:1882-1927 | opening a member of an archive and reading it gives exactly what was packed, for every archive and any content; a symlink gives what is packed in the regular entry at the end of its chain, and opens exactly if there is one |
| `Digest.CountsAdd` | mk/linux/mojosetup/checksum_sha1.c:144-146 | the two 32-bit count words with their carry hold eight times the length modulo 2^64, for any pieces |
| `Digest.BlocksJoin` | mk/linux/mojosetup/checksum_sha1.c:147-156 | blocks of a message taken in two parts at a block boundary come to the same state |
| `Digest.PadFound` | mk/linux/mojosetup/checksum_sha1.c:171-174 | the padding loop's test first holds after the number of zeros section 5.1.1 of FIPS 180-4 asks for, at most 63 |
| `Sha1.Blk` | mk/linux/mojosetup/checksum_sha1.c:56-65 | the 16-word block overwritten in place gives word t of the 80-word schedule, on either byte order |
| `Sha1.SlotsAre` | mk/linux/mojosetup/checksum_sha1.c:64-65 | when word t is made, the four slots it is made from still hold words t-3, t-8, t-14 and t-16 |
| `Sha1.GIs` | mk/linux/mojosetup/checksum_sha1.c:68-72 | the rewritten choice and majority functions are those of section 4.1.1 of FIPS 180-4 |
| `Sha1.RoundIs` | mk/linux/mojosetup/checksum_sha1.c:68-72 | a round that updates one register and rotates another, names unchanged, is a round that shifts all five registers |
| `Sha1.FiveRounds` | mk/linux/mojosetup/checksum_sha1.c:94-114 | five rounds with renamed registers end with the names back in place |
| `Sha1.Transform` | mk/linux/mojosetup/checksum_sha1.c:77-121 | one block: the compression function of section 6.1.2 of FIPS 180-4 |
| `Sha1.MojoSha1.Append` | mk/linux/mojosetup/checksum_sha1.c:140-157 | for every split of a message into pieces that BlockTestIff admits: state, counts and buffer stand for all of it so far |
| `Sha1.BlockTestIff` | mk/linux/mojosetup/checksum_sha1.c:147-155 | the 32-bit test for a full block is right if and only if the waiting bytes and the new ones are fewer than 2^32 together; otherwise it fails although a block is full |
| `Sha1.MojoSha1.PadMessage` | mk/linux/mojosetup/checksum_sha1.c:171-174 | appending 0x80 and then zeros one at a time ends, and is the standard's padding |
| `Sha1.MojoSha1.Finish` | mk/linux/mojosetup/checksum_sha1.c:162-186 | the digest of the whole message as FIPS 180-4 defines it |
| `Md5.CodedIs` | mk/linux/mojosetup/checksum_md5.c:82-146 | all 64 constants, those written as complements too, are the table of section 3.4 of RFC 1321 |
| `Md5.StepsAre` | mk/linux/mojosetup/checksum_md5.c:225-318 | the 64 written pairs of word index and rotation are those section 3.4 of RFC 1321 asks for, step by step |
| `Md5.SetIs` | mk/linux/mojosetup/checksum_md5.c:215-328 | one SET as it is written, with its register order and its own index, rotation and constant, is step i of section 3.4 of RFC 1321 |
| `Md5.FourSteps` | mk/linux/mojosetup/checksum_md5.c:225-318 | four steps with renamed registers end with the names back in place |
| `Md5.Process` | mk/linux/mojosetup/checksum_md5.c:149-328 | one block: the four rounds of RFC 1321 and the final additions, on either byte order |
| `Md5.MojoMd5.Append` | mk/linux/mojosetup/checksum_md5.c:340-376 | for every split of a message into pieces that BlockTestIff admits: registers, counts and the live part of the buffer stand for all of it so far |
| `Md5.BlockTestIff` | mk/linux/mojosetup/checksum_md5.c:358-363 | the signed test for a full block is right if and only if the waiting bytes and the new ones are fewer than 2^31 together |
| `Md5.MojoMd5.PadIs` | mk/linux/mojosetup/checksum_md5.c:393-394 | the coded length ((55 - (count >> 3)) & 63) + 1, in unsigned 32 bits and for any message, is that of 0x80 and the zeros of section 3.1 of RFC 1321 |
| `Md5.MojoMd5.Finish` | mk/linux/mojosetup/checksum_md5.c:378-399 | the digest of the whole message as RFC 1321 defines it |
| `DigestExamples.ShaOfAbc` | mk/linux/mojosetup/checksum_sha1.c:54-186 | the example of FIPS 180: the digest of abc |
| `DigestExamples.Md5OfAbc` | mk/linux/mojosetup/checksum_md5.c:82-399 | the example of section A.5 of RFC 1321: the digest of abc |
| `Crc32.ShiftLinear` | mk/linux/mojosetup/checksum_crc32.c:50-58 | one step of the register is linear over exclusive or |
| `Crc32.ShiftInjective` | mk/linux/mojosetup/checksum_crc32.c:50-58 | and loses nothing: the polynomial's top bit tells which way it went |
| `Crc32.FeedEarly` | mk/linux/mojosetup/checksum_crc32.c:50-58 | bits may be added to the register k steps early, shifted up by k, which is why a byte can be taken at once |
| `Crc32.ByteAtOnce` | mk/linux/mojosetup/checksum_crc32.c:48-60 | the byte-wise computation is feeding the byte bit by bit, least significant first, as in section 8 of RFC 1952 |
| `Crc32.MojoCrc32.Append` | mk/linux/mojosetup/checksum_crc32.c:42-62 | for any split into calls the register is that of the whole message |
| `Crc32.MojoCrc32.Finish` | mk/linux/mojosetup/checksum_crc32.c:65-68 | the digest is the standard's CRC of the whole message |
| `Crc32.FeedInjective` | mk/linux/mojosetup/checksum_crc32.c:42-62 | different registers before the same bytes stay different |
| `Crc32.BurstDetected` | mk/linux/mojosetup/checksum_crc32.c:42-68 | two messages of equal length that differ only within four consecutive bytes always have different digests |
| `Crc32.Residue` | mk/linux/mojosetup/checksum_crc32.c:42-68 | a message followed by its own checksum always has the checksum 0x2144DF1C |
| `Crc32.CheckValue` | mk/linux/mojosetup/checksum_crc32.c:42-68 | the digits 1 to 9 have the checksum 0xCBF43926 |
| `MapUndo.UndoPoint.Init` | source/glest_map_editor/program.cpp:45-89 | a point keeps exactly the layers its kind of change may touch, as they are now |
| `MapUndo.UndoPoint.Revert` | source/glest_map_editor/program.cpp:98-139 | those layers are written back and all others stay, for every kind of change; objects and then resources, each by its setter, which may clear the other |
| `MapUndo.RestoresIff` | source/glest_map_editor/program.cpp:123-136 | so a cell is restored if and only if it had not both an object and a resource |
| `MapUndo.WithinIff` | source/glest_map_editor/program.cpp:45-89 | field by field: the edits a point of each kind covers are those that leave alone what it does not save |
| `MapUndo.ChangeStack.Push` | source/glest_map_editor/program.h:51-63 | a push onto 100 points drops the oldest one |
| `MapUndo.Program.SetUndoPoint` | source/glest_map_editor/program.cpp:207-214 | a full-state history: the present is marked, the redo side is discarded, the past is cut to 100 states; a change of start locations records nothing |
| `MapUndo.Program.Step` | source/glest_map_editor/program.cpp:216-240 | moving the top of one stack over the map to the other restores the whole earlier state, although only some layers are saved on either side |
| `MapUndo.Program.Undo` | source/glest_map_editor/program.cpp:216-227 | refines one step back in the history of whole states |
| `MapUndo.Program.Redo` | source/glest_map_editor/program.cpp:229-240 | refines one step forward in it |
| `MapUndo.Program.EditKeeps` | source/glest_map_editor/program.cpp:207-214 | an edit within its point's layers changes the present of the history and nothing else |
| `MapUndo.Program.Change` | source/shared_lib/sources/map/map_preview.cpp:442-506 | a stroke of the height, surface, object or resource brush: exactly the cells of the brush are changed, each as the source does; it stays within its point, and no cell gets both an object and a resource |
| `MapBrush.InBrushIs` | source/shared_lib/sources/map/map_preview.cpp:114-122 | the cells whose rounded distance is less than the radius are those with dx^2 + dy^2 <= radius^2 - radius |
| `MapBrush.Paint` | source/shared_lib/sources/map/map_preview.cpp:442-506 | the loops of a brush reach all of them, also at the map's edge, and no other cell |
| `History.UndoTakesBack` | source/glest_map_editor/program.cpp:207-227 | a point, any edit and an undo: the state is as it was, and the edit can be redone |
| `History.UndoIsBack` | source/glest_map_editor/program.cpp:216-240 | an undo keeps the line of states and the bound of 100 on both stacks together, and a redo takes it back exactly |
| `History.RedoIsForward` | source/glest_map_editor/program.cpp:216-240 | and the other way round |
| `History.UndosAndRedos` | source/glest_map_editor/program.cpp:216-240 | n undos give the state n back, and n redos after them restore everything |
| `History.EndsStay` | source/glest_map_editor/program.h:51-63 | the bounded history always is the recent end of the unbounded one: only states more than 100 back are ever lost |
| `MapMirror.WideNext` | source/glest_map_editor/program.cpp:403-408 | the cell that is read has the right content whether or not the same loop has overwritten it already |
| `MapMirror.RotateWide` | source/glest_map_editor/program.cpp:403-408 | row by row: which old cell each cell holds at the end, for all sizes; every cell equals its image under a half turn if of two images at least one is copied |
| `MapMirror.RotateTall` | source/glest_map_editor/program.cpp:409-414 | the same column by column |
| `MapMirror.RotateCopyXY` | source/glest_map_editor/program.cpp:397-414 | for maps of all sizes, which cells stay and which take the content of their image: cells that are not written stay, their images take their content, and of two written ones both get the second half's in the order of copying; so every cell ends up equal to its image if the map has more than one row, or one cell, and is at most one row higher than wide or at least twice as high; of other maps a single row stays as it was, and so do the first cell of the second row and its image |
| `MapMirror.FailsElsewhere` | source/glest_map_editor/program.cpp:397-414 | and for every other size there is a map that does not become its own image |
| `MapMirror.MirrorXY` | source/glest_map_editor/program.cpp:306-333 | for every size for which the source stays inside the map, cell by cell: right of the diagonal of blocks a cell gets what is across it, all others stay; so the map is symmetric across that diagonal |
| `SymbolJobs.CountsFinished` | mk/linux/symbolstore.py:394-404 | decrement and delete at zero keep the record equal to the number of outstanding jobs of each file |
| `SymbolJobs.Dumper.JobFinished` | mk/linux/symbolstore.py:394-404 | what the method does to the dictionary |
| `SymbolJobs.InvStep` | mk/linux/symbolstore.py:386-404 | every step of the main thread, the workers and the callback thread keeps jobs_record[k] equal to the jobs for k that are submitted and not yet called back |
| `SymbolJobs.FinishWaitsForAll` | mk/linux/symbolstore.py:492-502 | over every run: Finish leaves its wait only when no job is outstanding, and none comes after; on a Mac the key stays while its per-architecture jobs are being submitted |
| `SymbolJobs.FinishIsSafe` | mk/linux/symbolstore.py:492-554 | the same from the start, for any files and architectures, with and without Mac pre-processing; the record is then empty and the pool has no job left |
| `SymbolJobs.NoKeyError` | mk/linux/symbolstore.py:530-539 | with Mac pre-processing the callback never meets a missing key |
| `SymbolJobs.CleansOnce` | mk/linux/symbolstore.py:530-554 | over every run with Mac pre-processing: the cleanup of a file tuple runs at most once, only after all its jobs are called back, and exactly once when all is over |
| `SymbolJobs.EveryFileCleaned` | mk/linux/symbolstore.py:492-554 | the same from the start: once Finish is past its wait and the callback thread is free, the cleanup of every file tuple has run, and only once |
| `PlainJobs.StandsStep` | mk/linux/symbolstore.py:525-554 | without pre-processing, every step keeps the counter of a tuple equal to its jobs called back, or below that once it was reset after one of them |
| `PlainJobs.KeyIsThere` | mk/linux/symbolstore.py:530-539 | without pre-processing, too, no callback meets a missing key |
| `PlainJobs.CallbacksGoOn` | mk/linux/symbolstore.py:530-539 | from the start of any run, on a Mac or not, no callback meets a missing key of files_record |
| `PlainJobs.NoticedUnlessLate` | mk/linux/symbolstore.py:525-554 | in every run that is over, the end of a tuple's jobs was noticed if and only if its counter was never reset after one of them was counted; if not, its record stays behind with a count below the number of architectures |
| `PlainJobs.RunIsBounded` | mk/linux/symbolstore.py:525-554 | there are no endless runs |
| `PlainJobs.NoDeadlock` | mk/linux/symbolstore.py:492-554 | until the run is over some thread can go on, unless a worker fails to call back |
| `PlainJobs.SomeRunMisses` | mk/linux/symbolstore.py:541-554 | for any files and two or more architectures a run is built in which the end of the first tuple is missed |
| `PlainJobs.AlwaysNoticedIff` | mk/linux/symbolstore.py:525-554 | for any files: the end of every tuple's jobs is noticed in all runs if and only if there is one architecture |
| `Utf8.DecodeAdvances` | mk/linux/mojosetup/mojosetup.c:667-816 | the decoder moves on before the end and never past the terminator, for all byte strings |
| `Utf8.CodePoint` | mk/linux/mojosetup/mojosetup.c:667-816 | the branches of the decoder compute the pure decode function |
| `Utf8.EncodedIsDecoded` | mk/linux/mojosetup/mojosetup.c:667-816 | it undoes the encoding of section 3 of RFC 3629 for every character it lets through, wherever it stands |
| `Utf8.DecodedIsEncoded` | mk/linux/mojosetup/mojosetup.c:667-816 | and whatever it does not call bogus is such an encoding: overlong forms, truncated ones and values above 0x10FFFF are refused |
| `Utf8.ScalarsAreGood` | mk/linux/mojosetup/mojosetup.c:667-816 | it lets through all scalar values except U+FFFE and U+FFFF, and some surrogates as well |
| `Utf8.SurrogatesAreGood` | mk/linux/mojosetup/mojosetup.c:667-816 | of the surrogates it refuses seven, those at the ends of their ranges |
| `Utf8.PieceLength` | mk/linux/mojosetup/mojosetup.c:819-825 | a piece of n characters, cut out, counts as n characters |
| `SplitText.Scan` | mk/linux/mojosetup/mojosetup.c:853-879 | the inner loop, with its counter set back at line ends and line starts: what it leaves behind describes the unfinished line |
| `SplitText.Take` | mk/linux/mojosetup/mojosetup.c:881-902 | one line is cut off, and the outer loop always makes progress |
| `SplitText.Split` | mk/linux/mojosetup/mojosetup.c:837-908 | ends for all texts and every width from 1; the lines are consecutive pieces of the text of at most scrw characters, with only spaces and tabs at line starts and line feeds after carriage returns left out; each ends at its line end, at the end of the text, or where an overflowing line is to be cut; the width is that of the widest line |
| `SplitText.OneWay` | mk/linux/mojosetup/mojosetup.c:837-908 | these conditions leave only one way to break a text into lines |
| `SplitText.NothingIsLost` | mk/linux/mojosetup/mojosetup.c:837-908 | the lines joined show all that the text shows, in its order |
| `SplitText.CutWellIff` | mk/linux/mojosetup/mojosetup.c:847-882 | an overflowing line is cut at its last blank, or filled if it has none, if and only if it has one or none is left over from the lines with line ends before it |
| `SplitText.CutAtOldBlank` | mk/linux/mojosetup/mojosetup.c:847-882 | an input for which it is not: the position of a blank of the previous line is used, because furthest is set back by the outer loop only |
| `SplitText.FullLineKeptIff` | mk/linux/mojosetup/mojosetup.c:853-882 | a line of exactly scrw characters with its line end behind them counts as overflowing: it stays whole if and only if it has no blank and none is left over |
| `SplitText.FullLineCut` | mk/linux/mojosetup/mojosetup.c:853-882 | an input for it: a line that would fit is cut at its blank |
| `SplitText.WidestIs` | mk/linux/mojosetup/mojosetup.c:837-908 | the width returned is the greatest number of characters a line shows, its line end not counted |
| `SplitText.BetweenLines` | mk/linux/mojosetup/mojosetup.c:853-908 | what stands between two lines is bytes 32 and 9, and a 10 behind the 13 of a line end; no line starts with 32 or 9 |
| `SplitText.TabsBreak` | mk/linux/mojosetup/mojosetup.c:847-882 | a text with a tab and the lines it gives |

## Left out

- Streams for which the decode is not defined: they end early, hold bits that start no code of an incomplete code, a length symbol 286 or 287, a distance symbol 30 or 31, or a distance before the first byte. The decompressor's preconditions exclude them; malformed streams that RFC 1951 lets a decoder detect (bad block type, bad lengths, bad codes, bad headers) are in.
- Tinfl.Decompressor.Decompress: takes a wrapping buffer of at least 32768 bytes, the only size the installer uses. For a malformed stream it is not said how much input is taken before it is refused.
- Tinfl: the call's cursors are fields of `Reader` and `Window`, the input of a call is a sequence value, `|=` on the bit buffer is an addition (the bits are disjoint), and the flags for zlib headers and flat buffers are fixed per decompressor. Whether eight-byte copies and the 64-bit bit buffer are compiled in is a field, so both builds are covered.
- MzInflate.Stream.Inflate: MZ_FINISH comes with all the input that is left, as it says; a finishing call that withholds some, for which the decompressor goes on with zeros, is left out. Whether the first call is to be MZ_FINISH is fixed when the stream is made, since it decides the buffer; after it finished a stream in one call, a second MZ_FINISH is left out; for such a stream the first call's output starts the caller's buffer. The stream's adler, total_in and msg fields are not modelled.
- The fields and the order of fields of a ZIP local header are modelled, the loading of the directory is not: Zip64, end-of-directory scan, DOS times, permission bits. Entries are below 4 GiB. An archive is any bytes that hold its members where the directory says.
- ZipResolve.Archive.ResolveSymlink: the text of a link, and what zip_expand_symlink_path makes of it, is a given function of the entry's central fields and data offset.
- ZipFile.File.Read: reads of the archive file end early only at its end; I/O errors, duplicated handles and ZIP_eof are not modelled. The data of an entry is in order, that is, a stored entry lies in the file and a packed one decodes to its size.
- Sha1.MojoSha1.Append: a piece that comes to 2^32 bytes or more with the at most 63 that wait is left out, because the code's 32-bit sum wraps there.
- Md5.MojoMd5.Append: a piece whose length and the at most 63 bytes that wait come to 2^31 or more is left out, because the code's signed sum overflows there. The shift of the length is taken to wrap, as it does in two's complement.
- Sha1 and Md5: the unrolled rounds are rolled up, five and four at a time; byte order is a parameter.
- MapUndo: of MapPreview there are the cells, four layers with heights as reals, their setters and four brushes; distances are rounded square roots of exact sums. The gradient brush, start locations, which no point saves, resizing and randomising between points, and mouse handling are left out. Edits without a brush are any that keep within their point and give no cell both an object and a resource.
- MapMirror.RotateCopyXY: only the cells; the players' start locations are moved by separate code.
- MapMirror.MirrorXY: maps higher than wide with more blocks below one another than columns are left out, because the source writes columns there that the map does not have; start locations as above.
- SymbolJobs.FinishWaitsForAll: a worker that raises never calls back, and then Finish waits for ever. Adding to a counter and reading it are one step; a switch of threads within an update is not modelled.
- SymbolJobs.CleansOnce: for successful Mac pre-processing; a failed one submits nothing. Subprocesses, file output and version-control lookup are left out.
- SplitText.Split: a width of 0 or less, for which the loop does not end, is left out.
- The graphical front ends, Lua glue, wxWidgets and OpenGL code, the PHP master server, and the tar, uz2, pck, pkg, gzip, bzip2 and xz readers.
