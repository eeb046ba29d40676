# Verified model of a BitTorrent engine's core

This project models the hard parts of libtransmission, the BitTorrent engine
embedded in this repository, and of the row tree behind its list view, and
proves properties of them in Dafny. The sources are C and C++ code that works
step by step on buffers, arrays and records; the model keeps that form -
classes with the same fields, loops over the same arrays, explicit stacks where
the source has them - and ties each piece to a specification on which the
general statements are proved.

| files | what they model |
|---|---|
| `Geometry`, `PtrArray`, `Sorting`, `Storage` | pieces, blocks and files as partitions of one byte range; the sorted pointer array; what qsort promises; transfers across files |
| `Overlay`, `CacheBlocks`, `CacheReads`, `Cache`, `CacheRanks`, `CacheHistory` | the write-back block cache: runs, ranks, reading, trimming and flushing, and its transparency over whole histories |
| `BencodeText`, `Bencode`, `BencodeWalk`, `BencodePrint`, `BencodeCanon`, `BencodeDict`, `BencodeMerge`, `BencodeVisit` | bencode (BEP 3): the parser and the walker with their own stacks, printing and its inverse, dictionaries as maps, merging, freeing |
| `UtfBits`, `UtfChars`, `UtfRun`, `UtfSteps`, `UtfCompose`, `UtfStreams`, `UtfLoops`, `UtfResume`, `UtfValidate` | the six Unicode converters (RFC 3629, RFC 2781) with their bit arithmetic, resumption and validation |
| `Bits`, `Bitfield`, `Completion` | the packed bitfield as a set of indices, and the byte totals kept over it |
| `RateHistory`, `Bandwidth`, `BandwidthTree`, `PeerIo`, `RoundRobin` | the speed history ring, limits along a chain of nodes and over a tree of them, a peer's flush, and the sharing out of bandwidth |
| `UdpTracker`, `AnnounceQueue`, `ByteSearch`, `Handshake` | the UDP tracker client (BEP 15), a tier's announce queue, and the encrypted peer handshake as state machines |
| `Blocklist`, `OutlineSort`, `Outline`, `DeepSort` | the address blocklist, and the list view's sorting and traversal |

The main results:

- **Caching is invisible.** Over every history of writes, reads, limit changes
  and flushes, the cache and the disks hold the bytes of a plain byte store
  (`CacheHistory.Replay`), although runs are flushed out of order while the
  positions of the others are renumbered; and which reads see those bytes is
  said exactly (`CacheReads.RightExactly`, `CacheReads.SafeExactly`).
- **Bencode round trip.** Parsing printed text takes exactly that text and gives
  the tree in normal form, printing again reproduces the text, and two trees
  print alike just if their normal forms agree.
- **Explicit stacks are recursion.** The parser, the walker, the outline iterator
  and the deep sort are each equal to a recursive definition, on which visiting
  once, releasing children first and sorting once are proved.
- **Unicode conversion.** Round trips for every sequence of scalar values; direct
  conversion equals conversion through UTF-32 for every input; stopping on a
  full buffer and resuming loses nothing.
- **Sets and sums.** The bitfield is a set under all its operations, its running
  count the set's size; completion's lazy totals always equal a fresh sum and
  are ordered as promised.
- **Bandwidth.** From one allocation to the next every limited node of a tree is
  charged exactly the piece bytes moved below it, and never more than it was
  allotted if all who moved any honour its limit (`BandwidthTree.Pulse`); when a
  peer dropped from a round could not have gone on is said exactly
  (`PeerIos.DroppedStuck`).
- **State machines.** Tracker requests are answered at most once and never left
  lying; a handshake calls back once, reads on as far as its bytes go, finds
  what it searches for however the bytes are cut up, and with encryption
  required never reports a plaintext connection; a queued "completed" is never
  lost, and "started" just to a "stopped".

Some things the code does are not what a reader might expect. The model follows
the code, and each of these has a member that shows when it matters:

- A cached block answers any read that starts in it with its *first* bytes, and
  no more than it has; a read that starts in a block not cached is answered by
  the disk, though a block further on may be cached. Peers choose the offset and
  the length (`CacheReads.RightExactly`, `CacheReads.MisreadInside`,
  `CacheReads.MisreadAcross`).
- A limit of -1, -2 or -3 blocks would let a trim run past its runs
  (`BlockCache.TrimSafeExactly`).
- Old runs can outrank finished ones, so a flush of finished runs, which stops
  at the first unflagged one, can miss some (`CacheRanks.NoFlaggedKept`,
  `CacheRanks.FinishedLeft`).
- The count of blocks in a piece is kept in 16 bits, which a piece of 1 GiB
  exceeds (`Geometry.InitFromInfoValid`).
- With lead byte F4 the legality check puts no lower bound on the second byte
  (`UtfChars.LegalExactly`, `UtfChars.DecodeNotInjective`).
- In strict mode, UTF-32 to UTF-16 skips values above the last plane while UTF-32
  to UTF-8 writes the replacement character for them; both report it at the end,
  and the report is lost if the run stops on a full target before
  (`UtfResume.Resumed8Exactly`, `UtfValidate.ReplacementForgotten`).
- Setting a full bitfield from flags leaves it full unless the flags are all
  alike (`Bitfields.Bitfield.SetFromFlags`).
- A band's allotment is cut to 32 bits before it is divided
  (`Bandwidths.AllotmentFits`), and the clamp measures the download speed
  whichever direction it clamps (`Bandwidths.Level`).
- Only piece data is charged, so a peer held back by a limit can be dropped from
  a round with data and bandwidth left (`PeerIos.StillMoving`), and a uTP peer is
  dropped from every round of reading (`PeerIos.UtpReadsNothing`).
- What was agreed in an encrypted handshake does not decide how the next bytes
  are read: their first byte does (`Handshakes.LooksPlain`).
- A handshake over uTP that has reconnected over TCP is given up all the same
  (`Handshakes.Handshake.GotError`).

## Model

| member | source | states |
|---|---|---|
| `Geometry.GetBlockSize` | source/libtransmission/torrent.c:686-696 | The loop that halves the piece size gives a block size of at most 16 KiB that divides the piece size, or zero. |
| `Geometry.InitFromInfoValid` | source/libtransmission/torrent.c:701-745 | For any metainfo with an acceptable piece size, of the three sums asserted at setup: that of the blocks always holds; that of the pieces does if and only if there are just enough pieces for the files; and then that of the blocks of the pieces does if and only if the counts of blocks in a piece fit their 16 bits. |
| `Geometry.BlocksCover` | source/libtransmission/torrent.c:714-722 | Block count and last block size account for every byte of the torrent. |
| `Geometry.ByteInBlock` | source/libtransmission/torrent.c:2349-2360 | Every byte lies in exactly one block: the one its offset divided by the block size names. |
| `Geometry.BlockOfIsGlobal` | source/libtransmission/torrent.c:2349-2360 | The block computed from piece and offset is the block of the global offset. |
| `Geometry.PieceBlocks` | source/libtransmission/torrent.c:2428-2439 | The blocks of a piece, first to last, hold exactly its bytes, the next piece starts with the next block, and the last piece ends with the last block. |
| `Storage.UniqueFile` | source/libtransmission/inout.c:154-168 | Each offset lies in exactly one file, zero-length files included, and the comparison changes sign just there, which is what bsearch needs. |
| `Storage.FindFile` | source/libtransmission/inout.c:169-194 | The search always ends at the one file that contains the offset. |
| `Storage.ConcatSplice` | source/libtransmission/inout.c:197-236 | Writing into one file is writing into the concatenation of all files at that file's offset. |
| `Storage.TorrentFiles.ReadOrWriteBytes` | source/libtransmission/inout.c:42-151 | One file's part of a transfer moves the bytes at the file's global offset and nothing else, for reads, writes and prefetches. |
| `Storage.TorrentFiles.ReadOrWritePiece` | source/libtransmission/inout.c:197-236 | A transfer over any number of files, empty ones among them, is one transfer at the global offset of the concatenated files; a piece out of range fails with EINVAL and moves nothing. |
| `Storage.TorrentFiles.IoRead` | source/libtransmission/inout.c:238-246 | A read copies just the torrent's bytes at the global offset into the buffer. |
| `Storage.TorrentFiles.IoWrite` | source/libtransmission/inout.c:257-265 | A write replaces just the torrent's bytes at the global offset. |
| `PtrArray.LowerBound` | source/libtransmission/ptrarray.c:115-165 | On a sorted array the search finds the element equal to the key, or the place where the key belongs, and says which. |
| `Overlay.FlushKeepsView` | source/libtransmission/cache.c:168-198 | Moving a run of touching extents down to the disk in one write changes no byte a reader sees. |
| `CacheBlocks.BlocksApart` | source/libtransmission/cache.c:295-311 | Distinct cached blocks of a sorted cache never overlap. |
| `CacheBlocks.PendingShifts` | source/libtransmission/cache.c:200-215 | When one run leaves the array, every run still to be flushed is found at its renumbered position with the very same blocks. |
| `CacheBlocks.ChainMaximal` | source/libtransmission/cache.c:135-162 | No two of the runs could be joined: where one ends the next block is not its continuation. |
| `CacheBlocks.PermutedPending` | source/libtransmission/cache.c:135-215 | However qsort orders the runs, all of them can be flushed in that order, and together they hold every cached block. |
| `BlockCache.Cache.GetBlockRun` | source/libtransmission/cache.c:81-113 | The run found is as long as blocks stay contiguous, and no longer; its time and flags are those of its last and first blocks. |
| `BlockCache.Cache.CalcRuns` | source/libtransmission/cache.c:135-162 | The cache is split into maximal runs that cover every position once, each with its rank, sorted highest rank first. |
| `BlockCache.Cache.FlushContiguous` | source/libtransmission/cache.c:168-198 | A contiguous run is written as one transfer and erased; no torrent's bytes change for a reader. |
| `BlockCache.Cache.Renumber` | source/libtransmission/cache.c:200-215 | The runs behind a flushed one move down by its length; those before it stay. |
| `BlockCache.Cache.FlushRuns` | source/libtransmission/cache.c:200-215 | Flushing runs out of order erases exactly their blocks and leaves all bytes as readers see them. |
| `BlockCache.Cache.Trim` | source/libtransmission/cache.c:220-241 | A trim never asks for more blocks than there are, flushes the fewest highest-ranked runs that reach the cutoff, and none when within the limit. |
| `BlockCache.TrimSafeExactly` | source/libtransmission/cache.c:220-255 | A trim is safe for every number of cached blocks, except with a limit of -1, -2 or -3 blocks: exactly then it could run past the runs. The session sets its limit in whole megabytes (session.c:587, 2118), so these three cannot come from there; other negative limits can, and are safe. |
| `BlockCache.Cache.SetLimit` | source/libtransmission/cache.c:247-265 | A new limit trims the cache without changing any byte a reader sees. |
| `BlockCache.FlaggedOutranks` | source/libtransmission/cache.c:115-162 | A finished or multi-piece run outranks every other run while length plus age stays below the flag bit. |
| `BlockCache.Cache.WriteBlock` | source/libtransmission/cache.c:325-357 | A written block replaces its bytes of its torrent and no others; a cache within its limit ends within it. |
| `BlockCache.Cache.ReadBlock` | source/libtransmission/cache.c:359-376 | Every read leaves in the buffer what the first block or the disk answers, and the torrent's newest bytes if it is one of the reads that are right; it fails with EINVAL just for a piece out of range. |
| `CacheReads.RightAnswers` | source/libtransmission/cache.c:359-376 | A read that asks for nothing, or starts at the start of a cached block and stays inside it, or starts in no cached block and meets none, is answered with the torrent's current bytes. |
| `CacheReads.RightExactly` | source/libtransmission/cache.c:359-376 | With given blocks cached, an in-range read is answered with the current bytes, whatever they and the disk contain, if and only if it is one of those. |
| `CacheReads.SafeExactly` | source/libtransmission/cache.c:359-376 | Whatever is cached, a read is right if and only if it starts where a block starts and stays inside it. |
| `CacheReads.MisreadInside` | source/libtransmission/cache.c:359-376 | A concrete cache in which a read from the second byte of a block gets its first bytes. |
| `CacheReads.MisreadAcross` | source/libtransmission/cache.c:359-376 | A concrete cache in which a read that starts in a block not cached and runs on into a cached one gets old bytes from the disk. |
| `BlockCache.Cache.PrefetchBlock` | source/libtransmission/cache.c:378-392 | Prefetching changes no byte. |
| `BlockCache.Cache.FlushDone` | source/libtransmission/cache.c:406-428 | The flagged runs at the front of the order are flushed, none beyond the first unflagged one. |
| `CacheRanks.ChainUnique` | source/libtransmission/cache.c:135-162 | A cache has just one division into runs with ranks. |
| `CacheRanks.OutranksIsRank` | source/libtransmission/cache.c:115-133 | A flagged run ranks above one that is not just if its length plus age, raised by the flag bits its age has not set already, is the greater. |
| `CacheRanks.NoFlaggedKept` | source/libtransmission/cache.c:406-428 | Whichever way the runs of a cache are sorted by rank, flushing the finished ones leaves no flagged run if and only if each flagged one outranks each of the others, in lengths, ages and flags. |
| `CacheRanks.FinishedLeft` | source/libtransmission/cache.c:406-428 | A concrete valid cache - one block that has waited for six days, and one that has just finished its piece - on which the flush does nothing. |
| `BlockCache.Cache.FlushFile` | source/libtransmission/cache.c:430-456 | No cached block of the file's block range is left, nothing before it and nothing of other torrents is flushed, and no byte changes. |
| `BlockCache.Cache.FlushTorrent` | source/libtransmission/cache.c:458-477 | Exactly the torrent's blocks leave the cache. |
| `CacheHistory.SeesAlways` | source/libtransmission/cache.c:359-376 | In a history, a read that starts where a block starts and stays inside it is right at any time. |
| `CacheHistory.Step` | source/libtransmission/cache.c:325-477 | One operation on the cache is one on a plain byte store; a read has the same answer if it is one that is right with the blocks then cached. |
| `CacheHistory.Replay` | source/libtransmission/cache.c:168-477 | Over every run of writes, reads of any bytes, limit changes and flushes, with any clock and any news of finished pieces, the bytes are those of a plain byte store, and every read that is right with the blocks then cached answers what that store answers. |
| `BencodeText.DigitsParse` | source/libtransmission/bencode.c:1129-1167 | The digits printed for a number read back as that number and have no leading zero. |
| `BencodeText.ParsePrintedInt` | source/libtransmission/bencode.c:87-118 | A printed integer is read back wherever it stands, up to its end mark. |
| `BencodeText.ParsePrintedStr` | source/libtransmission/bencode.c:126-159 | A printed string of less than 2 GiB is read back wherever it stands, colons and digits in it included. |
| `Bencode.Parse` | source/libtransmission/bencode.c:187-324 | The loop with its stack of open containers accepts and builds exactly what a recursive descent over the text does, errors included, and always ends. |
| `Bencode.DeliverPending` | source/libtransmission/bencode.c:187-324 | Adding a finished value to the innermost open container does not change what the rest of the text comes to. |
| `Bencode.ClosePending` | source/libtransmission/bencode.c:273-291 | Closing a container hands it to the one around it, or ends the parse. |
| `BencodeCanon.ParsedProper` | source/libtransmission/bencode.c:187-324 | Every tree the parser builds has a string before each dict value, so it can be printed with sorted dicts. |
| `BencodeWalk.Walk` | source/libtransmission/bencode.c:1037-1123 | The walk with its own stack makes exactly the callbacks of the recursive traversal, in order, and ends. |
| `BencodeVisit.EveryNodeVisited` | source/libtransmission/bencode.c:1037-1123 | Every node of the tree gets its callback, and every container its end callback. |
| `BencodeVisit.OnlyNodesVisited` | source/libtransmission/bencode.c:1037-1123 | Every callback made belongs to a node of the tree. |
| `BencodeVisit.EventsTidy` | source/libtransmission/bencode.c:1037-1123 | No node is visited twice, and nothing inside a container comes after its end. |
| `BencodeVisit.Free` | source/libtransmission/bencode.c:1199-1235 | Freeing releases every child array exactly once, and whenever a node is handed to a callback no array on the way to it has been released. |
| `BencodePrint.EventsSave` | source/libtransmission/bencode.c:1129-1185 | The save callbacks, strung together by the walk, write the text of the tree. |
| `BencodePrint.ToBuf` | source/libtransmission/bencode.c:1620-1646 | Printing yields that text. |
| `BencodePrint.RoundTrip` | source/libtransmission/bencode.c:87-324 | Parsing printed text takes exactly that text, whatever follows it, and gives the tree with dicts sorted by key and booleans as integers. |
| `BencodeCanon.CanonIsCanonical` | source/libtransmission/bencode.c:925-983 | With distinct keys free of NULs, what comes back has strictly ascending keys all the way down. |
| `BencodeCanon.ReprintReproduces` | source/libtransmission/bencode.c:925-1185 | Printing what was parsed from printed text reproduces that text. |
| `BencodeCanon.PrintDecides` | source/libtransmission/bencode.c:925-1185 | Two trees print alike if and only if they have the same normal form. |
| `BencodeDict.DictIndexOf` | source/libtransmission/bencode.c:378-397 | The search looks at keys only and finds the first entry with the key. |
| `BencodeDict.DictPut` | source/libtransmission/bencode.c:771-870 | Setting a value overwrites one of the same type in place and moves any other to the end. |
| `BencodeDict.PutIsUpdate` | source/libtransmission/bencode.c:771-870 | With distinct keys, setting a value is a map update and keeps the keys distinct. |
| `BencodeDict.DictRemove` | source/libtransmission/bencode.c:894-915 | Removal takes the last entry into the gap, and tells whether there was one. |
| `BencodeDict.RemoveIsDelete` | source/libtransmission/bencode.c:894-915 | With distinct keys, removal deletes that key from the map and no other. |
| `BencodeMerge.MergeDicts` | source/libtransmission/bencode.c:1546-1612 | The merge loop, with its recursion into dicts, computes the specified merge. |
| `BencodeMerge.ListCopy` | source/libtransmission/bencode.c:1472-1515 | The list copy rebuilds the list item by item. |
| `BencodeMerge.CopyIsIdentity` | source/libtransmission/bencode.c:1472-1515 | With distinct keys a copy is the same tree, in the same order. |
| `BencodeMerge.MergeIsUpdate` | source/libtransmission/bencode.c:1546-1612 | For every key: the source wins, except that a list replaces nothing that is there, and dicts merge into dicts. |
| `BencodeMerge.MergeKeepsKeys` | source/libtransmission/bencode.c:1546-1612 | Merging keeps the keys distinct in every dict of the tree. |
| `BencodeMerge.MergeTwice` | source/libtransmission/bencode.c:1546-1612 | Merging the same dict a second time changes nothing, not even the order of entries. |
| `UtfChars.LegalExactly` | source/libtransmission/ConvertUTF.c:296-319 | A sequence of the announced length is legal if and only if it is in the grammar of RFC 3629 section 4, or starts with F4 and has a second byte below 80. |
| `UtfChars.EncodeDecodes` | source/libtransmission/ConvertUTF.c:473-522 | The bytes written for a scalar value are in the grammar, announce their own length and decode to that value. |
| `UtfChars.DecodeEncodes` | source/libtransmission/ConvertUTF.c:526-584 | A legal sequence decodes to a scalar value, and encoding that gives the sequence back if and only if it is in the grammar. |
| `UtfChars.DecodeNotInjective` | source/libtransmission/ConvertUTF.c:311-311 | The exception makes decoding two-to-one: F4 00 80 80 and F2 80 80 80 both read as U+80000. |
| `UtfChars.SplitPairs` | source/libtransmission/ConvertUTF.c:62-106 | Every value above the first plane splits into a high and a low surrogate that combine to it again (RFC 2781 section 2). |
| `UtfLoops.IsLegalUTF8` | source/libtransmission/ConvertUTF.c:296-319 | The switch that falls through the trailing bytes decides legality as specified. |
| `UtfLoops.WriteBytes` | source/libtransmission/ConvertUTF.c:505-517 | The fall-through that writes a character backwards leaves its encoding, and nothing else, in the buffer. |
| `UtfLoops.ReadBytes` | source/libtransmission/ConvertUTF.c:543-555 | The fall-through that adds bytes up and takes an offset off decodes the sequence. |
| `UtfLoops.ConvertUTF32toUTF16` | source/libtransmission/ConvertUTF.c:62-106 | The loop over the source and the target buffer is a run of single-character steps: same result, same place in the source, same output. In strict mode a value above the last plane is skipped and reported at the end. |
| `UtfLoops.ConvertUTF16toUTF32` | source/libtransmission/ConvertUTF.c:111-165 | The same for this converter. |
| `UtfLoops.ConvertUTF16toUTF8` | source/libtransmission/ConvertUTF.c:215-281 | The same, with the target backed up when a character does not fit. |
| `UtfLoops.ConvertUTF8toUTF16` | source/libtransmission/ConvertUTF.c:400-470 | The same, with the source backed up when a character does not fit. |
| `UtfLoops.ConvertUTF32toUTF8` | source/libtransmission/ConvertUTF.c:473-522 | The same; a value above the last plane becomes the replacement character and the result says so, even in strict mode. |
| `UtfLoops.ConvertUTF8toUTF32` | source/libtransmission/ConvertUTF.c:526-584 | The same for this converter. |
| `UtfRun.Resumed` | source/libtransmission/ConvertUTF.c:473-584 | Stopping on a full target and resuming in a fresh buffer reads and writes what one run in the combined room does. |
| `UtfResume.Resumed8Exactly` | source/libtransmission/ConvertUTF.c:473-522 | The report agrees as well, except if and only if a value above 0x10FFFF was used up before the stop and everything after it is legal in the mode and fits. |
| `UtfResume.Resumed16Exactly` | source/libtransmission/ConvertUTF.c:62-106 | The same in strict mode; in lenient mode the reports always agree. |
| `UtfResume.OthersNeverFlag` | source/libtransmission/ConvertUTF.c:111-584 | None of the other converters reports anything at its end that it passed over on the way. |
| `UtfResume.ResumedAlike` | source/libtransmission/ConvertUTF.c:111-584 | So for those the report of two runs is always that of one. |
| `UtfStreams.RoundTrip32` | source/libtransmission/ConvertUTF.c:473-584 | For every sequence of scalar values and large enough buffers, to UTF-8 and back takes everything, succeeds twice and gives the sequence back, in either mode. |
| `UtfStreams.RoundTrip16` | source/libtransmission/ConvertUTF.c:62-165 | The same through UTF-16. |
| `UtfStreams.RoundTrip8` | source/libtransmission/ConvertUTF.c:473-584 | Bytes come back from UTF-32 unchanged if and only if they are text of the grammar; whatever they are, only scalar values come out. |
| `UtfStreams.Direct8` | source/libtransmission/ConvertUTF.c:111-281 | For every input and mode, UTF-16 to UTF-8 is UTF-16 to UTF-32 to UTF-8: the same bytes, stopping for the same reason at the same place. |
| `UtfStreams.Direct16` | source/libtransmission/ConvertUTF.c:400-470 | For every input and mode, UTF-8 to UTF-16 is UTF-8 to UTF-32 to UTF-16. |
| `UtfValidate.Validate` | source/libtransmission/ConvertUTF.c:352-393 | Validation stops behind the longest beginning made of legal sequences, and accepts just if that is everything, up to the length given or the terminating NUL; a zero length is fine even without a text, and no text is not. |
| `UtfValidate.ValidatesWhatConverts` | source/libtransmission/ConvertUTF.c:352-584 | Validation accepts exactly the texts that convert to UTF-32, and ends where conversion stops. |
| `UtfValidate.ReplacementForgotten` | source/libtransmission/ConvertUTF.c:473-522 | A concrete source whose replacement is reported by one run but forgotten by two. |
| `Bits.TableRight` | source/libtransmission/bitfield.c:27-45 | Every entry of the table is the number of set bits of its index. |
| `Bits.CountArray` | source/libtransmission/bitfield.c:47-57 | The count of an array that looks bytes up in the table is the bit-by-bit count. |
| `Bits.CountRange` | source/libtransmission/bitfield.c:59-119 | The masked and shifted count of any range, within one byte or across many, is the bit-by-bit count, also past the array's end. |
| `Bitfields.CountIsCardinality` | source/libtransmission/bitfield.c:59-119 | That count is the size of the set of indices. |
| `Bitfields.Bitfield.TrueCountIsSize` | source/libtransmission/bitfield.c:147-151 | The running count is the size of the set the field stands for. |
| `Bitfields.Bitfield.constructor` | source/libtransmission/bitfield.c:258-269 | A new field of known size is the empty set. |
| `Bitfields.Bitfield.SetHasNone` | source/libtransmission/bitfield.c:271-280 | The field becomes the empty set. |
| `Bitfields.Bitfield.SetHasAll` | source/libtransmission/bitfield.c:282-291 | The field becomes the full set, without an array. |
| `Bitfields.Bitfield.CountRange` | source/libtransmission/bitfield.c:121-131 | Counting a range gives the size of the part of the set in it, also for full and empty fields that have no array. |
| `Bitfields.Bitfield.EnsureBitsAlloced` | source/libtransmission/bitfield.c:194-214 | A full field gets an array of ones, clear past its last bit; any other keeps its bits and gets zeros. |
| `Bitfields.Bitfield.Add` | source/libtransmission/bitfield.c:350-360 | One index joins the set. |
| `Bitfields.Bitfield.AddRange` | source/libtransmission/bitfield.c:362-395 | The indices of a range join the set, across partial bytes; a range past the end changes nothing. |
| `Bitfields.Bitfield.RemRange` | source/libtransmission/bitfield.c:411-445 | The indices of a range leave the set; a range past the end changes nothing. |
| `Bitfields.Bitfield.GetRaw` | source/libtransmission/bitfield.c:172-191 | The bytes handed out say what the set is, whether or not the field has an array. |
| `Bitfields.Bitfield.SetRaw` | source/libtransmission/bitfield.c:304-327 | From a bounded source of full length the field becomes what the source says, excess bits cleared. |
| `Bitfields.Bitfield.SetFromFlags` | source/libtransmission/bitfield.c:329-347 | The field becomes the set of the flags if and only if it was not full before, or the flags are all alike. |
| `Bitfields.Bitfield.SetFromBitfield` | source/libtransmission/bitfield.c:293-302 | The field becomes a copy of a source that is full, empty or has its whole array. |
| `Completions.Totals` | source/libtransmission/completion.c:117-200 | Piece by piece: valid bytes are at most held bytes, and the bytes there will be when done are the held ones and the missing ones of wanted pieces. |
| `Completions.ByteTotals` | source/libtransmission/completion.c:117-200 | For every set of blocks and every choice of wanted pieces, haveValid <= sizeNow <= sizeWhenDone <= totalSize, and sizeWhenDone - sizeNow is what wanted pieces lack. |
| `Completions.CountedSize` | source/libtransmission/completion.c:41-56 | The count of blocks times the block size, less the last block's shortfall, is the byte sum of the blocks. |
| `Completions.LastApart` | source/libtransmission/completion.c:234-252 | A piece's held bytes are whole blocks up to its last one, and that one by its own size. |
| `Completions.Completion.BlockInit` | source/libtransmission/completion.c:41-56 | The held blocks become those of the given field; the byte total is right and both lazy totals are marked dirty. |
| `Completions.Completion.BlockAdd` | source/libtransmission/completion.c:98-111 | One block is held, its own size added once, and no lazy total that is wrong stays clean. |
| `Completions.Completion.PieceAdd` | source/libtransmission/completion.c:88-96 | All blocks of a piece are held. |
| `Completions.Completion.PieceRem` | source/libtransmission/completion.c:71-86 | No block of a piece is held, and the byte total loses just what was held of it. |
| `Completions.Completion.HaveValid` | source/libtransmission/completion.c:117-137 | The lazy value is what a fresh sum over complete pieces gives. |
| `Completions.Completion.SizeWhenDone` | source/libtransmission/completion.c:139-190 | The lazy value is what a fresh sum gives: wanted pieces whole, others by what is held. |
| `Completions.Completion.LeftUntilDone` | source/libtransmission/completion.c:192-200 | What is left is what the wanted pieces lack. |
| `Completions.Completion.MissingBlocksInPiece` | source/libtransmission/completion.c:222-232 | The blocks missing from a piece are counted, and none is missing just if the piece is complete. |
| `Completions.Completion.MissingBytesInPiece` | source/libtransmission/completion.c:234-252 | The bytes missing from a piece are its size less what is held of it. |
| `Completions.Completion.CreatePieceBitfield` | source/libtransmission/completion.c:270-296 | The bytes sent to peers have the bits of the complete pieces and no others. |
| `RateHistory.Rate.BytesUsed` | source/libtransmission/bandwidth.c:64-82 | Every transfer is logged in the newest slot while that is young and in a new one otherwise; the ring holds the ten newest slots. |
| `RateHistory.TenAreEnough` | source/libtransmission/bandwidth.c:33-82 | A slot that has left the ring is too old for the window. |
| `RateHistory.WindowBounds` | source/libtransmission/bandwidth.c:33-62 | The bytes counted are at least those of the last 1800 ms and at most those of the last 2000 ms. |
| `RateHistory.Rate.WindowBytes` | source/libtransmission/bandwidth.c:33-62 | The walk back round the ring adds up exactly the slots opened in the window. |
| `RateHistory.Rate.GetSpeed` | source/libtransmission/bandwidth.c:33-62 | The speed kept from an earlier call is never out of date. |
| `Bandwidths.AllotmentFits` | source/libtransmission/bandwidth.c:174-178 | The allotment is speed times period by a thousand if and only if that product fits an unsigned int: the cast comes before the division. |
| `Bandwidths.Bandwidth.Clamp` | source/libtransmission/bandwidth.c:304-345 | The recursion up the chain of nodes computes the clamp over their levels. |
| `Bandwidths.ClampBounds` | source/libtransmission/bandwidth.c:304-345 | A clamp never exceeds the request nor what any limit that counts has left, and is zero where one is overrun. |
| `Bandwidths.ClampIsLeast` | source/libtransmission/bandwidth.c:304-345 | Well below all speed limits it is exactly the least of these. |
| `Bandwidths.Bandwidth.Used` | source/libtransmission/bandwidth.c:373-403 | A transfer is charged to every limited node up the chain, never below zero. |
| `Bandwidths.UseBalances` | source/libtransmission/bandwidth.c:373-403 | What a node was charged and what it has left make up its allotment after a transfer if and only if the transfer was at most what was left. |
| `Bandwidths.Bandwidth.Transfer` | source/libtransmission/bandwidth.c:304-403 | Clamping and then using moves no more than any honoured limit up the chain has left, and charges every limited node of the chain, also those past one that does not honour its parent. |
| `Bandwidths.UseSettles` | source/libtransmission/bandwidth.c:373-403 | Whatever is charged, a limited node is left with its allotment less the charge, or with nothing. |
| `BandwidthTree.Pulse` | source/libtransmission/bandwidth.c:162-403 | From one allocation to the next, over a tree of nodes and any clamped transfers by any of its peers: each limited node is charged exactly the piece bytes moved below it, keeps its allotment less that or nothing, and, if all who moved any honour the limits up to it, is never charged more than its allotment. |
| `Bandwidths.Bandwidth.SetParent` | source/libtransmission/bandwidth.c:126-158 | A node's chain becomes itself and its new parent's chain. |
| `PeerIos.DidWrite` | source/libtransmission/peer-io.c:148-178 | The bytes written leave the front of the output queue, and of them just the piece data is charged to every node above the peer. |
| `PeerIos.TryRead` | source/libtransmission/peer-io.c:1219-1262 | A read moves what the clamp and the socket allow; from a uTP peer it moves nothing. |
| `PeerIos.TryWrite` | source/libtransmission/peer-io.c:1264-1307 | A write moves what the clamp, the queue and the socket allow. |
| `PeerIos.Flush` | source/libtransmission/peer-io.c:1309-1324 | A flush moves that much in its direction and charges the piece data among it. |
| `PeerIos.AmountWithin` | source/libtransmission/bandwidth.c:304-345 | What is moved is within every limit that clamps the peer. |
| `PeerIos.ShortFor` | source/libtransmission/bandwidth.c:304-345 | Away from the speed limits, less than was asked is moved only for want of data, of room in the socket, or of bandwidth. |
| `PeerIos.WrittenStuck` | source/libtransmission/peer-io.c:1264-1324 | After a write of any length the peer is stuck if and only if that was all its data and nothing was queued in answer, or all its socket took, or all that some limit had left, every byte of it piece data. |
| `PeerIos.DroppedStuck` | source/libtransmission/bandwidth.c:197-230 | So a peer dropped for writing less than the increment is stuck if and only if its data or its socket is used up or it wrote nothing but piece data. |
| `PeerIos.ReadStuck` | source/libtransmission/peer-io.c:1220-1324 | After a read the peer is stuck if and only if there is no more to read, or some limit had no more left than was charged. |
| `PeerIos.UtpReadsNothing` | source/libtransmission/peer-io.c:1220-1237 | A flush of a uTP peer for reading changes nothing, so the peer is dropped whether stuck or not. |
| `PeerIos.StillMoving` | source/libtransmission/bandwidth.c:197-230 | A concrete peer that is dropped after 2000 bytes of piece data and 200 of protocol, with data and bandwidth left. |
| `RoundRobin.PhaseOne` | source/libtransmission/bandwidth.c:197-230 | The round ends whatever the order of picks; each node is charged just the piece data the peers below it moved, whether its limit clamps them or not; and after a round of plain sending no peer of the list could go on. |
| `RoundRobin.LeftOver` | source/libtransmission/bandwidth.c:197-403 | A limited node is left with its allotment less all of that, or with nothing. |
| `RoundRobin.FlushProtocol` | source/libtransmission/peer-io.c:1326-1341 | Protocol messages at the front of a queue are sent first, no piece data with them, and cost no node anything. |
| `RoundRobin.Allocate` | source/libtransmission/bandwidth.c:233-276 | Protocol messages go first; then high-priority peers are served alone, normal ones with them, then all, each round of plain sending until none of its peers can go on; and the books balance from start to end. |
| `UdpTracker.FailList` | source/libtransmission/announcer-udp.c:461-487 | Every request of a list is answered once, in order, if it has a callback. |
| `UdpTracker.SendList` | source/libtransmission/announcer-udp.c:529-572 | Exactly the unsent requests are sent; those nobody waits for go, the others are kept and marked. |
| `UdpTracker.TimeoutList` | source/libtransmission/announcer-udp.c:609-647 | Exactly the requests that are too old are answered as timed out and dropped. |
| `UdpTracker.SelectedSplit` | source/libtransmission/announcer-udp.c:609-647 | Every waiting request is either kept or timed out. |
| `UdpTracker.SelectedFresh` | source/libtransmission/announcer-udp.c:609-647 | No request kept is too old, and if none was all are kept. |
| `UdpTracker.Reply` | source/libtransmission/announcer-udp.c:895-931 | A reply finds a sent request if there is one with its transaction id, takes just the first such off the list and answers it once. |
| `UdpTracker.Tracker.AnsweredOnce` | source/libtransmission/announcer-udp.c:461-647 | In every reachable state a request is answered at most once, is not pending once answered, and none is lost. |
| `UdpTracker.Tracker.FailAll` | source/libtransmission/announcer-udp.c:461-487 | Everything pending is answered, scrapes first. |
| `UdpTracker.Tracker.SendReqs` | source/libtransmission/announcer-udp.c:529-572 | Under the four assertions, which hold wherever it is called, everything unsent is sent. |
| `UdpTracker.Tracker.OnDns` | source/libtransmission/announcer-udp.c:489-511 | A failed lookup answers everything pending; a good one lets the upkeep go on. |
| `UdpTracker.Tracker.OnConnectionResponse` | source/libtransmission/announcer-udp.c:574-607 | A connection lets requests go out; anything else answers everything pending as failed. |
| `UdpTracker.Tracker.TimeoutReqs` | source/libtransmission/announcer-udp.c:609-647 | A connection request left unanswered fails everything; otherwise just the requests that are too old time out. |
| `UdpTracker.Tracker.Upkeep` | source/libtransmission/announcer-udp.c:656-718 | No request is left lying: an address or a connection is on its way, or all has been sent; nobody is failed before time, and nobody too old is kept unless an address or a connection had to be asked for first. |
| `UdpTracker.Tracker.HandleMessage` | source/libtransmission/announcer-udp.c:860-938 | A message is handled if and only if its length fits its action and it answers the connection request or a sent request; the request with its transaction id, announces before scrapes, is then taken off its list and answered, with nothing else changed, and a message not handled changes nothing. |
| `UdpTracker.Tracker.Ask` | source/libtransmission/announcer-udp.c:940-968 | A new request is queued once and taken care of. |
| `AnnounceQueue.Tier.Push` | source/libtransmission/announcer.c:781-828 | The loops over the event array leave the specified queue. |
| `AnnounceQueue.Tier.Pull` | source/libtransmission/announcer.c:830-840 | The first event is handed out and the rest kept in order. |
| `AnnounceQueue.PushKeeps` | source/libtransmission/announcer.c:781-828 | A push keeps the queue well formed - no equal neighbours, a plain announce only last, before "stopped" at most a "completed" - and puts the event last. |
| `AnnounceQueue.PushRetains` | source/libtransmission/announcer.c:781-828 | A push takes exactly the plain announces away, and "started" when it stops. |
| `AnnounceQueue.RunKeeps` | source/libtransmission/announcer.c:773-840 | So does every run of pushes and pulls. |
| `AnnounceQueue.StaysUntilPulled` | source/libtransmission/announcer.c:781-840 | A queued "completed" or "stopped" is still queued after any run, unless one has been pulled. |
| `AnnounceQueue.StartedDropped` | source/libtransmission/announcer.c:794-802 | "started" has no such promise: a "stopped" drops it. |
| `AnnounceQueue.StartedStays` | source/libtransmission/announcer.c:781-840 | Over every run of pushes and pulls, a queued "started" stays until it is pulled if and only if no "stopped" is pushed before that. |
| `AnnounceQueue.OneStopped` | source/libtransmission/announcer.c:794-802 | A well-formed queue has at most one "stopped", with at most one "completed" before it. |
| `Handshakes.GetCryptoSelect` | source/libtransmission/handshake.c:365-394 | The first of our choices the peer provides is taken, zero just if there is none, and never plaintext when encryption is required. |
| `Handshakes.Handshake.Turn` | source/libtransmission/handshake.c:1010-1054 | Every handler that asks for another turn has moved to a later state, one that waits has stayed for want of bytes (or has just read the peer's key), and one that ends has called back once. |
| `Handshakes.Handshake.ReadYb` | source/libtransmission/handshake.c:395-494 | An answer that starts with the protocol's name is read as plaintext; any other gives its first 96 bytes as the peer's key. |
| `Handshakes.Handshake.ReadVc` | source/libtransmission/handshake.c:496-527 | The search goes on if and only if the bytes that decrypt to the verification constant are there, drops just those before their first place, and otherwise keeps the last seven bytes. |
| `Handshakes.ShowsVc` | source/libtransmission/handshake.c:513-518 | Bytes decrypt to the constant just where they are the key stream itself. |
| `Handshakes.Handshake.ReadPadA` | source/libtransmission/handshake.c:771-790 | The bytes before the first place of the hash are dropped if it is there; otherwise the last twenty are kept. |
| `ByteSearch.PiecesFind` | source/libtransmission/handshake.c:496-790 | However the bytes are cut into reads, what these searches keep is enough: the pattern is found where it first is in everything that came. |
| `Handshakes.Handshake.ReadCryptoSelect` | source/libtransmission/handshake.c:530-563 | The decrypted choice and padding length are read; it goes on if and only if the choice overlaps what was offered and the padding is at most 512 bytes. |
| `Handshakes.Handshake.ReadHandshake` | source/libtransmission/handshake.c:591-704 | The first byte decides between plaintext, an encrypted incoming handshake and encryption agreed before; the state moves on if and only if that is allowed, the name is right, and the hash is that of a known torrent or of the connection's own. |
| `Handshakes.LooksPlain` | source/libtransmission/handshake.c:610-640 | An encrypted handshake is taken for a plaintext one just if the key stream is zero at its first byte. |
| `Handshakes.Handshake.ReadCryptoProvide` | source/libtransmission/handshake.c:793-863 | Goes on if and only if the unmasked hash is that of a torrent and not both sides are seeds, with the offer and padding length as decrypted. |
| `Handshakes.Handshake.ReadPadC` | source/libtransmission/handshake.c:865-888 | The padding is passed over, and the length after it read. |
| `Handshakes.Handshake.ReadIa` | source/libtransmission/handshake.c:890-964 | Goes on if and only if some encryption is both asked for by the peer and allowed by us, and then the connection uses such a one. |
| `Handshakes.Handshake.ReadPeerId` | source/libtransmission/handshake.c:707-732 | Reports success if and only if the peer's id, as decrypted, is not our own. |
| `Handshakes.Handshake.ReadPayloadStream` | source/libtransmission/handshake.c:967-987 | Reports success if and only if the handshake, as decrypted, has the right name and the connection's own, known torrent, and the peer is not ourselves. |
| `Handshakes.Handshake.CanRead` | source/libtransmission/handshake.c:995-1059 | The loop ends, never touches a freed handshake, and goes on for as long as there are bytes to go on with, except that it always stops when it has read the peer's key. |
| `Handshakes.Handshake.GotError` | source/libtransmission/handshake.c:1116-1171 | Plaintext is tried if and only if encryption is not required, our key had been sent and not more, and the reconnection works; otherwise the callback reports failure. After a reconnection away from uTP it always does. |
| `Handshakes.Handshake.Live` | source/libtransmission/handshake.c:1094-1181 | Over a whole life the callback is called at most once, by the timer at the latest, and with encryption required a connection reported good is encrypted. |
| `Blocklist.SortRanges` | source/libtransmission/blocklist.c:308-381 | Sorting keeps the set of blocked addresses. |
| `Blocklist.MergeRanges` | source/libtransmission/blocklist.c:381-414 | The merge behind a moving keep position leaves ascending ranges apart from each other that block exactly the addresses the input blocks. |
| `Blocklist.Lookup` | source/libtransmission/blocklist.c:205-230 | The search finds an address if and only if some range has it. |
| `Blocklist.SetContent` | source/libtransmission/blocklist.c:318-414 | Sorted and merged, the rules block exactly the addresses some input range has. |
| `OutlineSort.ShellSort` | source/InterfaceKitEx/ColumnListView.cpp:4533-4553 | The passes with strides ..., 13, 4, 1 leave the rows in order, none lost or doubled. |
| `OutlineSort.Bisect` | source/InterfaceKitEx/ColumnListView.cpp:4325-4337 | The bisection ends at or next to the place of the row, or at -1 for an empty list. |
| `OutlineSort.AddSorted` | source/InterfaceKitEx/ColumnListView.cpp:4325-4352 | The row goes in so that the list stays in order. |
| `Outline.RecursiveOutlineIterator.GoToNext` | source/InterfaceKitEx/ColumnListView.cpp:4835-4869 | One step takes just the current row off the visits still to come, with its depth. |
| `Outline.VisitAll` | source/InterfaceKitEx/ColumnListView.cpp:4809-4875 | The iterator yields exactly the preorder of the rows - all, or those under expanded rows - each with its depth in the tree. |
| `DeepSort.SortAll` | source/InterfaceKitEx/ColumnListView.cpp:4584-4651 | The sort with its own stack sorts the lists in the order of the recursive one. |
| `DeepSort.EachListOnce` | source/InterfaceKitEx/ColumnListView.cpp:4584-4651 | That order sorts every child list of the tree exactly once, however rows are rearranged on the way. |
| `DeepSort.EachListSorted` | source/InterfaceKitEx/ColumnListView.cpp:4584-4651 | Every list is left as the sorter arranges its own rows, none lost or added. |
| `DeepSort.ParentsFirst` | source/InterfaceKitEx/ColumnListView.cpp:4584-4651 | Every child list is sorted after the list its row is in. |

## Left out

- BlockCache.Cache.FlushContiguous: does not model a write that fails; the source drops the blocks from the cache even then. Every disk file is taken to have its full length and every transfer to succeed.
- BlockCache.Cache.WriteBlock: demands a whole block at its own place, as the source's callers and its length assertion do; ranks, offsets and counters are unbounded integers, so their 32- and 64-bit wrap-around is not modelled, and the block limit is an exact quotient where the source divides in floating point.
- BlockCache.Cache.SetLimit: does not promise to end within a limit that has just shrunk below the number of cached blocks; the source trims by its cutoff once and does not either.
- BlockCache.Cache.FlushDone: does not promise that no flagged run is left, which is false of the code; `CacheRanks.NoFlaggedKept` says exactly when none is.
- BlockCache.Cache.ReadBlock: does not promise the newest bytes for every read, which is false of the code; `CacheReads.RightExactly` says exactly when they are read.
- BencodeText.ParseStr: a length so near 2^64 that the sum with its place wraps is taken by the source, and is rejected here, where sums are exact.
- BencodePrint.RoundTrip: demands strings shorter than 2 GiB, because the parser passes lengths through an `int`; a longer one is cut off by the source.
- Cached blocks, bencode trees and outline rows are values: a parent's array of children is rebuilt where the source writes through pointers into it, so aliasing between nodes is not captured. The parser's stack holds the open containers themselves instead of pointers to them.
- qsort is modelled by one particular stable sort, and the proofs use only that it permutes and orders; bsearch, memchr, strtoul and the event buffers of libevent are modelled by what they are documented to do.
- Real numbers in bencode, JSON output and input (`json.c`, `jsonsl.c`), and loading and saving of files.
- UTF-32 units have 32 bits; where `unsigned long` has 64, larger values are not modelled.
- `tr_bitfieldRem`, whose guard is inverted, bitfields of unknown size, and the unbounded form of `tr_bitfieldSetRaw`.
- Bitfields.Bitfield.SetRaw: demands a source of full length, as the source asserts of a bounded one (bitfield.c:317-321).
- Bitfields.Bitfield.SetFromBitfield: demands that a partly filled source has its whole array, by the same assertion.
- The floating-point ratios of `completion.c` (percentages, amount done per bar).
- BandwidthTree.Pulse: takes the nodes to allot to as a list; what a peer asks for and what its socket takes are inputs.
- Bandwidths.Bandwidth.Clamp: takes the measured speeds as inputs and computes the slowed-down byte counts over real numbers; rounding of doubles is not modelled.
- Bandwidths.Bandwidth.SetParent: does not model the parent's sorted array of children, nor the recursion of the allocation over it, which only collects peers and applies `Allot` to each node.
- RoundRobin.PhaseOne: takes the room in each peer's socket for the whole round as given at its start, and sockets that fail as sockets without room; without any limit and with endless data and room the source's loop would not end. Measured speeds, which of the bytes read are piece data, and what a peer queues in answer to a flush are inputs; the overhead of the protocols below is not charged here.
- RoundRobin.Allocate: promises that no peer could go on only for rounds of sending away from the speed limits, with nothing but piece data queued; for any other flush `PeerIos.WrittenStuck` and `PeerIos.ReadStuck` say exactly when the peer is stuck.
- RateHistory.Rate.GetSpeed: demands a time past the first two seconds and a clock that does not go back; wrap-around of the 64-bit clock and of byte counts is not modelled.
- UdpTracker.Tracker.Upkeep: the clock is one that does not go back, where the source reads two (`tr_time` and `time`); callbacks do not call the tracker back, and a lookup does not finish before it is started. Packet contents, sockets and the random transaction ids are inputs.
- Handshakes.Handshake.Turn: the key stream and the hashes that a peer's key gives are inputs, since the cryptography is opaque here; so is what the session knows of torrents and ids. What is written to the peer is not modelled.
- Handshakes.Handshake.ReadPadD: passes on whatever choice the peer made; a choice of both kinds at once passes the check before, though the connection's encryption is asserted to be one of the two.
- Blocklist.SetContent: starts from parsed ranges; parsing of lines, the file format and its memory mapping are left out.
- DeepSort.SortAll: is not cancelled, does not lose its window and has room on its stack; locking, drawing and the fixed depth of the source's array are left out.
- OutlineSort.ShellSort: the comparison is any total preorder; which columns it looks at is left out.
- Announcer slots, tiers, scrapes and tracker lists (`announcer.c` beyond the event queue); the datatype queue of `peer-io.c`; hashing of pieces in `makemeta.c`; magnet links; `history.c`.
- Logging, threads, sockets, uTP, DNS, the user interface's drawing, and the tables of known clients.
