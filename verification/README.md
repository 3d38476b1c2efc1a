# Verified models of the xMach default pager, boot inflate, ext2 reader and allocator

This project models four components of xMach in Dafny and proves properties of the models. The
imperative parts of the C code are modelled as classes and methods that update state in place;
the specifications they are proved against are functions and predicates on values.

* **DEFLATE decoder of the Linux boot adapter** (`inflate.c`, `misc.c`). `Canonical`, `CodeSet`:
  canonical Huffman codes. `HuftTable`, `HuftFill`, `HuftOpen`, `HuftDecode`: the multi-level tables
  and the walk through them. `HuftPrep`, `HuftSteps`, `HuftBuild`: `huft_build`. `HuftSymbols`,
  `HuftLevels`, `HuftSites`: which tables decode, and the tables of the call sites. `Deflate`: a
  reference decoder after RFC 1951, strict, or lax where the code is. `DeflateStrict`, `DeflateStreams`:
  where the two differ. `DeflateSymbols`, `DeflateLengths`, `DeflateBack`, `DeflateExact`: an encoder, and
  that the strict decoder decodes what it sends and nothing else. `Inflate`: the decoder with its bit
  buffer and circular window. `Crc`: the CRC of section 8 of RFC 1952 by table; `CrcBits`: bit by bit.
* **Default pager** (`default_pager.c`). `Partition`: the block bitmap and the storage of a paging
  partition. `PageMap`: the one- and two-level page map of an object. `BlockMap`: who owns which
  block. `PageBytes`: the bytes of pages and what moves do to them. `Departure`: what is kept while a
  partition is removed. `Pager`: all partitions and objects, and the operations on them. `PageStore`:
  what a run may do as seen from outside, and what follows for the pages; `PagerRuns`: every run of the
  pager is such a run. `PagerLosses`: runs that lose data. `Seqno`: the request protocol as a state
  machine over all interleavings; `SeqnoPages`, `SeqnoReads`: what reads return in them.
* **ext2 reader** (`ext2_file_io.c`, `strfcns.c`). `Ext2`: the cached block map, buffered reading, and
  the block array for direct paging. `Ext2Tables`: what they find on a device whose index blocks hold
  tables. `FileDirect`: reading and writing through that array by sectors, which `Partition` uses.
  `StrFcns`, `PathWalk`: opening a path with symbolic links. `PathMeaning`: what a path opens, by the
  records of directories.
* **Wired-memory allocator** (`kalloc.c`). `Kalloc`: its sections. `KallocRuns`: every run of any number
  of threads.

`Bits` holds shifts, masks, bit strings and division. `dafny verify dfyconfig.toml` verifies the project.

## How concurrency is modelled

`Seqno`: a section of code that holds the object's lock is one step, a thread in `condition_wait` is
asleep until a broadcast or a spurious wake-up, and a broadcast after an unlock is a step of its own.
Runs are arbitrary sequences of steps. `SeqnoPages` adds the moments at which a write takes effect, a page
is read and, after a read for writing, released.

`PagerRuns`: wherever a request drops a lock another step may come. A write is the test of the object's
size, the extension, the test again, the lookup of the block, that of its partition, and the transfer; a
read is two lookups, the transfer, the emptying of the slot and the giving back of the block. The scan of
one object is a step of a removal. The end of an object is a step that takes it off the list and a step
for each block it gives back. A new object may come with a partition chosen for it at any time before.
Requests for one page at a time: the comment at `default_pager.c` line 372 leaves conflicting operations
on a page to higher levels, and the runs refuse them.

`KallocRuns`: each locked section and each call to the kernel is a step of a thread with a program
counter of its own. `Ext2`: while `block_map` has dropped the lock, other threads load arbitrary blocks
into the cache.

## Where the code differs from what one would expect

* `huft_build` lacks a check that later versions of the algorithm have: when the first code of a new
  table already needs at least as many bits as the table may have, the table becomes too large and only
  one of the indices that should lead to it does. For complete lengths the tables decode if and only if
  this never happens below the first table (`HuftDecode.DecodesIff`); `HuftLevels.SkippedTables` builds
  tables for lengths for which it does. The lookup sizes and code lengths of the callers never lead to it.
* The comment of `huft_build` says all-zero lengths give 2; the code returns 0 and no table. The model
  follows the code; using the missing table is the status `Undefined`.
* Words that belong to no symbol are marked invalid only when no length is zero
  (`HuftDecode.DummiesInvalidIff`); otherwise the entry depends on an unset part of the value table.
* A distance that reaches back before the start of the output is not rejected; it reads zero bytes, as
  the window is allocated cleared. A repeat code with no length before it repeats zero. Code length and
  literal codes with a single symbol of one bit, or none, are taken, which section 3.2.7 of RFC 1951 allows
  only for distances. Symbol 284 with all its extra bits set is taken for length 258, which has a symbol of
  its own. The code agrees with RFC 1951 on a stream if and only if it has none of these or is
  corrupt anyway (`DeflateStrict.AgreeIff`); in `DeflateStreams` are streams on which they differ.
* `pager_move_page` reads and writes once. When a block of either file system is smaller than a page,
  the rest of the page is lost (`PagerLosses.LostBytes`): `pager_realloc` preserves the bytes of every page
  if and only if the departing partition and those its pages go to move a page in one piece
  (`PageBytes.MovesKeepIff`).
* `default_pager_no_senders` takes an object off the list before it gives back its blocks, and
  `destroy_paging_partition` looks only at the list. `pager_release_offset` drops the lock between emptying
  the slot and giving back the block, and `destroy_paging_partition` looks only at slots. A removed
  partition is empty if and only if no object off the list has a page in it and no release of a block of it
  is half done (`Departure.Emptied`); `PagerLosses.StrayBlock` and `PagerLosses.HalfReleased` are runs
  where it is not.
* `pager_write_offset` drops the lock before `pager_extend`, which does not look at the size again. When
  another writer has extended the object further, it is made smaller. Old pages keep their blocks if and
  only if the size wanted is at most 1024 or, rounded up, at least the present one (`PageMap.Dpager.Extend`);
  `PagerLosses.ShrunkMap` is a run that drops a page.
* A block that was looked up is taken for one of whatever partition has its index at the transfer, and
  `create_paging_partition` reuses indices (`PagerLosses.WrongPage`).
* `default_write` drops the object's lock between the lookup of the block and the transfer. A scan in
  between that moves the page makes the write miss it (`PagerLosses.LostWrite`). The page holds the data
  if and only if it is still in the block that was looked up (`PageStore.WriteLandsIff`), which is so when
  no scan moves it and not so when just one does (`PageStore.Write`).
* Writes to one object run in parallel, a write does not wait for reads, and a read for writing releases
  the page after it. So a data_request may return an older write than the last before it, a later one, or
  nothing; `SeqnoReads.ReturnsLastIff` has the exact condition on the list of requests.
* `ext2_read_file` returns an error when it reaches the end of the file, though it has copied the bytes
  up to there; it does not report how many.
* `ext2_open_file` accepts components of 256 characters; the limit is checked one character late
  (`PathWalk.TooLongIff`).
* When the device fails in `buf_read_file` the buffer is freed but keeps its block number, and the next
  read of that block succeeds with freed storage (`Ext2.FreedRead`); `Ext2.File.LoadBuf` says exactly when.

## Model

| member | source | states |
|---|---|---|
| `Canonical.Codes.PrefixFree` | kernel/boot/linux/inflate.c:206-286 | no word of a code set that the counts allow is the start of another |
| `Canonical.Codes.Cover` | kernel/boot/linux/inflate.c:168-174 | when the counts use up all bit patterns, every long enough bit string starts with a word |
| `CodeSet.CodesMatch` | kernel/boot/linux/inflate.c:168-174 | topping up the count of the greatest length gives a complete code set that contains the canonical code of the lengths, for every list that is not over-subscribed |
| `HuftPrep.CountLengths` | kernel/boot/linux/inflate.c:134-140 | the counts are those of the lengths |
| `HuftPrep.LengthRange` | kernel/boot/linux/inflate.c:150-164 | least and greatest length in use |
| `HuftPrep.Leftover` | kernel/boot/linux/inflate.c:168-174 | negative exactly for over-subscribed lengths; otherwise the number of unused patterns of the greatest length |
| `HuftPrep.Offsets` | kernel/boot/linux/inflate.c:178-183 | offset of each length is the number of symbols with shorter codes |
| `HuftPrep.SortSymbols` | kernel/boot/linux/inflate.c:187-192 | the value table lists the symbols by length and then by number, and nothing beyond the symbols in use |
| `HuftSteps.BackwardIncrement` | kernel/boot/linux/inflate.c:283-286 | the reversed code of the next word |
| `HuftSteps.FillEntries` | kernel/boot/linux/inflate.c:278-281 | the entry is written at exactly the indices that begin with the code |
| `HuftSteps.TableBits` | kernel/boot/linux/inflate.c:222-237 | the smallest table that the words under the prefix use up, within the limit where one exists |
| `HuftBuild.OpenTables` | kernel/boot/linux/inflate.c:214-259 | opens and links the tables on the way to a word, keeping the invariant of the tables built so far |
| `HuftBuild.EnterCode` | kernel/boot/linux/inflate.c:211-295 | enters one word, and keeps the invariant |
| `HuftBuild.BackUp` | kernel/boot/linux/inflate.c:288-293 | returns to the level whose prefix the next word shares |
| `HuftBuild.BuildTables` | kernel/boot/linux/inflate.c:99-303 | result 2 exactly for over-subscribed lengths, 1 exactly for incomplete ones with a length above 1, 0 with no table for all-zero lengths; tables that decode every word if no level is skipped, and for complete lengths only if so |
| `HuftDecode.DecodesIf` | kernel/boot/linux/inflate.c:207-303 | if no level below the first is skipped, a walk of the finished tables on any bits that start with a word yields what the word stands for and uses exactly its length over all levels |
| `HuftDecode.DecodesIff` | kernel/boot/linux/inflate.c:224-237 | for complete lengths the tables decode every symbol if and only if no level below the first is skipped |
| `HuftLevels.SkippedLevel` | kernel/boot/linux/inflate.c:224-237 | the complete lengths 1, 2, 3, 3 with one lookup bit skip a level |
| `HuftLevels.SkippedTables` | kernel/boot/linux/inflate.c:99-303 | for those lengths the tables are built without an error, and do not decode |
| `HuftLevels.ShallowOK` | kernel/boot/linux/inflate.c:224-237 | lengths up to twice the lookup bits skip no level |
| `HuftLevels.FewSymbolsOK` | kernel/boot/linux/inflate.c:224-237 | fewer symbols than a full table has entries skip no level, for complete lengths |
| `HuftDecode.DummiesInvalidIff` | kernel/boot/linux/inflate.c:262-265 | for incomplete lengths, the words that belong to no symbol are all marked invalid if and only if no length is zero |
| `HuftSites.WideTable` | kernel/boot/linux/inflate.c:676-685 | the literal and length tables that the callers ask for decode |
| `HuftSites.DistTable` | kernel/boot/linux/inflate.c:687-702 | the distance tables that the callers ask for decode |
| `HuftSites.FixedLitComplete` | kernel/boot/linux/inflate.c:504-515 | the fixed literal and length code is complete, with lengths 7 to 9 |
| `HuftSites.FixedDistFits` | kernel/boot/linux/inflate.c:518-522 | the fixed distance code is incomplete but not over-subscribed |
| `HuftSymbols.WalkMeansSymbol` | kernel/boot/linux/inflate.c:353-362 | what a walk of a decoding table finds is the symbol whose canonical code the input spells, or none if it spells none |
| `Inflate.Inflater.NeedBits` | kernel/boot/linux/inflate.c:84-84 | the low bits of the buffer are the next unread input bits, at most 32 of them; false only when the input runs out |
| `Inflate.Inflater.DumpBits` | kernel/boot/linux/inflate.c:85-85 | the buffer holds the bits after those dumped |
| `Inflate.Inflater.FlushWindow` | kernel/boot/linux/misc.c:157-166 | flushed data followed by the window is still the whole output; the CRC register has taken in exactly the flushed data |
| `Inflate.Inflater.CopyPiece` | kernel/boot/linux/inflate.c:399-412 | one chunk appends the bytes of the one-byte-at-a-time copy, whether moved as a block or byte by byte |
| `Inflate.Inflater.CopyMatch` | kernel/boot/linux/inflate.c:398-418 | for every length and every distance up to 32768, the chunked circular copy with its flushes appends the bytes of section 3.2.3 of RFC 1951 |
| `Inflate.FastCopy` | kernel/boot/linux/inflate.c:402-407 | a block copy within the window is the byte-wise copy, also where the source lies ahead of the target |
| `Inflate.Inflater.WalkTables` | kernel/boot/linux/inflate.c:353-362 | the table loop finds what the walk of the tables on the unread bits finds, and dumps its bits |
| `Inflate.Inflater.GetMatch` | kernel/boot/linux/inflate.c:378-396 | length and distance are those the reference decoder reads |
| `Inflate.Inflater.OneMatch` | kernel/boot/linux/inflate.c:378-418 | length, distance and copy together are one match of the reference decoder |
| `Inflate.Inflater.OneCode` | kernel/boot/linux/inflate.c:351-420 | one literal, match or end of block is one step of the reference decoder |
| `Inflate.Inflater.InflateCodes` | kernel/boot/linux/inflate.c:328-430 | agrees with the reference decoder of section 3.2.3 of RFC 1951 on a block body |
| `Inflate.Inflater.InflateStored` | kernel/boot/linux/inflate.c:434-486 | agrees with the reference on stored blocks, section 3.2.4 of RFC 1951 |
| `Inflate.Inflater.ReadCodeLens` | kernel/boot/linux/inflate.c:593-601 | the lengths of the code length code, in the order of section 3.2.7 of RFC 1951 |
| `Inflate.Inflater.ReadLengths` | kernel/boot/linux/inflate.c:616-660 | the lengths with their repeat codes are those of the reference; a repeat past the end fails |
| `Inflate.Inflater.InflateDynamic` | kernel/boot/linux/inflate.c:544-718 | agrees with the reference on dynamic blocks, section 3.2.7 of RFC 1951 |
| `Inflate.Inflater.InflateFixed` | kernel/boot/linux/inflate.c:490-540 | agrees with the reference on fixed blocks, section 3.2.6 of RFC 1951 |
| `Inflate.Inflater.InflateBlock` | kernel/boot/linux/inflate.c:722-765 | agrees with the reference on any block; type 3 fails |
| `Inflate.Inflater.Inflate` | kernel/boot/linux/inflate.c:769-810 | success means the reference decoder succeeds with the same output, inptr is the first byte after the last one used, at most one byte is given back, and the CRC is that of the output; and the reference succeeding with 33 bits of input to spare means success |
| `Inflate.Inflater.GiveBack` | kernel/boot/linux/inflate.c:793-799 | at most one byte is given back, and inptr is the first byte after the last one used |
| `DeflateStrict.Strict` | kernel/boot/linux/inflate.c:606-702 | the decoder of RFC 1951 refuses exactly the streams that the lax one, which the code implements, refuses, and those in which a match reaches before the start of the output or has length 258 by symbol 284, code lengths begin with a repeat, or the code length code or a literal code is not complete; otherwise the two give the same |
| `DeflateStrict.HeaderStrict` | kernel/boot/linux/inflate.c:606-702 | the dynamic headers that only the lax decoder takes are exactly those that begin with a repeat or have a code length code or literal code that is not complete |
| `DeflateStrict.AgreeIff` | kernel/boot/linux/inflate.c:384-412 | the two agree on a stream if and only if it has none of these, or is corrupt anyway |
| `DeflateStreams.DistanceDiffers` | kernel/boot/linux/inflate.c:384-412 | a stream, with anything after it, that the lax decoder turns into three zero bytes and the strict one refuses for its distance |
| `DeflateStreams.RepeatDiffers` | kernel/boot/linux/inflate.c:629-638 | a stream whose code lengths begin with a repeat: the lax decoder takes it and the strict one refuses it |
| `DeflateStreams.SingleDiffers` | kernel/boot/linux/inflate.c:676-685 | a stream whose literal code has a single symbol: the lax decoder takes it and the strict one refuses it |
| `DeflateStreams.LengthDiffers` | kernel/boot/linux/inflate.c:378-381 | a stream with length 258 by symbol 284, which is for lengths up to 257: the lax decoder takes it and the strict one refuses it |
| `DeflateSymbols.LenChosen` | kernel/boot/linux/inflate.c:51-57 | every length from 3 to 258 has its symbol and extra bits by a formula, and the tables of the code give it back |
| `DeflateSymbols.DistChosen` | kernel/boot/linux/inflate.c:58-65 | so has every distance from 1 to 32768 |
| `DeflateSymbols.LenInverse` | kernel/boot/linux/inflate.c:51-57 | every symbol and extra bits of the tables are those of its length, but for symbol 284 with all bits set |
| `DeflateSymbols.DistInverse` | kernel/boot/linux/inflate.c:58-65 | every symbol and extra bits of the tables are those of its distance |
| `DeflateSymbols.BorderIs` | kernel/boot/linux/inflate.c:49-50 | the order in which the lengths of the code length code are sent: the repeat codes, zero, then from 8 outwards |
| `DeflateSymbols.FixedWord` | kernel/boot/linux/inflate.c:504-515 | the fixed literal and length code words are the numbers of section 3.2.6 of RFC 1951 |
| `DeflateSymbols.FixedDistWord` | kernel/boot/linux/inflate.c:518-522 | the fixed distance code words are the numbers of five bits |
| `DeflateLengths.LengthsBack` | kernel/boot/linux/inflate.c:616-660 | code lengths sent as symbols with repeat counts are read back |
| `DeflateBack.StoredBack` | kernel/boot/linux/inflate.c:451-478 | a stored block at any bit position, after padding of any bits up to the byte boundary, is decoded to its data |
| `DeflateBack.StoredBytesBack` | kernel/boot/linux/inflate.c:434-486 | the bytes 1, length, complement and data are decoded to the data, for all data of fewer than 65536 bytes |
| `DeflateBack.BodyBack` | kernel/boot/linux/inflate.c:328-430 | literals and matches sent by the code words of any codes are decoded to what they repeat |
| `DeflateBack.HeadBack` | kernel/boot/linux/inflate.c:575-702 | the codes of a dynamic block, sent by an encoder, are read back |
| `DeflateBack.StreamBack` | kernel/boot/linux/inflate.c:769-810 | any stored, fixed and dynamic blocks, in any number and order and from any position, are decoded to what was sent, by the strict decoder and by the lax one |
| `DeflateExact.StreamSent` | kernel/boot/linux/inflate.c:769-810 | every stream that the strict decoder decodes is that of some blocks, and they give the same output |
| `DeflateExact.DecodedIff` | kernel/boot/linux/inflate.c:769-810 | the strict decoder answers an output and an end if and only if some blocks, sent from there, give that output and end there |
| `Deflate.ByteBits` | kernel/boot/linux/inflate.c:82-85 | bit i of the input is bit i mod 8, from the least, of byte i / 8 |
| `Crc.StepLinear` | kernel/boot/linux/misc.c:200-200 | the shift step is linear |
| `Crc.MakeCrc` | kernel/boot/linux/misc.c:176-206 | entry i is the register after eight bit-serial steps on byte i |
| `Crc.PatternIsPoly` | kernel/boot/linux/misc.c:185-191 | the terms make the reversed polynomial of section 8 of RFC 1952 |
| `Crc.TableStep` | kernel/boot/linux/misc.c:108-108 | one table lookup is eight bit-serial steps |
| `Crc.UpdCrc` | kernel/boot/linux/misc.c:95-113 | the register after any bytes is the bit-serial one |
| `Crc.FlushesGiveCrc32` | kernel/boot/linux/misc.c:95-113 | any way of splitting the bytes into flushes gives the CRC of their concatenation |
| `CrcBits.FeedTakesBits` | kernel/boot/linux/misc.c:95-113 | the register after any bytes is that of a shift register that takes in their bits one at a time, lowest first, and adds the polynomial when the bit shifted out differs from that of the message |
| `CrcBits.Crc32IsBitwise` | kernel/boot/linux/misc.c:95-113 | so is the CRC-32 of section 8 of RFC 1952 |
| `CrcBits.CheckValue` | kernel/boot/linux/misc.c:95-113 | the CRC-32 of the digits 1 to 9 is 0xcbf43926 |
| `Partition.Part.constructor` | kernel/generic/bootstrap/default_pager.c:165-191 | a new partition has no block allocated |
| `Partition.Part.FindClear` | kernel/generic/bootstrap/default_pager.c:304-323 | with a free block the scan finds the lowest clear one, which is below the size in spite of slack bits; neither panic is reached |
| `Partition.Part.Alloc` | kernel/generic/bootstrap/default_pager.c:277-333 | the lowest unallocated block becomes allocated and no other changes |
| `Partition.Part.Dealloc` | kernel/generic/bootstrap/default_pager.c:339-365 | exactly that block is unallocated |
| `Partition.PieceFits` | kernel/generic/bootstrap/default_pager.c:1403-1432 | every piece of a page is sector-aligned and stays in one disk block, for all power-of-two page sizes and block sizes from a sector up |
| `Partition.Part.ReadPage` | kernel/generic/bootstrap/default_pager.c:1321-1354 | the piecewise loop, through the sectors of the device, gives the bytes of the block |
| `Partition.Part.WritePage` | kernel/generic/bootstrap/default_pager.c:1408-1432 | the piecewise loop, through the sectors of the device, replaces the bytes of the block and no others |
| `PageMap.Dpager.constructor` | kernel/generic/bootstrap/default_pager.c:452-518 | all pages unallocated; the least power of two up to 1024 pages, else the least multiple of 64 |
| `PageMap.GoodSizeFull` | kernel/generic/bootstrap/default_pager.c:471-478 | every size above 64 is a multiple of 64, so second-level maps are full |
| `PageMap.NewSize` | kernel/generic/bootstrap/default_pager.c:638-646 | doubling up to the limit and rounding above it give an allowed size that is large enough; it is below the present size exactly when the size wanted is above the limit and its rounding is below the present size |
| `PageMap.GrownMap` | kernel/generic/bootstrap/default_pager.c:648-767 | in each change of shape the map describes the old pages, cut off or followed by unallocated ones; entries are copied past the end of the new map exactly when it is the smaller one |
| `PageMap.Dpager.Extend` | kernel/generic/bootstrap/default_pager.c:621-767 | old pages keep their blocks and new pages have none if and only if the size wanted is at most 1024 or, rounded up to 64, at least the present size; otherwise the pages beyond the new size are dropped |
| `PageMap.Dpager.Read` | kernel/generic/bootstrap/default_pager.c:775-814 | the block of the page in either shape of map |
| `PageMap.Dpager.Allocated` | kernel/generic/bootstrap/default_pager.c:526-559 | counts exactly the pages that have a block |
| `BlockMap.Ledger.Allocate` | kernel/generic/bootstrap/default_pager.c:1152-1154 | giving an empty slot an unallocated block keeps every allocated block owned by exactly one slot or half-done release |
| `BlockMap.Ledger.Loosen` | kernel/generic/bootstrap/default_pager.c:828-841 | so does emptying a slot, its block being half given back until it is unallocated |
| `BlockMap.Ledger.GiveBack` | kernel/generic/bootstrap/default_pager.c:843-843 | so does unallocating a block that is half given back |
| `BlockMap.Ledger.CutIff` | kernel/generic/bootstrap/default_pager.c:648-700 | dropping the pages of an object from some page on keeps ownership exact if and only if none of them has a block |
| `BlockMap.Ledger.Relocate` | kernel/generic/bootstrap/default_pager.c:853-910 | so does moving a page to another partition |
| `BlockMap.Ledger.Conservation` | kernel/generic/bootstrap/default_pager.c:525-559 | in every consistent state as many blocks are allocated as pages are in place and releases half done |
| `Pager.Pager.constructor` | kernel/generic/bootstrap/default_pager.c:153-157 | the empty pager is consistent |
| `Pager.Pager.AddPartition` | kernel/generic/bootstrap/default_pager.c:165-223 | takes the first free place of the list, doubled if full; owners and bytes of all pages stay |
| `Pager.Pager.Choose` | kernel/generic/bootstrap/default_pager.c:232-270 | the first suitable partition, or none exactly when none is suitable |
| `Pager.Pager.AllocPage` | kernel/generic/bootstrap/default_pager.c:277-333 | no block exactly when the partition is missing, departing or full; otherwise a block that was not allocated |
| `Pager.Pager.DeallocPage` | kernel/generic/bootstrap/default_pager.c:339-365 | that block and no other becomes unallocated |
| `Pager.Pager.ChooseFor` | kernel/generic/bootstrap/default_pager.c:1846-1855 | the partition chosen for a new object: the first that fits, else the first with any room, else none |
| `Pager.Pager.AddObject` | kernel/generic/bootstrap/default_pager.c:1855-1999 | a new object has no pages and the partition chosen for it, whatever has become of that, also while a partition is being removed |
| `Pager.Pager.FindCur` | kernel/generic/bootstrap/default_pager.c:1033-1048 | an object without a partition gets one unless no partition has a free page |
| `Pager.Pager.Cover` | kernel/generic/bootstrap/default_pager.c:1050-1069 | after the extension loop, if no other writer extends the object meanwhile, the page is in the map and no page has moved |
| `Pager.Pager.Ready` | kernel/generic/bootstrap/default_pager.c:1033-1048 | up to the test of the size: fails only if the page has no block and no partition has room |
| `Pager.Pager.ExtendMap` | kernel/generic/bootstrap/default_pager.c:1058-1058 | an extension by a writer whose view of the size may be old: the object gets smaller exactly when it has grown beyond what the writer asks for, and ownership stays exact if and only if no page that is dropped has a block |
| `Pager.Pager.FindBlock` | kernel/generic/bootstrap/default_pager.c:1071-1164 | for a page within the object: no block if and only if the page has none and no partition has room; otherwise the page is at the block returned, and every other page's block is unchanged; a new block is the lowest free one of the object's current partition if that has room, else of the first other one that has, which becomes the current one |
| `Pager.Pager.Room` | kernel/generic/bootstrap/default_pager.c:1118-1151 | a block of the current partition if it has room, else of the first other one that has, which becomes the current one; none only when none has room |
| `Pager.Pager.WriteOffset` | kernel/generic/bootstrap/default_pager.c:1011-1164 | without interruption: no block if and only if the page has none and no live, staying partition has a free one; otherwise the page is at the block returned and every other page's block is unchanged; a new block is from the object's partition, or the one found for it, if that has room, else from the first that has |
| `Pager.Pager.ClearSlot` | kernel/generic/bootstrap/default_pager.c:826-841 | the page has no block, which is still allocated and half given back; ownership stays exact |
| `Pager.Pager.FreeLoose` | kernel/generic/bootstrap/default_pager.c:843-843 | exactly that block is unallocated; ownership stays exact |
| `Pager.Pager.ReleaseOffset` | kernel/generic/bootstrap/default_pager.c:820-844 | without interruption: the page has no block, its block is unallocated, ownership stays exact |
| `Pager.Pager.DefaultWrite` | kernel/generic/bootstrap/default_pager.c:1379-1434 | fails exactly when there is no block to be had; otherwise the page holds the data; no other page of any object changes |
| `Pager.Pager.DefaultRead` | kernel/generic/bootstrap/default_pager.c:1292-1376 | absent exactly when the page has no block, else the bytes of the page; with deallocate the page is released |
| `Pager.Pager.MovePage` | kernel/generic/bootstrap/default_pager.c:854-910 | none exactly when no other partition has room; otherwise the lowest free block of the first other partition with room, which holds as much of the page as one read and one write move, over what it held |
| `PageBytes.MovedPage` | kernel/generic/bootstrap/default_pager.c:854-910 | after any number of moves out of a partition, a page that was not moved has its bytes, and one that was has as much of them as one read and one write move, over what its new block held |
| `PageBytes.WholeMovesKeep` | kernel/generic/bootstrap/default_pager.c:1226-1273 | when the departing partition and those its pages go to move a page in one piece, every page keeps all its bytes |
| `PageBytes.MovesKeepIff` | kernel/generic/bootstrap/default_pager.c:1226-1273 | whatever the disks hold, all pages survive if and only if the departing partition and every partition a page of it went to move a page in one piece |
| `PagerLosses.LostBytes` | kernel/generic/bootstrap/default_pager.c:878-902 | a run with 1024-byte blocks: a page of ones is written, its partition removed, and only the first quarter of the page is read back |
| `Pager.Pager.Realloc` | kernel/generic/bootstrap/default_pager.c:1226-1273 | success means no page of the object and not its current partition is the departing one; failure means no other partition has room and a page is still there; in both cases every page stays, exactly the pages listed have moved, and the disks hold what these moves leave |
| `Departure.Emptied` | kernel/generic/bootstrap/default_pager.c:1577-1622 | once every object is scanned, whatever ran between the scans, no object on the list has a page in the departing partition, and it has no block allocated if and only if no object off the list has a page in it and no release of a block of it is half done |
| `Departure.SizedIff` | kernel/generic/bootstrap/default_pager.c:621-767 | a change of an object's size keeps ownership exact if and only if no page that is dropped has a block |
| `Departure.TakenOut` | kernel/generic/bootstrap/default_pager.c:1613-1622 | taking a partition out keeps every block owned by exactly one page if and only if none of its blocks is allocated |
| `Pager.Pager.DestroyBegin` | kernel/generic/bootstrap/default_pager.c:1558-1569 | the partition of that name is departing, or there is none |
| `Pager.Pager.DestroyScan` | kernel/generic/bootstrap/default_pager.c:1581-1610 | one more object of the list is clear of the partition, or a page of it is still there and no partition has room; objects off the list are passed over |
| `Pager.Pager.DestroyEnd` | kernel/generic/bootstrap/default_pager.c:1613-1622 | no object on the list has a page in the partition that leaves; it was empty, and ownership stays exact, if and only if no object off the list has a page in it and no release of a block of it is half done |
| `PagerLosses.StrayBlock` | kernel/generic/bootstrap/default_pager.c:2179-2180 | a run in which a partition is removed after an object has left the list and before its blocks are given back: the page refers to a partition that is gone |
| `PagerLosses.HalfReleased` | kernel/generic/bootstrap/default_pager.c:839-843 | a run in which a partition is removed between the two halves of a release: every object is on the list, none has a page, and the block about to be given back is in a partition that is gone |
| `PagerLosses.ShrunkMap` | kernel/generic/bootstrap/default_pager.c:1050-1069 | a run of two writers that both extend an object: the later extension makes it smaller, and a page is dropped with its block allocated |
| `Pager.Pager.DestroyAbort` | kernel/generic/bootstrap/default_pager.c:1624-1629 | the partition is in use again |
| `Pager.Pager.Destroy` | kernel/generic/bootstrap/default_pager.c:1543-1630 | the whole removal: which partition, when it fails, and what becomes of the pages |
| `Pager.Pager.DeallocObject` | kernel/generic/bootstrap/default_pager.c:1171-1216 | exactly the blocks of the object are unallocated |
| `Pager.Pager.ListDelete` | kernel/generic/bootstrap/default_pager.c:1529-1536 | the object leaves the list with the blocks it has, and ownership stays exact |
| `Pager.Pager.Balance` | kernel/generic/bootstrap/default_pager.c:525-559 | total size less free, over all partitions, equals the pages counted over all objects and the releases half done |
| `PagerLosses.LostWrite` | kernel/generic/bootstrap/default_pager.c:1393-1417 | a run in which a scan moves the page between the lookup and the transfer of a write: whatever the data, the page still holds the zeros it held before |
| `PagerLosses.WrongPage` | kernel/generic/bootstrap/default_pager.c:1393-1417 | a run in which the partition of a block that a write has looked up is removed and another takes its place: the write changes the page of another object |
| `PageStore.WriteLandsIff` | kernel/generic/bootstrap/default_pager.c:1393-1417 | a transfer to a block leaves the page holding the data, whatever the data, if and only if the page is still in that block |
| `PageStore.PageStays` | kernel/generic/bootstrap/default_pager.c:371-376 | while a request waits between its steps its page is there and where it was, unless a scan moves it out of the departing partition |
| `PageStore.GoodNext` | kernel/generic/bootstrap/default_pager.c:1292-1630 | every step keeps pending requests on pages that are there, each on its own, with blocks that exist, and every block half given back with the one request that is about to give it back |
| `PageStore.LooksUp` | kernel/generic/bootstrap/default_pager.c:1315-1394 | a request that has a block has the one its page is in when it gets it |
| `PageStore.Write` | kernel/generic/bootstrap/default_pager.c:1379-1434 | in every run: if no scan moves the page between the lookup and the transfer of a write, the page holds the data and no other page has changed; if just one does, the page has not changed |
| `PageStore.Read` | kernel/generic/bootstrap/default_pager.c:1292-1376 | in every run: if no scan moves the page between the lookup and the transfer of a read, the reply is the page |
| `PageStore.ReadAcrossScans` | kernel/generic/bootstrap/default_pager.c:1315-1328 | in every run: scans between the lookup and the transfer of a read do no harm, however many and with whatever other steps, while no transfer is aimed at the block, no scan is of another partition and the partition is there: the block the page has left still holds it |
| `PageStore.ReadReleases` | kernel/generic/bootstrap/default_pager.c:1356-1359 | in every run: a read for writing that is over and has not failed has released its page, and a read that is not for writing never does |
| `PageStore.ReadsLastWrite` | kernel/generic/bootstrap/default_pager.c:1292-1434 | in every run: a read returns the last write to the page, if no scan comes between the halves of either and nothing in between aims at the page's block, releases it or moves it through a partition with small blocks |
| `PagerRuns.ViewSane` | kernel/generic/bootstrap/default_pager.c:277-365 | exact ownership, as seen from outside: pages are in blocks that exist, no two in the same one |
| `PagerRuns.Scan` | kernel/generic/bootstrap/default_pager.c:1581-1610 | the scan of one object moves only its pages and only out of the departing partition, keeps the bytes of those it does not move and of those moved between partitions with large blocks, and fails only when no other partition has room |
| `PagerRuns.EndScan` | kernel/generic/bootstrap/default_pager.c:1613-1622 | the partition is gone; the state is valid if and only if no object off the list had a page in it and no release of a block of it was half done |
| `PagerRuns.Step` | kernel/generic/bootstrap/default_pager.c:1292-1630 | one step of any request, of a removal or of an object's end gets a reply that PageStore allows: a lookup fails if and only if the page is absent and no partition has room, a removal is refused only while another is under way and fails only if no partition has that name; exact ownership stays unless a removal leaves a page or a half-done release behind, or an extension drops a page |
| `PagerRuns.Run` | kernel/generic/bootstrap/default_pager.c:1292-1630 | in every run, with lookups, extensions, transfers, both halves of releases, scans, new partitions and ends of objects in any order and blocks of any size: every step is one that PageStore allows, every allocated block has exactly one owner, a page or a half-done release, and blocks in use equal pages in place and half-done releases, up to the first removal that leaves one of them behind, extension that makes an object smaller, or transfer to a partition that is gone; ownership is lost exactly by such a removal, or by such an extension that drops a page |
| `Seqno.StepKeeps` | kernel/generic/bootstrap/default_pager.c:1633-1770 | every step of every handler keeps the protocol invariant |
| `Seqno.Reachable` | kernel/generic/bootstrap/default_pager.c:1653-1748 | the invariant holds after every interleaving |
| `Seqno.AdmittedInOrder` | kernel/generic/bootstrap/default_pager.c:1653-1674 | requests are admitted once each in the order of their numbers |
| `Seqno.PortsMatch` | kernel/generic/bootstrap/default_pager.c:2030-2031 | init always finds no request port and every other request finds one, so the panics are not reached |
| `Seqno.ReadsFollowWrites` | kernel/generic/bootstrap/default_pager.c:2236-2246 | a data_request has started only if every earlier data_write and data_initialize has finished |
| `Seqno.TerminateClears` | kernel/generic/bootstrap/default_pager.c:2077-2125 | when terminate clears the ports no read or write is in progress, and the references it returns together with those returned before are exactly those granted since init or create |
| `Seqno.GivesBackIff` | kernel/generic/bootstrap/default_pager.c:1867-1900 | a read or write that is admitted gives references back if and only if 10000 are held, and then all of those |
| `Seqno.NoDeadlock` | kernel/generic/bootstrap/default_pager.c:1653-1748 | in every reachable state with an unfinished request some handler, or the making of name references, can go on; no wake-up is lost |
| `Seqno.RunsEnd` | kernel/generic/bootstrap/default_pager.c:1653-1748 | every run of handler steps is no longer than a bound computed from the state |
| `Seqno.MaximalRunsFinish` | kernel/generic/bootstrap/default_pager.c:2083-2097 | when no handler can go on every received request is finished |
| `SeqnoPages.JReachable` | kernel/generic/bootstrap/default_pager.c:2236-2421 | with the moments added at which writes take effect, pages are read, and reads for writing release their page: in every interleaving each effect comes once, no effect of a request comes after one of a request that has waited for it, and when a data_request reads, every earlier data_write has taken effect |
| `SeqnoPages.SafeReturns` | kernel/generic/bootstrap/default_pager.c:2236-2421 | if the condition of ReturnsLastIff holds, a data_request returns the last data_write to its page before it, in every interleaving |
| `SeqnoReads.ReturnsLastIff` | kernel/generic/bootstrap/default_pager.c:2236-2421 | for every list of requests: a data_request returns the last data_write to its page before it in every interleaving if and only if every earlier write to the page has a read or terminate between it and that one, every later write to the page has a terminate between the data_request and it, and no data_request for writing of the page comes between the two, before the write without a terminate between, or after the data_request without a terminate between |
| `SeqnoReads.ReturnsNothingIff` | kernel/generic/bootstrap/default_pager.c:2236-2421 | with no earlier write to its page it finds nothing in every interleaving if and only if every later write to the page has a terminate between the data_request and it |
| `SeqnoReads.UnsafeMisses` | kernel/generic/bootstrap/default_pager.c:2236-2421 | whenever the condition fails, an interleaving in which the data_request is made and does not return that write |
| `SeqnoReads.SomeRunReads` | kernel/generic/bootstrap/default_pager.c:2236-2421 | every data_request is made in some interleaving, and one after another requests return what they would in turn |
| `Kalloc.ClassOf` | kernel/generic/bootstrap/kalloc.c:185-193 | the least list whose blocks are large enough |
| `Kalloc.ClassUnique` | kernel/generic/bootstrap/kalloc.c:230-237 | kalloc and kfree use the same list for the same size |
| `Kalloc.Allocator.constructor` | kernel/generic/bootstrap/kalloc.c:77-104 | nothing mapped, all lists empty |
| `Kalloc.Allocator.Pop` | kernel/generic/bootstrap/kalloc.c:200-206 | the first block of the list becomes live; the list continues through memory |
| `Kalloc.Allocator.Push` | kernel/generic/bootstrap/kalloc.c:239-246 | the block becomes the first of its list; the other lists are untouched |
| `Kalloc.Allocator.UserWrite` | kernel/generic/bootstrap/kalloc.c:239-242 | writing to a live block never damages a free list, and changes that word and no other |
| `Kalloc.Allocator.GetSpace` | kernel/generic/bootstrap/kalloc.c:115-128 | a block cut off the space, or none when it is too small |
| `Kalloc.Allocator.GetMapped` | kernel/generic/bootstrap/kalloc.c:115-166 | after another thread may have run: the region is joined, replaces the space, or is not needed; pieces stay disjoint |
| `Kalloc.Allocator.Unmap` | kernel/generic/bootstrap/kalloc.c:166-167 | the region is gone and accounted for |
| `Kalloc.Allocator.Kalloc` | kernel/generic/bootstrap/kalloc.c:172-220 | a live block of the rounded size apart from every other piece; no other live block changes; nothing only when the kernel refuses memory; a freed block is reused first |
| `Kalloc.Allocator.Kfree` | kernel/generic/bootstrap/kalloc.c:223-251 | the block is first on the list it would be taken from, or unmapped when large; no memory changes but its first word |
| `Kalloc.Allocator.Recycle` | kernel/generic/bootstrap/kalloc.c:172-251 | kfree and then kalloc of the same small size returns the same block |
| `Kalloc.Conservation` | kernel/generic/bootstrap/kalloc.c:109-170 | bytes mapped are live, free, wasted, left in the space or mapped and not yet joined, also when regions are not contiguous |
| `KallocRuns.System.Second` | kernel/generic/bootstrap/kalloc.c:115-170 | under the second lock of kget_space: the block is apart from all that is in use, and the region of this thread, and of no other, is joined, replaces the space or is left over |
| `KallocRuns.System.Step` | kernel/generic/bootstrap/kalloc.c:109-251 | any step of any thread hands out the first block of its free list, the next of the space or the memory mapped, with the size asked for, or nothing when there is none, and puts the thread where the code goes on; it keeps blocks disjoint, memory accounted for, each region with its thread, the blocks and threads it does not concern, and what is in every block handed out, but where its owner writes |
| `KallocRuns.System.HeldApart` | kernel/generic/bootstrap/kalloc.c:172-220 | blocks handed out and not returned do not overlap |
| `KallocRuns.Run` | kernel/generic/bootstrap/kalloc.c:109-251 | every interleaving of any number of threads: blocks handed out are disjoint, what an owner last wrote to a block is there until it returns the block, bytes mapped are live, free, wasted, left or in the hands of a thread, and nothing is when all threads are outside |
| `Ext2.Spans` | kernel/generic/bootstrap/ext2_file_io.c:488-497 | the spans are N, N^2 and N^3 and fit in 32 bits for blocks up to 4096 bytes |
| `Ext2.PathsDistinct` | kernel/generic/bootstrap/ext2_file_io.c:139-163 | the path of a file block leads back to that block, so distinct blocks have distinct paths |
| `Ext2.PathBelow` | kernel/generic/bootstrap/ext2_file_io.c:261-266 | every index on a path is below N |
| `Ext2.File.LevelOf` | kernel/generic/bootstrap/ext2_file_io.c:174-191 | the level and the rest of the block number, or past 12 + N + N^2 + N^3 |
| `Ext2.File.IndexBlock` | kernel/generic/bootstrap/ext2_file_io.c:209-259 | the contents of the index block on the disk, from the cache or the device |
| `Ext2.File.BlockMap` | kernel/generic/bootstrap/ext2_file_io.c:125-285 | what an uncached walk of the inode tree finds, for every file block, any history of lookups and any lookups by others while the lock is dropped; 0 for holes |
| `Ext2Tables.WordBack` | kernel/generic/bootstrap/ext2_file_io.c:268-268 | entry i of an index block that holds a table of 32-bit numbers, least byte first, is entry i of the table |
| `Ext2Tables.DiskBlock` | kernel/generic/bootstrap/ext2_file_io.c:223-230 | on a device made of blocks, block b is the b-th |
| `Ext2Tables.WalkDirect` | kernel/generic/bootstrap/ext2_file_io.c:160-191 | the first 12 blocks are those of the inode, and there is none from 12 + N + N^2 + N^3 on |
| `Ext2Tables.WalkSingle` | kernel/generic/bootstrap/ext2_file_io.c:195-282 | where the index blocks of a device hold tables, block 12 + i is entry i of the table of the single index block |
| `Ext2Tables.WalkDouble` | kernel/generic/bootstrap/ext2_file_io.c:195-282 | block 12 + N + iN + j is entry j of the table that entry i of the double one leads to |
| `Ext2Tables.WalkTriple` | kernel/generic/bootstrap/ext2_file_io.c:195-282 | and so with i, j and k under the triple one; a hole on the way is a hole |
| `Ext2Tables.FollowMissing` | kernel/generic/bootstrap/ext2_file_io.c:223-232 | an index block that is not on the device is an error |
| `Ext2Tables.FileByte` | kernel/generic/bootstrap/ext2_file_io.c:292-361 | a byte of the file is that of the block of the device its block is found at, or zero in a hole, and can be read if and only if there is such a block |
| `Ext2.File.BufRead` | kernel/generic/bootstrap/ext2_file_io.c:292-361 | the rest of the block up to the end of the file, if and only if the file has the byte and the buffer taken to hold it has not been given back; afterwards the buffer is in order exactly if the read succeeded, or it was before and the device did not fail on a data block, or it was empty |
| `Ext2.File.ReadFile` | kernel/generic/bootstrap/ext2_file_io.c:788-821 | the bytes of the file; succeeds exactly when all bytes asked for are copied; otherwise it begins with a buffer that has been given back, or has copied the bytes before the first that is not there |
| `Ext2.File.LoadBuf` | kernel/generic/bootstrap/ext2_file_io.c:313-343 | exactly when the buffer is in order after a load, and exactly when freed storage is taken for the block |
| `Ext2.FreedRead` | kernel/generic/bootstrap/ext2_file_io.c:313-343 | three reads of a file on a device that lacks its second block: the first succeeds, the second fails, and the third succeeds with storage that has been given back |
| `Ext2.File.AddFileDirect` | kernel/generic/bootstrap/ext2_file_io.c:886-968 | the array grows by the whole blocks of the file where the lookup finds them, or stays as it was |
| `Ext2.File.DirectAgrees` | kernel/generic/bootstrap/ext2_file_io.c:936-963 | every byte of a whole block of the file reads the same through the array, wherever in it the file was added, as through the index blocks, except that a hole reads as zeros there and is refused by the array; a last block that is not whole is not in the array |
| `FileDirect.SectorStart` | kernel/generic/bootstrap/ext2_file_io.c:988-994 | the sector computed from block and offset starts at the byte meant |
| `FileDirect.Direct.PieceOnDevice` | kernel/generic/bootstrap/ext2_file_io.c:1002-1040 | a piece within one block is at its place in that block on the device |
| `FileDirect.Direct.WriteOnDevice` | kernel/generic/bootstrap/ext2_file_io.c:1047-1095 | writing such a piece changes that part of the file and nothing else of it, for arrays without repeated blocks |
| `FileDirect.PageRead` | kernel/generic/bootstrap/ext2_file_io.c:1002-1040 | errors exactly outside the file, at holes and past the device; the bytes of the file when the piece stays in its block, also for arrays with repeated blocks |
| `FileDirect.PageWrite` | kernel/generic/bootstrap/ext2_file_io.c:1047-1095 | likewise for writing; for arrays without repeated blocks the file is changed there and nowhere else |
| `Ext2Tables.DirectContents` | kernel/generic/bootstrap/ext2_file_io.c:1002-1040 | what is paged through an array is the blocks of the device it lists, one after another |
| `StrFcns.Ovbcopy` | kernel/generic/bootstrap/strfcns.c:81-97 | the whole range arrives whichever way the ranges overlap, and nothing else changes |
| `StrFcns.StrPrefix` | kernel/generic/bootstrap/strfcns.c:65-75 | true exactly for a prefix |
| `PathWalk.SearchDirectory` | kernel/generic/bootstrap/ext2_file_io.c:368-404 | the first record in use with the name; ends because record lengths are positive |
| `PathWalk.Component` | kernel/generic/bootstrap/ext2_file_io.c:593-614 | the next component, or the first fault in it |
| `PathWalk.TooLongIff` | kernel/generic/bootstrap/ext2_file_io.c:600-610 | a component is refused as too long if and only if it has more than 256 bytes and none of the first 256 is outside ASCII |
| `PathWalk.SpliceLink` | kernel/generic/bootstrap/ext2_file_io.c:640-680 | the buffer holds the text of the link followed by the unread path |
| `PathWalk.AfterLink` | kernel/generic/bootstrap/ext2_file_io.c:682-732 | the walk goes on at the directory of the link, the root, or the root of the named device |
| `PathWalk.Step` | kernel/generic/bootstrap/ext2_file_io.c:585-734 | one component refines one step of the meaning of paths, with fewer links left or a shorter path |
| `PathWalk.OpenFile` | kernel/generic/bootstrap/ext2_file_io.c:521-749 | ends on every directory graph, also with cycles of links, and opens exactly what the path means |
| `PathMeaning.FindFirst` | kernel/generic/bootstrap/ext2_file_io.c:388-400 | the search finds the inode of the first record in use with the name |
| `PathMeaning.OpenLeads` | kernel/generic/bootstrap/ext2_file_io.c:585-749 | a path whose components lead from the root of its device to an inode by directory records, without a link and with any number of separators between them, opens that inode |
| `PathMeaning.ResolveLink` | kernel/generic/bootstrap/ext2_file_io.c:640-732 | a component that is a link is opened as the text of the link and the rest of the path, from the directory of the link, the root or the root of the device it names, with one link fewer to follow; too long a name and too many links fail |
| `PathMeaning.ThroughLink` | kernel/generic/bootstrap/ext2_file_io.c:640-732 | so the rest is opened from where the components of the text lead |
| `PathMeaning.OpenTravels` | kernel/generic/bootstrap/ext2_file_io.c:521-749 | a path with up to eight links, relative, absolute or to other devices, opens the inode that its components and those of its links lead to |
| `PathMeaning.ResolveFails` | kernel/generic/bootstrap/ext2_file_io.c:586-632 | a component under a file that is not a directory, with no record in use, or whose inode cannot be read, fails with that error |
| `PathMeaning.ResolveBadName` | kernel/generic/bootstrap/ext2_file_io.c:593-614 | a component that is too long or not ASCII fails with the error that comes first |
| `PathMeaning.DeviceFails` | kernel/generic/bootstrap/ext2_file_io.c:541-580 | so do a device that is not there, one without a file system and one without a root |

## Left out

- Ports, messages, thread creation and wiring: kernel calls that are not part of these files. Requests
  of the pager protocol are numbered from 0 and sent as the kernel does: init to an object without a
  request port, everything else to one with.
- Device errors in the pager: `device_read` and `device_write` succeed on the sectors a partition has.
  Each partition has a device of its own.
- The pieces of one transfer, and the moves of one scan of an object, are not interleaved with other steps;
  the locks of partitions and objects, and `p_lock` after a failed removal, are not modelled. There is one
  removal at a time.
- What happens after a transfer to a partition that is gone, a removal that leaves blocks in use, or an
  extension that makes an object smaller: the code then uses freed memory or writes past a map, and the
  runs end there.
- A transfer to a block past the end of the partition that has taken the place of its own is taken to fail.
- Pager.Pager.DefaultRead: stated for pages within the object; the code panics past its size.
- Pager.Pager.ClearSlot: stated for pages that have a block; the code does not check.
- Pager.Pager.AddPartition: stated for fewer than 255 partitions, as index 255 means none, and for
  files without holes or repeated blocks.
- PageMap.Dpager.Extend: the entries copied past the end of a smaller map have no effect on other memory.
- PagerRuns.Run: requests that conflict on a page, or for an object that has ended, are refused.
- SeqnoReads.ReturnsLastIff: a write is a data_write for one page, which succeeds; data_initialize, which
  leaves pages alone that are there already, is not distinguished. The lookup and the transfer of a request
  are one moment, and no partition is removed.
- PageStore.Write: nothing is said when two or more scans move the page; two moves may bring it back.
- Pager.Pager.DeallocObject: the model also empties the entries of the map that is about to be freed.
- FileDirect.PageRead: bytes past the end of a block are those that follow on the device, which need not
  be in the file; the pager never asks for such a piece, by Partition.PieceFits.
- Inflate.Inflater.Inflate: success is promised when 33 bits follow the last block, as look-ahead may ask
  for bytes beyond it; a gzip member has eight bytes there.
- Inflate.Inflater.CopyPiece: `memcpy` is taken to read its source as it was, also where the source lies
  ahead of the target and overlaps it.
- Kalloc.Allocator.Kfree: stated for live blocks freed with the size they were allocated for.
- Ext2.File.LoadBuf: freeing the buffer a second time, after a failed read, has no effect on other memory.
- KallocRuns.System.Kfree: a thread frees only blocks it was handed, with the size it asked for.
- Ext2.File.BlockMap: block numbers are unbounded naturals, so none is equal to the mark of an empty cache.
- PathWalk.OpenFile: a directory is its list of records, of positive length; names and link texts hold no
  zero byte; the path fits in the buffer. A component is not ended by a zero byte while it is looked up.
- `pager_pages`, the statistics and overcommit warnings of the pager, and its CHECKSUM, non-parallel and
  debugging builds: bookkeeping without further structure.
- The no-senders notification, which is the last request of an object, in Seqno; its effect on blocks is
  Pager.Pager.DeallocObject.
- `flush_first` and `flush_rest`: they depend on the layout of boot modules.
- Reading superblocks, group descriptors and inodes: field extraction.
- `ffs_file_io.c` and `minix_file_io.c`: near copies of the ext2 code.
- `huft_free`, `strbuild`, `index`: one-loop helpers.
