# xdelta3 and wide multiplication: a verified model

This project models the delta engine that `packages/xdelta3_ffi` carries (xdelta3, the VCDIFF format of RFC 3284) and
the wide multiplication and division of `packages/chdman_ffi`, and proves what they are for.

* **Merging deltas** (`WholeDelta`, `Merge`, `Flatten`). A whole-file delta is a list of runs, literals and copies
  with a meaning over the original file and the target so far. Merging two deltas gives one that means their
  composition; flattening the windows of a file gives a list that means the concatenation of the windows.
* **Windows** (`Integers`, `AddressCache`, `CodeTable`, `BlockedSource`, `WindowFormat`, `WindowDecoder`,
  `WindowWrap`, `WindowEncoder`, `Overlaps`, `InstructionBuffer`, `FlushOverlap`, `WindowSender`).
  `WindowFormat.DecodeWindow` says what the three sections of a window mean. The decoder with its cursors and source
  blocks computes it, also when it has to come back for a block at any copy and is called again later. The encoder,
  with its buffer of overlapping matches, its address cache and its codes chosen one instruction behind, produces
  sections that mean the window it was given, and sends the compacted matches and the gaps between them, no more.
* **Finding matches** (`SourceWindow`, `RunScan`, `RollingHash`). Whatever the hash tables hold, the copies and runs
  found are true, and every source copy lies in the source window, even one fixed in the middle of the search.
* **Files** (`StreamFormat`, `StreamDecoder`, `StreamEncoder`, `StreamChecks`, `AnyInput`, `Examples`). The file
  format is a machine that takes one byte at a time. The resumable decoder is that machine whatever the chunks of its
  input and whenever the blocks of its source arrive, and it turns a file made of headers and windows back into what
  went in. `AnyInput.WindowExactly` says which windows it puts out, whatever they hold: those that are right, and no
  others.
* **Secondary compression** (`BitStream`, `CanonicalCode`, `HuffmanTables`, `MtfRuns`, `MtfCoder`, `PrefixHeap`,
  `PrefixTree`, `PrefixCost`, `PrefixBuilder`, `PrefixDepth`, `GroupTables`, `HuffSection`, `HuffCoder`,
  `HuffExample`, `SecondarySection`). Length-limited Huffman codes that cost least, for weights halved as often as the
  limit asks for, their tables, and their lengths sent as move-to-front codes with runs in bijective base two, up to
  the round trip of a section with one group of codes, and when the encoder sends one.
* **Adaptive Huffman coding** (`FgkTree`, `FgkOrder`, `FgkMove`, `FgkRise`, `FgkClimb`, `FgkEnter`, `FgkPlant`,
  `FgkGrow`, `FgkInit`, `FgkCodec`, `FgkFirst`, `FgkReach`, `FgkExample`, `FgkStream`, `FgkSection`, `FgkMissed`).
  `FgkOrder.Inv` says when the tree is in order: nodes sorted by weight, blocks of equal weight with their leaders,
  sums, family links, and the list of unseen symbols. It holds from the start and after every update of every symbol;
  the climb to the root never meets a bad pointer and never ends early; encoder and decoder stay in lockstep; the
  coder that works in place computes just that.
* **Caches and arithmetic** (`LinkedRing`, `BlockCache`, `Adler`, `MulDiv`, `WideMul`), and what the others share
  (`Bytes`, `Results`, `Arithmetic`, `Sequences`).

A method that changes state is tied by its contract to a function of the old state; the lemmas are about those
functions. What encoder and decoder share is also said without either: the values of numbers, addresses, code lengths,
bits and checksums are stated in figures, and some deltas are written out byte by byte (`Examples`, `HuffExample`,
`FgkExample`). `hide` keeps definitions out of proofs that do not need them.

Where the code does not do what its comments or its own asserts say, the model follows the code, and a lemma shows it:

* A flush of the instruction buffer without force can be left with two matches that still overlap. The first of them
  is encoded before the check for two remaining ones, so the second then starts before what has been encoded
  (`FlushOverlap.OverlapIsReached` gets there). `InstructionBuffer.Buffer.Flush` says exactly when that happens, and
  how to tell from the matches: never if the last one begins behind the one before it, always if all begin inside the
  first.
* Code lengths written across several groups are only read back when the groups are zero in the same places
  (`MtfRuns.RoundTripIffSharedZeros`, `GroupTables.TwoGroupsComeBack`). The encoder gives every symbol that occurs a
  weight in every group, but `djw_build_prefix` adds codes for all others when it has to rescale, so two groups come
  back exactly if both or neither were rescaled, or no symbol is left over (`GroupTables.BuildTwoGroups`).
  `GroupTables.DifferentZerosAreLost` builds two groups that do not come back.
* The adaptive coder's tree lives on from section to section, and the encoder counts a section also when it then
  decides not to send it compressed. Encoder and decoder agree exactly while no such section had a byte in it
  (`FgkSection.TreesAgree`). Every first section of ten to 127 different bytes is such a one, and some byte after it
  is lost (`FgkMissed.DeclinedIsMissed`).
* The search for the best address mode stops early on a 32-bit mask, so with 64-bit addresses it can stop at a
  distance of 2^32 and write five bytes where one would do (`AddressCache.StopsTooEarly`).
  `AddressCache.ShortestExactly` says for which addresses what is written is always the shortest: those below 2^32,
  and some next to 2^64.
* Once all symbols have been seen, promoting the leftmost node of the adaptive tree does nothing, since both its left
  neighbour and the head of the empty list are null (`xdelta3-fgk.h:380-382`). It keeps a block to itself when it
  comes to weigh as much as its neighbour, and then more (`FgkFirst.PartingIsReached`); `FgkFirst.PartsExactly` says
  which promotions do that. `FgkOrder.First` allows for it, and everything else still holds.

## Model

| member | source | states |
|---|---|---|
| `WholeDelta.ApplyExplains` | packages/xdelta3_ffi/src/xdelta/xdelta3-merge.h:352-428 | for every well-formed list and every original file, each instruction gives every byte of its range of the result: the literal, the run byte, the original byte, or the byte of the result it copies |
| `WholeDelta.ExplainedIsApply` | packages/xdelta3_ffi/src/xdelta/xdelta3-merge.h:352-428 | the converse: a list that tiles the target and is right about every byte of it yields exactly that target when executed, overlapping copies included |
| `WholeDelta.StepExplains` | packages/xdelta3_ffi/src/xdelta/xdelta3-merge.h:352-428 | executing one instruction produces the bytes it claims, byte by byte even where a copy reads what it has just written |
| `Merge.WholeState.AppendInst` | packages/xdelta3_ffi/src/xdelta/xdelta3-merge.h:89-108 | appending an instruction that is right about the target keeps the list tiling and right about every byte so far |
| `Merge.WholeState.FindPosition` | packages/xdelta3_ffi/src/xdelta/xdelta3-merge.h:290-327 | the binary search returns the instruction whose output contains the address, for every address below the end, and refuses every other |
| `Merge.WholeState.MergeSourceCopy` | packages/xdelta3_ffi/src/xdelta/xdelta3-merge.h:329-432 | a copy from the output of the first delta is replaced by pieces that read the original file or literals and give the same bytes; the recursion ends because address plus size falls, also through self-overlapping copies |
| `Merge.WholeState.MergePiece` | packages/xdelta3_ffi/src/xdelta/xdelta3-merge.h:352-428 | one piece of such a copy, inside one instruction of the first delta, is merged correctly whatever that instruction is |
| `Merge.PieceExplained` | packages/xdelta3_ffi/src/xdelta/xdelta3-merge.h:374-397 | the run, literals or original bytes put in place of a piece are the bytes the piece stood for |
| `Merge.CopyReadsEarlier` | packages/xdelta3_ffi/src/xdelta/xdelta3-merge.h:398-421 | bytes made by a target copy of the first delta are also found where that copy read them, strictly earlier |
| `Merge.WholeState.MergeRun` | packages/xdelta3_ffi/src/xdelta/xdelta3-merge.h:224-247 | a run moves over with its byte, and the list stays right about the target |
| `Merge.WholeState.MergeAdd` | packages/xdelta3_ffi/src/xdelta/xdelta3-merge.h:249-274 | literals move over unchanged, and the list stays right about the target |
| `Merge.WholeState.MergeTargetCopy` | packages/xdelta3_ffi/src/xdelta/xdelta3-merge.h:276-288 | a target copy moves over unchanged, and the list stays right about the target |
| `Merge.WholeState.MergeInst` | packages/xdelta3_ffi/src/xdelta/xdelta3-merge.h:454-476 | one instruction of the second delta is merged, or refused exactly when it copies from an earlier target window or from outside the first output |
| `Merge.WholeState.MergeInputs` | packages/xdelta3_ffi/src/xdelta/xdelta3-merge.h:436-480 | for every original file: merging succeeds exactly when every copy of the second delta starts inside the first output and none reads a target window; then the merged list tiles the target and running it equals running one delta after the other |
| `Flatten.DenotesIsApply` | packages/xdelta3_ffi/src/xdelta/xdelta3-merge.h:125-171 | a flattened list, with empty instructions or without, is a well-formed delta whose application is the target it stands for |
| `Flatten.EnteredSteps` | packages/xdelta3_ffi/src/xdelta/xdelta3-merge.h:125-171 | the absolute address entered for a half-instruction makes it do to the whole target what the half-instruction does in its window |
| `Flatten.AppendInst` | packages/xdelta3_ffi/src/xdelta/xdelta3-merge.h:125-171 | one parsed instruction is appended with its literals, and the list then denotes the target extended by that instruction |
| `Flatten.AppendOpcode` | packages/xdelta3_ffi/src/xdelta/xdelta3-merge.h:185-199 | both halves of an opcode are appended in order |
| `Flatten.AppendWindow` | packages/xdelta3_ffi/src/xdelta/xdelta3-merge.h:173-202 | a window that decodes to some bytes, whatever the sizes of its instructions, extends the target the list denotes by exactly those bytes; its record, with where it starts, its length and the checksum it came with, goes behind the others |
| `Flatten.FlattenFile` | packages/xdelta3_ffi/src/xdelta/xdelta3-merge.h:173-202 | for every file whose windows decode, empty instructions included: the list is well formed and applying it to the original file gives the windows' results one after another; the records say of every window where in the target it starts, how long it is and its checksum |
| `Integers.ReadEmitted` | packages/xdelta3_ffi/src/xdelta/xdelta3-internal.h:165-212 | reading back an emitted base-128 integer gives the number and leaves what follows, for every 64-bit number |
| `Integers.ReadIgnoresTail` | packages/xdelta3_ffi/src/xdelta/xdelta3-internal.h:165-188 | a number that can be read is read the same with more bytes behind it |
| `Integers.EmittedLength` | packages/xdelta3_ffi/src/xdelta/xdelta3-internal.h:240-252 | the size function gives the number of bytes emitted, for every 64-bit number |
| `Integers.EmittedDigits` | packages/xdelta3_ffi/src/xdelta/xdelta3-internal.h:190-212 | counted from the end, byte i is digit i to the base of 128, plus 128 on all but the last byte, and there is no leading zero |
| `Integers.ReadsPastZeros` | packages/xdelta3_ffi/src/xdelta/xdelta3-internal.h:165-188 | a leading zero digit, which the encoder never writes, is read past |
| `Integers.ReadInteger` | packages/xdelta3_ffi/src/xdelta/xdelta3-internal.h:165-188 | the reading loop: value and rest, end of input, or overflow by the top seven bits |
| `Integers.EmitInteger` | packages/xdelta3_ffi/src/xdelta/xdelta3-internal.h:190-212 | the emitting loop fills its ten-byte buffer from the back with the digits that read back as the number |
| `AddressCache.DistanceReadBack` | packages/xdelta3_ffi/src/xdelta/xdelta3.c:1209-1317 | an address coded as a wrapped distance is recovered from the same base, for every 64-bit address and base |
| `AddressCache.SameHit` | packages/xdelta3_ffi/src/xdelta/xdelta3.c:1255-1264 | an address found in the SAME cache is recovered from its mode and one byte |
| `AddressCache.DecodeIgnoresTail` | packages/xdelta3_ffi/src/xdelta/xdelta3.c:1280-1317 | decoding an address does not look beyond its bytes |
| `AddressCache.AddrCache.Init` | packages/xdelta3_ffi/src/xdelta/xdelta3.c:1185-1194 | both caches are cleared |
| `AddressCache.AddrCache.Update` | packages/xdelta3_ffi/src/xdelta/xdelta3.c:1196-1205 | an address enters the NEAR slot whose turn it is and its SAME slot, and the next NEAR slot has its turn |
| `AddressCache.NearHolds` | packages/xdelta3_ffi/src/xdelta/xdelta3.c:1196-1205 | after any sequence of addresses into empty caches the next NEAR slot is their number modulo the number of slots, the last addresses, as many as there are slots, stand in the slots of their ordinals modulo that number, and the slots not yet reached hold 0 |
| `AddressCache.SameHolds` | packages/xdelta3_ffi/src/xdelta/xdelta3.c:1196-1205 | after any sequence of addresses each SAME slot holds the last address congruent to its number modulo 256 times the modes, or 0 if there was none |
| `AddressCache.ModeMeans` | packages/xdelta3_ffi/src/xdelta/xdelta3.c:1280-1317 | mode 0 is the number read, mode 1 the position minus it, mode 2 + j that number counted from NEAR slot j, all modulo 2^64; the address read enters the caches |
| `AddressCache.SameMeans` | packages/xdelta3_ffi/src/xdelta/xdelta3.c:1280-1317 | one byte in the SAME modes picks the slot 256 times the mode's place plus the byte |
| `AddressCache.NearMode` | packages/xdelta3_ffi/src/xdelta/xdelta3.c:1196-1317 | after any sequence of addresses, a number read in the NEAR mode of an ordinal still held counts from just that address |
| `AddressCache.SameMode` | packages/xdelta3_ffi/src/xdelta/xdelta3.c:1196-1317 | after any sequence of addresses, the SAME mode and byte of an address are decoded to it as long as no later one took its slot |
| `AddressCache.AddrCache.BestDistance` | packages/xdelta3_ffi/src/xdelta/xdelta3.c:1216-1253 | the mode and distance are those of the search written as a function; the mode chosen denotes the address; unless the search stopped early no mode that counts from a point denotes it by a smaller distance, and it stops early only when bits 7 to 31 of the distance are clear |
| `AddressCache.AddrCache.EncodeAddress` | packages/xdelta3_ffi/src/xdelta/xdelta3.c:1209-1277 | for every address below the position: decoding the mode and bytes written, before any further bytes, gives the address and a cache equal to the encoder's; and for addresses below 2^32 no mode would have taken fewer bytes |
| `AddressCache.BestMeans` | packages/xdelta3_ffi/src/xdelta/xdelta3.c:1216-1253 | the search function, whose early exits are those of the code, denotes the address, goes no further than SELF and HERE, and is the smallest unless it stopped on clear bits 7 to 31 |
| `AddressCache.StopsTooEarly` | packages/xdelta3_ffi/src/xdelta/xdelta3.c:1216-1253 | an address from 2^32 on whose bits 7 to 31 are clear, or any such address written exactly 2^32 behind itself, takes five bytes or more although a NEAR slot holds it: the mask is 32 bits wide |
| `AddressCache.ShortestExactly` | packages/xdelta3_ffi/src/xdelta/xdelta3.c:1216-1269 | the bytes the encoder writes for an address are the fewest of all modes for every cache with a NEAR slot and every position exactly when the address is below 2^32, or its bits 7 to 31 are not all clear and no position lies 2^32 behind it |
| `AddressCache.AddressesReadBack` | packages/xdelta3_ffi/src/xdelta/xdelta3.c:1209-1319 | encoder and decoder in lockstep: any sequence of addresses, each at its position, comes back from the modes and the joined bytes, with equal caches and nothing left over |
| `AddressCache.AddrCache.Decode` | packages/xdelta3_ffi/src/xdelta/xdelta3.c:1280-1317 | the decoder's method computes the decoding function on its cache and input, errors included |
| `CodeTable.FillSingles` | packages/xdelta3_ffi/src/xdelta/xdelta3.c:833-851 | the first 163 entries: RUN, ADD and COPY with and without sizes |
| `CodeTable.BuildCodeTable` | packages/xdelta3_ffi/src/xdelta/xdelta3.c:828-882 | the loops fill the default table of section 5.6 of RFC 3284, all 256 entries |
| `CodeTable.SingleRows` | packages/xdelta3_ffi/src/xdelta/xdelta3.c:833-851 | the table's rows with one instruction by the numbers of their codes: 0 RUN, 1 + n ADD n, 19 + 16m COPY in mode m with its size behind it, 16 + 16m + n COPY n |
| `CodeTable.AddCopyRows` | packages/xdelta3_ffi/src/xdelta/xdelta3.c:852-866 | the rows ADD with COPY: 156 + 12m + 3a + c in modes 0 to 5, 210 + 4m + a in modes 6 to 8 |
| `CodeTable.CopyAddRows` | packages/xdelta3_ffi/src/xdelta/xdelta3.c:868-880 | the rows COPY 4 with ADD 1: 247 + m |
| `CodeTable.ChooseInstruction` | packages/xdelta3_ffi/src/xdelta/xdelta3.c:898-944 | the code chosen for an instruction alone, and the code for the pair with its predecessor when there is one |
| `CodeTable.SingleAgrees` | packages/xdelta3_ffi/src/xdelta/xdelta3.c:898-944 | for every type and every size, the single code's table entry is that instruction, with the size or leaving it open |
| `CodeTable.DoubleAgrees` | packages/xdelta3_ffi/src/xdelta/xdelta3.c:898-944 | every pair code chosen has a table entry holding exactly those two instructions |
| `CodeTable.DoubleComplete` | packages/xdelta3_ffi/src/xdelta/xdelta3.c:898-944 | every two-instruction entry of the table is the one chosen for its pair |
| `BlockedSource.ReadBlocksIsSlice` | packages/xdelta3_ffi/src/xdelta/xdelta3-decode.h:416-466 | a source copy made block by block succeeds exactly when the source is long enough, or the copy is empty and starts at a block, and then gives exactly the slice, for every block size |
| `BlockedSource.SplitOffset` | packages/xdelta3_ffi/src/xdelta/xdelta3.h:1373-1396 | adding an address to an offset split in advance into block and remainder gives block and remainder of the sum |
| `WindowFormat.RunContinues` | packages/xdelta3_ffi/src/xdelta/xdelta3-decode.h:626-698 | running a window's instructions does not depend on bytes that are appended to its sections later |
| `WindowFormat.NothingLeftOver` | packages/xdelta3_ffi/src/xdelta/xdelta3-decode.h:669-683 | a window that decodes is refused with any further data or address bytes that no instruction uses |
| `Examples.NearExample` | packages/xdelta3_ffi/src/xdelta/xdelta3.c:1196-1317 | copies from 300 and 500 and one in the mode of NEAR slot 0, byte by byte: the third reads from 300, whatever the source holds |
| `Examples.RfcExample` | packages/xdelta3_ffi/src/xdelta/xdelta3-decode.h:626-698 | the example in section 3 of RFC 3284, byte by byte, with a copy that reads what it writes |
| `BlockedSource.Source.GetBlk` | packages/xdelta3_ffi/src/xdelta/xdelta3.c:1702-1750 | a block at hand is used without asking; any other is asked for, and unless the application supplies it the block at hand stays and the one wanted is noted |
| `WindowDecoder.Decoder.ReadSize` | packages/xdelta3_ffi/src/xdelta/xdelta3-decode.h:236-241 | a size the table leaves open comes from the instruction section |
| `WindowDecoder.Decoder.ReadAddress` | packages/xdelta3_ffi/src/xdelta/xdelta3-decode.h:243-258 | an address comes from the address section and enters the cache |
| `WindowDecoder.Decoder.ParseHalfInst` | packages/xdelta3_ffi/src/xdelta/xdelta3-decode.h:233-300 | size, address and all bounds checks: the result and the new cursors are those of the parsing function, or the input is refused where it refuses |
| `WindowWrap.ParsedAlike` | packages/xdelta3_ffi/src/xdelta/xdelta3-decode.h:266-299 | with sums modulo 2^64 a half-instruction is parsed as with natural numbers, or its end lies at 2^64 or beyond |
| `WindowWrap.WrappingIsRefused` | packages/xdelta3_ffi/src/xdelta/xdelta3-decode.h:233-347 | with sums modulo 2^64 and an output buffer of any size from the window's on, every window decodes to the same bytes or is refused just the same |
| `WindowDecoder.Decoder.OutputHalfInst` | packages/xdelta3_ffi/src/xdelta/xdelta3-decode.h:336-499 | a half-instruction is executed, or as much of a source copy as one block supplies, and what is left then means the same as the whole; at a block that is not there nothing has changed and the caller learns which one is missing |
| `WindowDecoder.Decoder.OutputSourceCopy` | packages/xdelta3_ffi/src/xdelta/xdelta3-decode.h:415-466 | one block's share of a source copy is appended and the rest refers to what follows it, or the block is missing and nothing happens |
| `WindowDecoder.Decoder.CopyOverlapping` | packages/xdelta3_ffi/src/xdelta/xdelta3-decode.h:467-491 | a copy within the output goes byte by byte, so that it may read what it writes |
| `WindowDecoder.Decoder.BlockOf` | packages/xdelta3_ffi/src/xdelta/xdelta3-decode.h:420-427 | block number and offset of a window address |
| `WindowDecoder.Decoder.DecodeInstruction` | packages/xdelta3_ffi/src/xdelta/xdelta3-decode.h:303-332 | both halves of an opcode are parsed before either is executed |
| `WindowDecoder.Decoder.Emit` | packages/xdelta3_ffi/src/xdelta/xdelta3-decode.h:626-698 | from any point of a window, with either half of an opcode half done: it returns the window the sections mean, or an error exactly when they mean none, or stops for a missing block with what the window will come to unchanged, nothing lost that was written, and less to do unless the block asked for before is still missing |
| `WindowDecoder.FirstAhead` | packages/xdelta3_ffi/src/xdelta/xdelta3-decode.h:642-664 | executing a piece of the first half leaves what the rest of the window means as it was |
| `WindowDecoder.Parsed` | packages/xdelta3_ffi/src/xdelta/xdelta3-decode.h:303-332 | the two halves of a parsed opcode stand for it and all that follows |
| `WindowDecoder.Decoder.EmitAll` | packages/xdelta3_ffi/src/xdelta/xdelta3-decode.h:626-698 | called again after every missing block, whatever the application answers at which call, decoding ends, and with exactly the window the sections mean, an error exactly when they mean none, or a block out of reach |
| `WindowEncoder.OverlapCopies` | packages/xdelta3_ffi/src/xdelta/xdelta3-decode.h:467-491 | a target copy whose bytes agree with the window reproduces them even when it overlaps itself |
| `WindowEncoder.CarriesLiteral` | packages/xdelta3_ffi/src/xdelta/xdelta3.c:1964-1995 | the literals or run byte written for an instruction are what the decoder needs to execute it |
| `WindowEncoder.CarriesCopy` | packages/xdelta3_ffi/src/xdelta/xdelta3.c:1905-1952 | the mode and address bytes written for a copy make the decoder produce the window's bytes, from the source window or the target |
| `WindowEncoder.SingleRuns` | packages/xdelta3_ffi/src/xdelta/xdelta3.c:2335-2355 | a single code and its size are read as that one instruction |
| `WindowEncoder.DoubleRuns` | packages/xdelta3_ffi/src/xdelta/xdelta3.c:2357-2376 | a pair code does what its two instructions do in turn, although the decoder parses both first |
| `WindowEncoder.Encoder.EmitPayload` | packages/xdelta3_ffi/src/xdelta/xdelta3.c:1905-1996 | data or address bytes of an instruction are written before its code, and are what the decoder will need; apart from the mode the instruction stays what it was |
| `WindowEncoder.Encoder.EmitSingle` | packages/xdelta3_ffi/src/xdelta/xdelta3.c:2335-2355 | code and size of one instruction |
| `WindowEncoder.Encoder.Enqueue` | packages/xdelta3_ffi/src/xdelta/xdelta3.c:2002-2028 | the new instruction shares a code with the pending one if there is one for both, and otherwise the pending one is sent alone; no instruction is lost or added, and what is written still decodes to all that was encoded |
| `WindowEncoder.Encoder.FinishEncoding` | packages/xdelta3_ffi/src/xdelta/xdelta3.c:1899-2029 | for every true instruction at the current position: it is added to the list of instructions, and what is written, plus the one pending code, decodes to the window up to its end |
| `WindowEncoder.Encoder.IoptAdd` | packages/xdelta3_ffi/src/xdelta/xdelta3.c:2034-2049 | exactly one ADD covers the gap up to a position, if there is one |
| `WindowEncoder.Encoder.AddEncoding` | packages/xdelta3_ffi/src/xdelta/xdelta3.c:2054-2067 | an ADD for the gap, if there is one, and then the instruction are added to the list, and nothing else |
| `WindowEncoder.Encoder.AddFinalize` | packages/xdelta3_ffi/src/xdelta/xdelta3.c:2070-2088 | after the last instruction the three sections decode to exactly the window with nothing left over; the codes written stand for the list of instructions and one last ADD, and no two neighbours that could share a code have one each |
| `Overlaps.Shortened` | packages/xdelta3_ffi/src/xdelta/xdelta3.c:2159-2216 | where two matches overlap enough to keep both, the cut leaves two adjoining parts of at least the minimum size |
| `Overlaps.CutAt` | packages/xdelta3_ffi/src/xdelta/xdelta3.c:2159-2216 | the cut is in the middle of both matches together, rounded up, or 18 bytes from their start if that is less, moved into the overlap: one formula for all three branches |
| `Overlaps.TrimmedGenuine` | packages/xdelta3_ffi/src/xdelta/xdelta3.c:2205-2213 | a cut match is still a true match |
| `Overlaps.StepOf` | packages/xdelta3_ffi/src/xdelta/xdelta3.c:2111-2217 | one look at a match and its successors: keep, drop one of them, or cut both |
| `Overlaps.DroppedExactly` | packages/xdelta3_ffi/src/xdelta/xdelta3.c:2111-2217 | of two overlapping matches one is dropped exactly when a third begins no more than a byte behind the first, or when they span fewer than eight bytes or one reaches no more than two beyond the other and nothing is left open; which one; and otherwise both stay and adjoin |
| `Overlaps.ResolvedIsSettled` | packages/xdelta3_ffi/src/xdelta/xdelta3.c:2094-2217 | for every buffer with increasing starts and ends: after compacting, matches are increasing, each is a trimmed part of one that was there, and no two overlap, except the last two when not forced |
| `Overlaps.ResolvedLosesLittle` | packages/xdelta3_ffi/src/xdelta/xdelta3.c:2094-2217 | compacting loses at most three covered bytes for every match it drops |
| `Overlaps.CollapseToTwo` | packages/xdelta3_ffi/src/xdelta/xdelta3.c:2126-2136 | however many matches there are, if all begin inside the first one, compacting without force leaves just the first and the last, which overlap |
| `Overlaps.ApartAtTheEnd` | packages/xdelta3_ffi/src/xdelta/xdelta3.c:2126-2190 | if the last match begins behind the end of the one before it, compacting without force never leaves just two that overlap |
| `InstructionBuffer.Buffer.CompactOne` | packages/xdelta3_ffi/src/xdelta/xdelta3.c:2111-2217 | the loop body does that one look on the list and gives freed slots back |
| `InstructionBuffer.Buffer.Compact` | packages/xdelta3_ffi/src/xdelta/xdelta3.c:2094-2217 | the loop leaves the compacted list; all its matches are true, and no slot is lost |
| `InstructionBuffer.Buffer.Drain` | packages/xdelta3_ffi/src/xdelta/xdelta3.c:2221-2250 | matches are encoded from the front, each with the gap before it: all of them, or until more than half the slots are done or fewer than three remain, and no further |
| `InstructionBuffer.Buffer.Flush` | packages/xdelta3_ffi/src/xdelta/xdelta3.c:2094-2251 | the first of the compacted matches, all of them when forced and otherwise just as many as the code's two tests ask for, become instructions in order with the gaps between them, and the others stay; without force at least one slot becomes free, and the order that encoding relies on survives exactly when compacting did not leave just two overlapping matches: never lost when the last match begins behind the end of the one before it, always when all begin inside the first |
| `FlushOverlap.MatchGenuine` | packages/xdelta3_ffi/src/xdelta/xdelta3.c:4138-4151 | on a concrete source and window five matches are true, reach no further in either direction, and are short enough for lazy search |
| `FlushOverlap.OverlapIsReached` | packages/xdelta3_ffi/src/xdelta/xdelta3.c:2221-2244 | with four slots, finding these five one after the other by lazy search leaves a match in front that begins before what has been encoded |
| `InstructionBuffer.Buffer.Push` | packages/xdelta3_ffi/src/xdelta/xdelta3.c:2253-2284 | a match enters a slot; when none is free the unlimited buffer grows and any other is flushed, so that every match is in the buffer or among the instructions; from four slots on there is always one then, with fewer there may be none, and nothing is taken; the order survives a flush exactly when it did not come down to two overlapping matches, or to one that the new match overlaps |
| `InstructionBuffer.Buffer.Erase` | packages/xdelta3_ffi/src/xdelta/xdelta3.c:2291-2316 | exactly the matches that start at or behind the position are dropped; all of them end before the covering match |
| `InstructionBuffer.Buffer.EmitHere` | packages/xdelta3_ffi/src/xdelta/xdelta3.c:4235-4258 | a run or target match found at the input position goes behind all matches there, starting and ending later |
| `InstructionBuffer.Buffer.EmitSource` | packages/xdelta3_ffi/src/xdelta/xdelta3.c:3596-3646 | a source match that reaches back replaces the matches it covers and keeps starts and ends increasing |
| `InstructionBuffer.Buffer.HandleLazy` | packages/xdelta3_ffi/src/xdelta/xdelta3.c:4144-4151 | after a match the search goes on one byte further for something longer, or behind the match with the least minimum length, and the next match will start and end later |
| `InstructionBuffer.Buffer.Restart` | packages/xdelta3_ffi/src/xdelta/xdelta3.c:4097-4102 | the minimum length set when the search restarts is the least with which every later match ends behind the last one |
| `InstructionBuffer.Buffer.Advance` | packages/xdelta3_ffi/src/xdelta/xdelta3.c:4265-4267 | moving on by a byte shortens the minimum by one, never below the smallest match |
| `InstructionBuffer.Buffer.EncodeRest` | packages/xdelta3_ffi/src/xdelta/xdelta3.c:2070-2251 | the instructions sent for a window are the compacted matches with an ADD for every gap between them and before the end, nothing more and nothing less; codes are shared wherever one stands for two; the sections decode to the window, and all slots are free again |
| `SourceWindow.AgreeIsLongest` | packages/xdelta3_ffi/src/xdelta/xdelta3.c:3420-3445 | the common stretch of two sequences: all of it agrees, and the next bytes differ |
| `SourceWindow.ForwardMatch` | packages/xdelta3_ffi/src/xdelta/xdelta3.c:3420-3445 | the unrolled comparison by words and then bytes gives exactly the length of the longest common prefix, for every length, with or without unaligned words |
| `SourceWindow.SmallMatch` | packages/xdelta3_ffi/src/xdelta/xdelta3.c:3701-3808 | whatever the table and the window hold: the positions tried are the chain from its start, each where the table leads from the one before, up to its end, its limit, or a match better than all before that is long enough or reaches the end; of those that agree longest the first is returned with that length, and nothing exactly if none agrees, or four bytes lie 2^14 back or five 2^21 |
| `SourceWindow.SmallMatchGenuine` | packages/xdelta3_ffi/src/xdelta/xdelta3.c:3701-3808 | such a match is a true target copy |
| `SourceWindow.Matcher.SetupWindow` | packages/xdelta3_ffi/src/xdelta/xdelta3.c:3216-3279 | the source window covers every copy found so far: at the end it is exactly their range, before that it begins there and is as long as the range or five quarters of the input, cut to a known file size |
| `SourceWindow.Matcher.SetupMatch` | packages/xdelta3_ffi/src/xdelta/xdelta3.c:3287-3418 | a suspected match is refused exactly when it repeats the last one, is too far back, or lies outside a decided window; otherwise its limits keep it inside the input, the file and the window |
| `SourceWindow.Matcher.BackInBlock` | packages/xdelta3_ffi/src/xdelta/xdelta3.c:3511-3525 | comparing backwards inside a block stops at the first difference, the block's start or the limit |
| `SourceWindow.Matcher.ExtendBack` | packages/xdelta3_ffi/src/xdelta/xdelta3.c:3473-3530 | the backward half can be left for a block and entered again anywhere, and keeps what it has; it ends at the first difference, at the limit, or at a block that is gone, and waits only for a block that is not there yet |
| `SourceWindow.Matcher.ExtendForward` | packages/xdelta3_ffi/src/xdelta/xdelta3.c:3532-3579 | the forward half ends at the first difference, the limit, the end of the file or a block that is gone, across any number of blocks and re-entries |
| `SourceWindow.Matcher.Extend` | packages/xdelta3_ffi/src/xdelta/xdelta3.c:3456-3657 | however often it waits for blocks, the copy found is the longest both ways within the limits unless a block was gone, and then it ends at that block; it is recorded exactly if it is long enough |
| `SourceWindow.Matcher.Record` | packages/xdelta3_ffi/src/xdelta/xdelta3.c:3613-3622 | the range of source addresses grows to hold each copy and stays attained at both ends |
| `SourceWindow.Matcher.Conclude` | packages/xdelta3_ffi/src/xdelta/xdelta3.c:3581-3656 | a long enough match becomes a copy, and one that ends with the input is carried into the next window |
| `SourceWindow.Matcher.AllGenuine` | packages/xdelta3_ffi/src/xdelta/xdelta3.c:1911-1930 | once the window is decided, even in the middle of the search, every copy repeats the source and lies inside the window, before and after the decision |
| `RunScan.CompRun` | packages/xdelta3_ffi/src/xdelta/xdelta3.c:1089-1101 | the run counter over a look-ahead is the length of the run at its end |
| `RunScan.StepTracks` | packages/xdelta3_ffi/src/xdelta/xdelta3.c:441-449 | sliding on by one byte keeps the counter right: as long as the look-ahead, it is the run's length |
| `RunScan.ExpandRun` | packages/xdelta3_ffi/src/xdelta/xdelta3.c:4165-4172 | a run as long as the look-ahead is followed to its exact end |
| `RunScan.RunGenuine` | packages/xdelta3_ffi/src/xdelta/xdelta3.c:2380-2395 | such a run is a true RUN instruction |
| `RollingHash.SizeBits` | packages/xdelta3_ffi/src/xdelta/xdelta3-hash.h:102-116 | the table size is the largest power of two not above the wanted number of slots, from four slots on |
| `RollingHash.SizeHashtable` | packages/xdelta3_ffi/src/xdelta/xdelta3-hash.h:118-139 | the tables hold the powers of the multiplier modulo 2^64, and the multiplier is the power for the width |
| `RollingHash.LargeCksum` | packages/xdelta3_ffi/src/xdelta/xdelta3-hash.h:85-92 | the checksum is the polynomial of its bytes modulo 2^64, for every width and input |
| `RollingHash.UpdateSlides` | packages/xdelta3_ffi/src/xdelta/xdelta3-hash.h:94-99 | one update is the checksum computed afresh one byte on |
| `RollingHash.SlidIsFresh` | packages/xdelta3_ffi/src/xdelta/xdelta3-hash.h:84-99 | after any number of updates the checksum is the one computed afresh there |
| `RollingHash.AndMask` | packages/xdelta3_ffi/src/xdelta/xdelta3-hash.h:62-64 | masking with the table's mask keeps the low bits |
| `RollingHash.HashInTable` | packages/xdelta3_ffi/src/xdelta/xdelta3-hash.h:62-64 | every 64-bit checksum hashes to a slot of the table |
| `StreamFormat.FeedInTwo` | packages/xdelta3_ffi/src/xdelta/xdelta3-decode.h:700-1067 | feeding a string is feeding any prefix and then the rest, at every state |
| `StreamFormat.ChunksDoNotMatter` | packages/xdelta3_ffi/src/xdelta/xdelta3-decode.h:700-1067 | any partition of the input gives the same final state, with the same outputs and the same error |
| `StreamDecoder.Stream.DecodeByte` | packages/xdelta3_ffi/src/xdelta/xdelta3-decode.h:27-37 | one byte, or a wish for input with nothing taken |
| `StreamDecoder.Stream.DecodeBytes` | packages/xdelta3_ffi/src/xdelta/xdelta3-decode.h:39-63 | as many bytes as are wanted and there, the rest later |
| `StreamDecoder.Stream.DecodeSize` | packages/xdelta3_ffi/src/xdelta/xdelta3-internal.h:142-163 | a base-128 number continued from the part read in earlier calls |
| `StreamDecoder.ShiftIn` | packages/xdelta3_ffi/src/xdelta/xdelta3-decode.h:964-975 | four checksum bytes shifted into 32 bits are their big-endian number |
| `StreamDecoder.Stream.InitWindow` | packages/xdelta3_ffi/src/xdelta/xdelta3-decode.h:71-79 | a new window starts where the last one ended, with empty sections |
| `StreamDecoder.Stream.CheckBounds` | packages/xdelta3_ffi/src/xdelta/xdelta3-decode.h:902-914 | the copy window is refused exactly when its end overflows or, in the target, lies behind the start of the window |
| `StreamDecoder.Stream.StoreWindowLength` | packages/xdelta3_ffi/src/xdelta/xdelta3-decode.h:917-937 | the target length is stored unless it and the copy window overflow or it is above the hard limit |
| `StreamDecoder.Stream.DecodeSection` | packages/xdelta3_ffi/src/xdelta/xdelta3-decode.h:162-226 | a section taken where it lies and one copied piece by piece are the same section |
| `StreamDecoder.Stream.DecodeSections` | packages/xdelta3_ffi/src/xdelta/xdelta3-decode.h:531-624 | data, instructions and addresses in this order, each resumed where it stopped |
| `StreamDecoder.Stream.EmitWindow` | packages/xdelta3_ffi/src/xdelta/xdelta3-decode.h:1014-1038 | the window is decoded and its checksum compared, as the machine does it, or the decoder comes back for a block in the middle of it and goes on from there when called again |
| `StreamDecoder.Stream.FinishWindow` | packages/xdelta3_ffi/src/xdelta/xdelta3-decode.h:501-510 | the sections are given back and the next window is awaited |
| `StreamDecoder.Stream.Step` | packages/xdelta3_ffi/src/xdelta/xdelta3-decode.h:712-1067 | one pass through the state switch is one step of the byte machine |
| `StreamDecoder.Stream.DecodeInput` | packages/xdelta3_ffi/src/xdelta/xdelta3-decode.h:700-1067 | one call gets on course to what the machine makes of the whole input, and stops only for input, a source block, an event or an error; stopped for a block it has got further than before, or that block was not there |
| `StreamDecoder.Stream.Process` | packages/xdelta3_ffi/src/xdelta/xdelta3-decode.h:700-1067 | called again after every event and given every block it asks for, whatever is answered at which call, the decoder becomes exactly what the byte machine becomes on the input; only a block out of reach ends this earlier |
| `StreamDecoder.Stream.ProcessAll` | packages/xdelta3_ffi/src/xdelta/xdelta3-decode.h:700-1067 | given the input in any chunks, with any pattern of missing blocks, the decoder ends as the machine on the chunks joined |
| `StreamEncoder.FeedsNumber` | packages/xdelta3_ffi/src/xdelta/xdelta3-internal.h:142-212 | the resumable reader gets an emitted number wherever the machine takes one |
| `StreamEncoder.FourBytesBack` | packages/xdelta3_ffi/src/xdelta/xdelta3.c:2537-2556 | the checksum bytes written are read back as the checksum |
| `StreamEncoder.HeaderReadsBack` | packages/xdelta3_ffi/src/xdelta/xdelta3.c:2430-2467 | the file header, with or without an application header, is accepted and leaves the decoder before the first window |
| `StreamEncoder.WindowReadsBack` | packages/xdelta3_ffi/src/xdelta/xdelta3.c:2494-2558 | a window sent with its header, source segment and checksum is decoded to its bytes, reported once, and leaves the decoder before the next one |
| `StreamEncoder.WindowsReadBack` | packages/xdelta3_ffi/src/xdelta/xdelta3.c:2417-2556 | any number of windows come out in order |
| `StreamEncoder.FileReadsBack` | packages/xdelta3_ffi/src/xdelta/xdelta3.c:2417-2556 | a whole file fed to a fresh decoder in any chunks yields exactly the targets of its windows, and the application header |
| `StreamEncoder.WindowRefused` | packages/xdelta3_ffi/src/xdelta/xdelta3-decode.h:669-692 | a window that is sent but means nothing at the decoder, its checksum being another than that of what its sections decode to for example, is announced, and then refused with nothing put out |
| `StreamEncoder.MeansOrRefusable` | packages/xdelta3_ffi/src/xdelta/xdelta3-decode.h:669-692 | a sendable window means nothing exactly when its source is missing, its sections do not decode, or its checksum is wrong |
| `StreamChecks.OutputsAreChecked` | packages/xdelta3_ffi/src/xdelta/xdelta3-decode.h:685-692 | for every input and every state: of each window put out, at the byte where it ends, the four checksum bytes, if bit 4 of its indicator says so, are the checksum of what was put out |
| `AnyInput.WindowExactly` | packages/xdelta3_ffi/src/xdelta/xdelta3-decode.h:858-1038 | whatever the fields of a window hold: it is put out exactly when no unknown bit is set, offset and length of its segment and length and size of its target fit 64 bits, the target has at most 2^26 bytes, the delta indicator is 0, the length of the encoding counts the bytes that follow it, the segment is one of a source that is there, the sections decode and the checksum agrees; otherwise the decoder has failed and put out nothing |
| `AnyInput.HeaderExactly` | packages/xdelta3_ffi/src/xdelta/xdelta3-decode.h:733-764 | the first five bytes of a file are taken exactly when they are D6 C3 C4 00 and an indicator below 8 |
| `AnyInput.UnsupportedHeader` | packages/xdelta3_ffi/src/xdelta/xdelta3-decode.h:766-822 | of a file whose header names a secondary compressor or a code table no input brings anything out |
| `Examples.FileExample` | packages/xdelta3_ffi/src/xdelta/xdelta3-decode.h:733-1038 | a file of eighteen bytes is decoded to one letter with the checksum 00420042 and refused with any other |
| `Examples.RfcFile` | packages/xdelta3_ffi/src/xdelta/xdelta3-decode.h:733-1038 | the RFC's example as a file byte by byte: a segment's length before its offset, data before instructions before addresses |
| `StreamEncoder.EmitFileHeader` | packages/xdelta3_ffi/src/xdelta/xdelta3.c:2430-2467 | the bytes of the file header |
| `StreamEncoder.EmitWindowHeader` | packages/xdelta3_ffi/src/xdelta/xdelta3.c:2494-2558 | the bytes of a window header |
| `WindowSender.NoSegmentNoSource` | packages/xdelta3_ffi/src/xdelta/xdelta3.h:1346-1348 | a window without a source segment decodes the same whatever source the decoder holds |
| `WindowSender.PackWindow` | packages/xdelta3_ffi/src/xdelta/xdelta3.c:2417-2556 | encoding what the buffer holds gives a window that every decoder with the source turns back into the input, unless its lengths overflow their integers; its codes stand for the compacted matches and an ADD for every gap |
| `Adler.BoundFits` | packages/xdelta3_ffi/src/xdelta/xdelta3.c:1033-1035 | from any 16-bit sums, 5552 bytes without reduction stay below 2^32 |
| `Adler.AddByteDeferred` | packages/xdelta3_ffi/src/xdelta/xdelta3.c:1037-1053 | a byte added in 32 bits without reduction stays congruent to the definition |
| `Adler.Adler32` | packages/xdelta3_ffi/src/xdelta/xdelta3.c:1055-1082 | the checksum with the modulo taken once per 5552 bytes equals the one of section 9 of RFC 1950, for every input and every 32-bit start: its low half is the start's plus the sum of the bytes, its high half the start's plus the running sums, each modulo 65521 |
| `Adler.ChecksumClosed` | packages/xdelta3_ffi/src/xdelta/xdelta3.c:1055-1082 | the checksum of n bytes: one plus their sum modulo 65521 in the low half, and n plus the bytes weighed n, n - 1 and so on down to 1, modulo 65521, in the high half |
| `Adler.ContinuedClosed` | packages/xdelta3_ffi/src/xdelta/xdelta3.c:1055-1082 | the same sums from any start, as for data that comes in parts |
| `MulDiv.EasyPart` | packages/chdman_ffi/src/chd/osd/eminline.h:366-375 | whole parts of the factors contribute exactly, and the rest is a product of two remainders |
| `MulDiv.NormBounds` | packages/chdman_ffi/src/chd/osd/eminline.h:376-380 | the normalised divisor has its top bit set and still fits |
| `MulDiv.QuotientDigit` | packages/chdman_ffi/src/chd/osd/eminline.h:399-408 | each correction loop ends on the exact quotient digit |
| `MulDiv.Product` | packages/chdman_ffi/src/chd/osd/eminline.h:381-393 | the two-word product, no partial sum of which wraps |
| `MulDiv.Remainder` | packages/chdman_ffi/src/chd/osd/eminline.h:409-412 | the subtraction wraps and still yields the true remainder |
| `MulDiv.LongDivision` | packages/chdman_ffi/src/chd/osd/eminline.h:381-423 | a product divided by a normalised divisor, digit by digit |
| `MulDiv.MulDivU64` | packages/chdman_ffi/src/chd/osd/eminline.h:358-425 | floor(a*b/c) for all 64-bit a, b and c > 0 whose result fits in 64 bits, in wrapping arithmetic |
| `WideMul.PartsAddUp` | packages/chdman_ffi/src/chd/osd/eminline.h:308-316 | four 32-bit products and one carry make up both words of the product |
| `WideMul.MulU64x64` | packages/chdman_ffi/src/chd/osd/eminline.h:301-317 | high and low word together are the product of any two unsigned words |
| `WideMul.Mul64x64` | packages/chdman_ffi/src/chd/osd/eminline.h:269-291 | high and low word together are the product of any two signed words |
| `BitStream.ValueOfBits` | packages/xdelta3_ffi/src/xdelta/xdelta3-second.h:24-67 | the value of the bits written for a number is the number |
| `BitStream.StreamBitsAt` | packages/xdelta3_ffi/src/xdelta/xdelta3-second.h:151-172 | bit 8i + k of a stream is the bit of byte i worth 2^k |
| `BitStream.BitWriter.EncodeBit` | packages/xdelta3_ffi/src/xdelta/xdelta3-second.h:151-172 | one bit is appended to what has been written |
| `BitStream.BitWriter.EncodeBits` | packages/xdelta3_ffi/src/xdelta/xdelta3-second.h:180-201 | the bits of a value are appended, most significant first |
| `BitStream.BitWriter.FlushBits` | packages/xdelta3_ffi/src/xdelta/xdelta3-second.h:174-178 | the bytes hold all bits written, padded with zeros within the last byte |
| `BitStream.BitReader.DecodeBit` | packages/xdelta3_ffi/src/xdelta/xdelta3-second.h:36-62 | the next bit is taken from what remains, or the input has ended |
| `BitStream.BitReader.DecodeBits` | packages/xdelta3_ffi/src/xdelta/xdelta3-second.h:24-67 | as many bits as wanted are taken, as a number |
| `CanonicalCode.UsedIsKraft` | packages/xdelta3_ffi/src/xdelta/xdelta3-djw.h:463-497 | the code space used up to a length is the Kraft sum up to it |
| `CanonicalCode.CodeFits` | packages/xdelta3_ffi/src/xdelta/xdelta3-djw.h:463-497 | under the Kraft inequality every code fits its length |
| `CanonicalCode.BaseIsNatural` | packages/xdelta3_ffi/src/xdelta/xdelta3-djw.h:1286-1295 | the decoder's base for a length never wraps below zero where it is used |
| `CanonicalCode.ReadsBack` | packages/xdelta3_ffi/src/xdelta/xdelta3-djw.h:463-497 | for every length table satisfying Kraft, a code followed by anything is read back as its symbol with exactly its bits consumed |
| `CanonicalCode.PrefixFree` | packages/xdelta3_ffi/src/xdelta/xdelta3-djw.h:463-497 | no code is the beginning of another symbol's code |
| `CanonicalCode.ReadsManyBack` | packages/xdelta3_ffi/src/xdelta/xdelta3-djw.h:463-497 | any sequence of codes is read back symbol by symbol |
| `HuffmanTables.BuildCodes` | packages/xdelta3_ffi/src/xdelta/xdelta3-djw.h:463-497 | the code of each symbol is the first code of its length plus its rank among symbols of that length |
| `HuffmanTables.BuildDecoder` | packages/xdelta3_ffi/src/xdelta/xdelta3-djw.h:1241-1307 | the base, limit and inorder tables belong to the length table, also when no symbol has a code |
| `HuffmanTables.DecodeCode` | packages/xdelta3_ffi/src/xdelta/xdelta3-djw.h:1314-1353 | bits are read up to the first length whose limit admits them |
| `HuffmanTables.DecodeSymbol` | packages/xdelta3_ffi/src/xdelta/xdelta3-djw.h:1310-1370 | decoding with the tables is reading with the length table, on every input |
| `MtfRuns.MovesUp` | packages/xdelta3_ffi/src/xdelta/xdelta3-djw.h:296-306 | the symbol goes to the front and those before it move up by one, the others stay |
| `MtfRuns.RunOfDigits` | packages/xdelta3_ffi/src/xdelta/xdelta3-djw.h:1438-1470 | the digits written for a run come to it, each counting one more than it says and twice as much as the one before |
| `MtfRuns.MtfRoundTrip` | packages/xdelta3_ffi/src/xdelta/xdelta3-djw.h:502-598 | when all groups have their zeros in common, decoding the codes gives back every sequence over the list, runs across skipped positions included |
| `MtfRuns.RoundTripIffSharedZeros` | packages/xdelta3_ffi/src/xdelta/xdelta3-djw.h:1418-1476 | the round trip holds if and only if every group is zero wherever the first group is zero at that symbol |
| `GroupTables.TwoGroupsComeBack` | packages/xdelta3_ffi/src/xdelta/xdelta3-djw.h:1418-1476 | the lengths of two groups of 256 come back if and only if the groups leave the same symbols without a code |
| `GroupTables.RescaledGroupIsLost` | packages/xdelta3_ffi/src/xdelta/xdelta3-djw.h:580-598 | a group that leaves a symbol unused next to one whose weights were rescaled, with lengths as the builder promises for both: the table does not come back, in either order |
| `GroupTables.BuildTwoGroups` | packages/xdelta3_ffi/src/xdelta/xdelta3-djw.h:1039-1062 | for all weights of two groups over the same symbols: the table of the lengths built for them comes back exactly if both or neither had to be rescaled, or no symbol is left over; a group with 22 or more doubling weights is rescaled, a light one is not |
| `GroupTables.DifferentZerosAreLost` | packages/xdelta3_ffi/src/xdelta/xdelta3-djw.h:1039-1062 | two groups of the same 22 symbols, one with doubling weights and one with equal ones: the lengths built for them do not come back |
| `MtfCoder.UpdateMtf` | packages/xdelta3_ffi/src/xdelta/xdelta3-djw.h:296-306 | the symbol at an index moves to the front and the others keep their order |
| `MtfCoder.Update12` | packages/xdelta3_ffi/src/xdelta/xdelta3-djw.h:308-324 | a run is written as its digits in bijective base two |
| `MtfCoder.ComputeMtf12` | packages/xdelta3_ffi/src/xdelta/xdelta3-djw.h:502-548 | the loop over list and frequency arrays writes exactly the codes of the sequence and counts them |
| `MtfCoder.BitsFollowCodes` | packages/xdelta3_ffi/src/xdelta/xdelta3-djw.h:1418-1476 | decoding the code words of a list of codes is decoding the list |
| `MtfCoder.Decode12` | packages/xdelta3_ffi/src/xdelta/xdelta3-djw.h:1418-1476 | the loop with its list, repeat count and reader decodes what the state machine decodes, on every input |
| `PrefixHeap.RootIsLeast` | packages/xdelta3_ffi/src/xdelta/xdelta3-djw.h:227-278 | in an ordered heap nothing is less than the root |
| `PrefixHeap.HeapInsert` | packages/xdelta3_ffi/src/xdelta/xdelta3-djw.h:231-243 | the heap is ordered again and holds the new entry and all others |
| `PrefixHeap.HeapExtract` | packages/xdelta3_ffi/src/xdelta/xdelta3-djw.h:245-278 | a least entry is taken out, and the rest is an ordered heap of all others |
| `PrefixTree.MergePlanted` | packages/xdelta3_ffi/src/xdelta/xdelta3-djw.h:405-417 | linking two roots to a new entry keeps a forest whose leaves are the symbols in use |
| `PrefixTree.MergeGreedy` | packages/xdelta3_ffi/src/xdelta/xdelta3-djw.h:405-417 | taking the two lightest keeps every root at least as heavy as the Fibonacci number of its height asks for |
| `PrefixTree.ShareOfTree` | packages/xdelta3_ffi/src/xdelta/xdelta3-djw.h:421-442 | the leaves of a tree share out its root's part exactly: their Kraft sum |
| `PrefixTree.WeightOfTree` | packages/xdelta3_ffi/src/xdelta/xdelta3-djw.h:405-417 | a root weighs what its leaves weigh |
| `PrefixBuilder.InitHeap` | packages/xdelta3_ffi/src/xdelta/xdelta3-djw.h:367-403 | the symbols in use enter the heap, with a stand-in when there is only one |
| `PrefixBuilder.BuildTree` | packages/xdelta3_ffi/src/xdelta/xdelta3-djw.h:405-417 | the loop ends with one tree over all symbols in use, and no sum wraps at 32 bits |
| `PrefixBuilder.ComputeLengths` | packages/xdelta3_ffi/src/xdelta/xdelta3-djw.h:421-442 | each symbol's length is its depth, overflow is noticed exactly when a length exceeds the limit, and the bits are counted |
| `PrefixBuilder.Rescale` | packages/xdelta3_ffi/src/xdelta/xdelta3-djw.h:454-460 | weights are halved, rounded up by one |
| `PrefixBuilder.TooLongNeedsWeight` | packages/xdelta3_ffi/src/xdelta/xdelta3-djw.h:421-434 | a leaf deeper than the limit needs a root of Fibonacci weight |
| `PrefixBuilder.OverflowDescends` | packages/xdelta3_ffi/src/xdelta/xdelta3-djw.h:446-460 | after the first retry no weight is zero, and from then on each retry lowers the total |
| `PrefixCost.Exchange` | packages/xdelta3_ffi/src/xdelta/xdelta3-djw.h:405-417 | lengths that find room can be changed, without costing more, so that the two lightest entries get equally long codes |
| `PrefixCost.FrugalStep` | packages/xdelta3_ffi/src/xdelta/xdelta3-djw.h:405-417 | if no lengths for the symbols beat the forest so far, they do not beat it after its two lightest roots are merged either |
| `PrefixCost.FrugalEnd` | packages/xdelta3_ffi/src/xdelta/xdelta3-djw.h:405-417 | the finished tree costs no more than any lengths for its symbols that find room |
| `PrefixDepth.DoublingLength` | packages/xdelta3_ffi/src/xdelta/xdelta3-djw.h:405-434 | of k symbols with weights one, two, four and so on the first gets a code of k - 1 bits |
| `PrefixBuilder.ShrunkAt` | packages/xdelta3_ffi/src/xdelta/xdelta3-djw.h:454-458 | after k retries a weight is 2 plus the floor of (weight - 2) / 2^k, for every weight and every k, zero weights included |
| `PrefixBuilder.HeavierIsShorter` | packages/xdelta3_ffi/src/xdelta/xdelta3-djw.h:342-461 | of two symbols with codes that cost least the heavier never has the longer code |
| `PrefixBuilder.MoreFrequentIsShorter` | packages/xdelta3_ffi/src/xdelta/xdelta3-djw.h:342-461 | after k retries a symbol that is more frequent than another by 2^k or more never has the longer code; less than that, and the halved weights can be equal |
| `PrefixBuilder.BuildPrefix` | packages/xdelta3_ffi/src/xdelta/xdelta3-djw.h:342-461 | the retry loop ends; the lengths form a complete prefix code with Kraft sum exactly one, none above the limit, every used symbol has one, and the bits returned are the cost; they are those of a tree that always merged two lightest ones and cost least, for the weights halved as often as a code for them was too long; unless that happened they cost least for the frequencies themselves and unused symbols have none, but for the stand-in of a single symbol; a retry needs a total weight that grows like the Fibonacci numbers |
| `PrefixBuilder.LimitsSuffice` | packages/xdelta3_ffi/src/xdelta/xdelta3-djw.h:50-96 | the three alphabets and limits in use meet the condition of the retry loop |
| `HuffSection.PlaceOfLength` | packages/xdelta3_ffi/src/xdelta/xdelta3-djw.h:326-336 | the place of every code length in the first list: 0 first, 4 to 10 at 1 to 7, then 3, 11, 2, 12, 13 and 1, and 14 to 20 at their own number |
| `HuffSection.PrefixReadsBack` | packages/xdelta3_ffi/src/xdelta/xdelta3-djw.h:609-658 | the coded length table is read back |
| `HuffSection.SectionReadsBack` | packages/xdelta3_ffi/src/xdelta/xdelta3-djw.h:805-1234 | a section of one group is read back, whatever bits follow |
| `HuffExample.SectionSpelledOut` | packages/xdelta3_ffi/src/xdelta/xdelta3-djw.h:1489-1678 | a one-group section bit by bit, sixteen codes of four bits in thirteen move-to-front codes and three data symbols, decodes to 1, 1, 1 and leaves what follows |
| `HuffCoder.EncodePrefix` | packages/xdelta3_ffi/src/xdelta/xdelta3-djw.h:609-658 | the length table is written as a code for its move-to-front codes, and those codes; the code is the one built for their frequencies, and of its lengths seven are sent, or as many as it takes to the last one in use |
| `HuffCoder.EncodeHuff` | packages/xdelta3_ffi/src/xdelta/xdelta3-djw.h:805-1234 | for every non-empty input: with the codes built for its frequencies, nothing is returned exactly when, unforced, the code words and the whole bytes of the header come within two bytes of the input; otherwise the bits are header and code words, padded with zeros, and decode to the input; one sent unforced is shorter than the input |
| `HuffCoder.DecodeClclen` | packages/xdelta3_ffi/src/xdelta/xdelta3-djw.h:1372-1416 | the lengths of the code for length tables, on every input |
| `HuffCoder.DecodePrefix` | packages/xdelta3_ffi/src/xdelta/xdelta3-djw.h:1478-1487 | the length table, on every input |
| `HuffCoder.DecodeHuff` | packages/xdelta3_ffi/src/xdelta/xdelta3-djw.h:1489-1678 | the decoder returns what the bits of a one-group section mean, refuses what means nothing, and never misreads several groups |
| `SecondarySection.SectionExpands` | packages/xdelta3_ffi/src/xdelta/xdelta3-second.h:103-148 | a size and a packed section expand to the values |
| `SecondarySection.EncodeSecondary` | packages/xdelta3_ffi/src/xdelta/xdelta3-second.h:203-272 | a section is replaced exactly when it has ten bytes or more and its size and what the coder makes of it save more than two bytes, or it is forced; then it expands to the original, otherwise it is left alone |
| `SecondarySection.DecodeSecondary` | packages/xdelta3_ffi/src/xdelta/xdelta3-second.h:103-148 | the expansion of a section, or its refusal |
| `FgkMove.MoveKeeps` | packages/xdelta3_ffi/src/xdelta/xdelta3-fgk.h:295-348 | exchanging a node with the leader of its block finds all its pointers and keeps the order of weights, the blocks, the family links and the sums, for every tree in order |
| `FgkRise.PromoteKeeps` | packages/xdelta3_ffi/src/xdelta/xdelta3-fgk.h:351-397 | a leader passed to the next block and counted once more leaves everything in order but for its parent, which is one occurrence short |
| `FgkRise.FreeBlocks` | packages/xdelta3_ffi/src/xdelta/xdelta3-fgk.h:531-541 | there are always at least two free blocks, so taking one never fails |
| `FgkClimb.StepKeeps` | packages/xdelta3_ffi/src/xdelta/xdelta3-fgk.h:285-290 | one step up from a node whose parent does not lead its block |
| `FgkClimb.PairKeeps` | packages/xdelta3_ffi/src/xdelta/xdelta3-fgk.h:363-378 | the two steps from the leaf beside the unseen symbols, whose parent of the same weight leads the block: after the second all is in order again |
| `FgkClimb.ClimbKeeps` | packages/xdelta3_ffi/src/xdelta/xdelta3-fgk.h:276-293 | the climb finds every pointer it follows, reaches the root, and leaves a tree in order with one occurrence more at the leaf and at the root and no other leaf changed |
| `FgkFirst.PartsExactly` | packages/xdelta3_ffi/src/xdelta/xdelta3-fgk.h:351-397 | in every tree in order whose first two nodes have not parted: counting a promoted leader leaves the first node no lighter than the second and in another block exactly when all symbols have been seen, the leader is the first node, and it catches up with the second |
| `FgkFirst.PartingIsReached` | packages/xdelta3_ffi/src/xdelta/xdelta3-fgk.h:380-382 | with two symbols seen in turn, the second time round their leaves weigh the same in different blocks, and one more occurrence makes the first node the heavier one, while everything else the tree promises holds |
| `FgkEnter.LastKeeps` | packages/xdelta3_ffi/src/xdelta/xdelta3-fgk.h:407-420 | the first occurrence of the last unseen symbol |
| `FgkGrow.PlantedInv` | packages/xdelta3_ffi/src/xdelta/xdelta3-fgk.h:422-468 | with a new leaf and a new inner node the tree is in order, but for the node above them, and the list has one symbol less |
| `FgkGrow.NewKeeps` | packages/xdelta3_ffi/src/xdelta/xdelta3-fgk.h:402-469 | the first occurrence of any other symbol, the very first one included |
| `FgkGrow.UpdateKeeps` | packages/xdelta3_ffi/src/xdelta/xdelta3-fgk.h:276-293 | for every tree in order and every symbol of the alphabet the update follows only valid pointers and leaves a tree in order that has counted the symbol once more |
| `FgkInit.InitialInv` | packages/xdelta3_ffi/src/xdelta/xdelta3-fgk.h:172-204 | the tree is in order from the start, whatever the memory held before |
| `FgkCodec.ZeroList` | packages/xdelta3_ffi/src/xdelta/xdelta3-fgk.h:471-486 | while symbols are unseen their list is as long as the count, which is 2^exp + rem; finding a symbol's place and picking the symbol at a place are inverse, and the bits of the index are enough |
| `FgkCodec.LeastWidth` | packages/xdelta3_ffi/src/xdelta/xdelta3-fgk.h:229-240 | the bits spent on a place among the unseen symbols are the least number that tells them all apart |
| `FgkCodec.SymbolReadBack` | packages/xdelta3_ffi/src/xdelta/xdelta3-fgk.h:570-652 | for every tree in order and every symbol the decoder fed the symbol's code returns the symbol and ends with the encoder's tree, whatever bits follow |
| `FgkCodec.NotBeforeLastBit` | packages/xdelta3_ffi/src/xdelta/xdelta3-fgk.h:570-605 | no part of a code completes a symbol |
| `FgkCodec.AllReadBack` | packages/xdelta3_ffi/src/xdelta/xdelta3-fgk.h:214-263 | encoder and decoder in lockstep for every sequence of symbols: all come back, both end with equal trees in order, and the bits behind are untouched |
| `FgkCodec.LeavesCount` | packages/xdelta3_ffi/src/xdelta/xdelta3-fgk.h:276-293 | after any sequence of symbols the weight of every leaf is the number of times its symbol has occurred |
| `FgkExample.FirstCodes` | packages/xdelta3_ffi/src/xdelta/xdelta3-fgk.h:214-263 | in an alphabet of 256 the first symbol is sent as its eight bits; after it that symbol has the code 1 and every other 0 and its place among those not seen, in eight bits |
| `FgkReach.CodeLength` | packages/xdelta3_ffi/src/xdelta/xdelta3-fgk.h:214-263 | a code has at least one bit and fewer than there are symbols, so the array of coded bits is large enough |
| `FgkReach.SymbolKeeps` | packages/xdelta3_ffi/src/xdelta/xdelta3-fgk.h:570-652 | whatever bits come, the decoder stays on the tree, returns symbols of the alphabet only, and goes on with a tree in order |
| `FgkStream.Stream.FactorRemaining` | packages/xdelta3_ffi/src/xdelta/xdelta3-fgk.h:551-565 | the loop finds the largest power of two in the count and the remainder |
| `FgkStream.Stream.MoveRight` | packages/xdelta3_ffi/src/xdelta/xdelta3-fgk.h:295-348 | the statements in place do what the move does to the tree as a value |
| `FgkStream.Stream.Promote` | packages/xdelta3_ffi/src/xdelta/xdelta3-fgk.h:351-397 | the statements in place do what promoting does to the tree as a value |
| `FgkStream.Stream.IncreaseZeroWeight` | packages/xdelta3_ffi/src/xdelta/xdelta3-fgk.h:402-469 | the statements in place make a leaf and an inner node of an unseen symbol |
| `FgkStream.Stream.UpdateTree` | packages/xdelta3_ffi/src/xdelta/xdelta3-fgk.h:276-293 | the loop to the root, in place, is the update, and leaves a tree in order |
| `FgkStream.Stream.FindNthZero` | packages/xdelta3_ffi/src/xdelta/xdelta3-fgk.h:475-486 | the walk down the list ends at the symbol and counts its place |
| `FgkStream.Stream.NthZero` | packages/xdelta3_ffi/src/xdelta/xdelta3-fgk.h:607-619 | the walk picks the symbol at the place, or the last one |
| `FgkStream.Stream.Init` | packages/xdelta3_ffi/src/xdelta/xdelta3-fgk.h:172-204 | the loops leave the initial tree, whatever the memory held |
| `FgkStream.Stream.EncodeData` | packages/xdelta3_ffi/src/xdelta/xdelta3-fgk.h:214-263 | the bits kept, taken from the end, are the code of the symbol in the tree before, and the tree has counted it |
| `FgkStream.Stream.GetEncodedBit` | packages/xdelta3_ffi/src/xdelta/xdelta3-fgk.h:267-271 | the bits kept last are sent first |
| `FgkStream.Stream.DecodeBit` | packages/xdelta3_ffi/src/xdelta/xdelta3-fgk.h:570-605 | one bit moves the decoder down the tree or is kept for the index, and completes a symbol exactly when it should |
| `FgkStream.Stream.DecodeData` | packages/xdelta3_ffi/src/xdelta/xdelta3-fgk.h:625-652 | the complete symbol is returned and counted, also where its index has no bits and the place of the first bit holds an old one |
| `FgkSection.EncodeFgk` | packages/xdelta3_ffi/src/xdelta/xdelta3-fgk.h:667-692 | the bytes written are the codes of all bytes of the section, each in the tree that has counted those before, padded with zeros |
| `FgkSection.DecodeFgk` | packages/xdelta3_ffi/src/xdelta/xdelta3-fgk.h:694-736 | for every input and wanted length: as many bytes as wanted, or none when the input ends before; the input is used up to the byte begun last |
| `FgkSection.SectionReadsBack` | packages/xdelta3_ffi/src/xdelta/xdelta3-fgk.h:667-736 | what the adaptive coder packs it unpacks, byte for byte, with less than a byte left over and the tree the encoder has |
| `FgkSection.TreesAgree` | packages/xdelta3_ffi/src/xdelta/xdelta3-second.h:203-272 | after any sequence of sections encoder and decoder have the same tree if and only if every section that was compressed and not sent was empty |
| `FgkSection.NextSectionReadsBack` | packages/xdelta3_ffi/src/xdelta/xdelta3-second.h:203-272 | while that holds the next section comes back, whatever came before |
| `FgkMissed.LongCodes` | packages/xdelta3_ffi/src/xdelta/xdelta3-fgk.h:214-263 | while more than half of 256 symbols are unseen every new one takes eight bits or more, and each is unseen no more |
| `FgkMissed.DeclinedIsMissed` | packages/xdelta3_ffi/src/xdelta/xdelta3-second.h:213-265 | every section of ten to 127 different bytes that comes first is packed into too many bytes and so declined after it was counted, and then there is a byte such that no section beginning with it comes back from the decoder |
| `LinkedRing.PushBack` | packages/xdelta3_ffi/src/xdelta/xdelta3-list.h:37-39 | an element is linked in at the end of the ring, both ways |
| `LinkedRing.Remove` | packages/xdelta3_ffi/src/xdelta/xdelta3-list.h:46-50 | an element is unlinked wherever it is |
| `LinkedRing.PopFront` | packages/xdelta3_ffi/src/xdelta/xdelta3-list.h:58-62 | the first element is unlinked and returned |
| `LinkedRing.Empty` | packages/xdelta3_ffi/src/xdelta/xdelta3-list.h:64-64 | the ring is empty exactly when the head points to itself |
| `LinkedRing.Length` | packages/xdelta3_ffi/src/xdelta/xdelta3-list.h:80-89 | the walk counts the elements |
| `BlockCache.UseMoves` | packages/xdelta3_ffi/src/xdelta/xdelta3-blkcache.h:259-268 | moving a used slot to the back keeps the list a permutation of all slots in order of last use |
| `BlockCache.Cache.constructor` | packages/xdelta3_ffi/src/xdelta/xdelta3-blkcache.h:72-237 | one buffer, or the buffer split over all slots, holds true blocks; a file of unknown size is read in order of arrival |
| `BlockCache.Cache.GetSlot` | packages/xdelta3_ffi/src/xdelta/xdelta3-blkcache.h:239-289 | a hit becomes the most recent; a miss frees the slot used longest ago, or in order of arrival the block's own slot unless a later block has it |
| `BlockCache.Cache.SeekSource` | packages/xdelta3_ffi/src/xdelta/xdelta3-blkcache.h:291-385 | the source is brought to the block by seeking or by reading on, and is too far back exactly when it cannot seek and lies behind; in order of arrival what is read on the way stays, each block at its place |
| `BlockCache.Cache.GetBlock` | packages/xdelta3_ffi/src/xdelta/xdelta3-blkcache.h:395-474 | after every request on a source that can seek the block is the true one, except exactly when its place in order of arrival has gone to a later block; all slots stay true and distinct, and a miss evicts the one least recently used; a block delivered is cached then, in order of arrival at its own place, with as many of those read on the way to it as there are slots, and nothing else has changed |

## Left out

- The FFI wrappers, the Flutter and Swift parts, `xdelta3-lzma.h`, the command line in `xdelta3-main.h` and the tests: file I/O, user interface and foreign libraries.
- Memory allocation and its failures, and output kept in pages: every section is a growing sequence.
- VCD_TARGET windows and custom code tables: the decoder refuses both, and so does the model.
- Secondary compressors inside the stream decoder: `StreamDecoder` and `StreamEncoder` model a build without any, which refuses a file that names one, although this repository's build has DJW and LZMA (`packages/xdelta3_ffi/src/CMakeLists.txt:62`); `SecondarySection` and `FgkSection` model the sections by themselves.
- Decoder flags that skip windows, leave checksums unchecked or stop after the header, and the verbose, statistics and debugging code.
- The adaptive coder's weights are naturals, where the code counts in 32 bits; its nodes and blocks are indices into sequences, and the chain of free blocks is a sequence.
- The check for clean padding bits that regression builds make in `xd3_decode_fgk` and `djw` decoding.
- The choice of groups in `xd3_encode_huff` for more than one group, and its thresholds: they affect size only.
- The loop that drives the string matcher and the tables it fills: the matcher's decisions are modelled one by one (`SourceWindow`, `RunScan`, `InstructionBuffer`), for any contents of the tables.
- `Merge.WholeState.MergeInputs`: instruction sizes of the first delta are positive and no copy of the second runs past the first output, as the code itself presumes; sizes and addresses are naturals, not 64-bit words.
- `Flatten.AppendWindow`: windows that do not decode are not flattened by the model; there the code stops at the first instruction that cannot be parsed.
- `MtfRuns.MtfRoundTrip`: that the groups have their zeros in common is a hypothesis, because the code does not ensure it.
- `HuffCoder.DecodeHuff`: of sections with several groups it says only that they are recognised as such.
- `WindowEncoder.Encoder.constructor`: base and length of the source window are given from the start, while the code fixes them before the first copy is encoded; `SourceWindow.Matcher.AllGenuine` shows that every copy lies in the window so fixed.
- `WindowDecoder.Decoder.ParseHalfInst`: the sum of position and size is a natural number, while the code adds 64-bit words; `WindowWrap.WrappingIsRefused` shows that this makes no difference to what a window decodes to.
- `StreamDecoder.Stream.DecodeInput`: the errors are told apart only as far as the four kinds of the model, not by message.
- `SourceWindow.Matcher.SetupWindow`: lengths are naturals, so the overflow test of the source window is not modelled.
- `BlockCache.Cache.GetBlock`: a source that cannot seek is only asked for blocks the skipping loop's own asserts allow.
- `RollingHash.LargeCksum`: only the 64-bit checksum is modelled; the 32-bit one belongs to another build.
- `InstructionBuffer.Buffer.Push`: where a buffer of one to three slots has none free after a flush the code stops at an assert; the model comes back without having taken the match.
- `StreamEncoder.EmitFileHeader`: the flag and ID of a secondary compressor are not written, as in a build without one.
- `HuffCoder.EncodeHuff`: one group of codes only.
- `SecondarySection.EncodeSecondary`: with the one-group coder only; the adaptive one is modelled by itself in `FgkSection`.
- `SecondarySection.DecodeSecondary`: sections of several groups and of other compressors are not expanded.
- `BlockedSource.Source.GetBlk`: the callback's errors other than a block out of reach, which are passed through, and the bookkeeping of the last block's length.
- `AddressCache.AddrCache.EncodeAddress`: that no mode takes fewer bytes is promised for addresses below 2^32; `AddressCache.ShortestExactly` says for which others it holds.
- `PrefixBuilder.MoreFrequentIsShorter`: says nothing about two symbols whose halved weights have become equal; there the heap's order decides which code is longer.
- `AnyInput.WindowExactly`: for windows of fewer than 2^64 bytes, more than a file offset can count.
- `FgkExample.FirstCodes`: only the first codes are written out; which of several equally heavy nodes move later on is what `FgkStream` computes in place, and no independent law singles it out.
