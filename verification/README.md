# Verified models of p2engine's inflater, allocator, signals, converters, queue, packet fields and timers

The project states what the hard parts of p2engine compute, as Dafny classes and methods that follow
the C and C++ code statement by statement, and proves of them what the code's comments, its debug
checks and the standards it implements promise. `dafny verify dfyconfig.toml` checks all of it.

**DEFLATE** (`src/puff.cpp`; RFC 1951). `Puff` holds the decoder's state as a class, with both decode loops, the table
construction, the copies and the block loop. `Inflate` says what the decoder should return for any bit string,
`Deflate`, `DeflateBlocks` and `DeflateStream` define a reference encoder for stored, fixed and dynamic blocks, and
`Rfc1951` ties the tables, orders and headers to the standard. Main results: the canonical code is decoded exactly and
the fast decoder agrees with the slow one; construct decides the Kraft sum; decompression succeeds exactly on
encodings (`DecompressAcceptsExactlyEncodings`), and measuring predicts writing.

**Allocator** (`p2engine/nedmalloc/malloc.c.h`, the mspace functions, word sizes 4 and 8). `MSpace` holds one segment
with its head words, feet, bins, tries, bin maps, designated victim and top. Every malloc and free keeps what
`do_check_malloc_state` and `traverse_and_check` test: chunks, tags, alignment, bin maps, and the links of the small
rings and of the tries. What malloc hands out is the chunk the code's order of choice demands, the rest of it goes
where the code puts it, and null is returned only when nothing in the segment fits. `BinMaps`, `SizeBins`, `SizeTrie`
and `BestFit` carry the bit tricks and what a best fit is; `SmallRings` links and unlinks small chunks, and
`TrieLinks`, `TrieUnlink`, `TreeBins` and `TreeSearch` insert, unlink and search tree chunks, link by link, as
`MSpace` uses them; `BoundaryTags`, `HeapBins` and `Heap` have the moves between chunks, bins and clients.

**Signals** (`src/fssignal.cpp`, `p2engine/fssignal.hpp`). `Signals` is the state machine of nested emissions, one
step per visited node, with slots that may bind, disconnect, pop, emit or destroy trackables at any time;
`SignalSystem` does the same with loops over the lists. `SignalInvariant`, `SignalPops` and `SignalRuns` prove what
every run keeps and which slots are called.

**Unicode** (`src/convertutf.cpp`, `src/utf8.cpp`). `ConvertUtf` has the six converters with their index arithmetic,
`Conversion` the meaning of a converter as repeated steps, with the laws of piecewise calls, `UtfBits` the marks,
masks and shifts of the code as arithmetic, `Transcoding` and `UnicodeFacts` the relation to the encodings of section
3.9 of the Unicode Standard, `LenientUtf16` what becomes of unpaired surrogates, `Utf32Writers` what strict and
lenient calls write for any values, and `StopReasons` why the readers stop.

**Operation queue** (`p2engine/operation_queue.hpp`). `OperationQueue` relinks next pointers; `OpQueue` says on lists
what that does and proves conservation and order for all runs.

**Packet bit fields** (`p2engine/packet_format_def.hpp`, `p2engine/io.hpp`). `BitFields` proves shift, mask and offset
arithmetic right for any layout that fits; `Packets` applies it to two formats.

**Timer** (`p2engine/timer.hpp`, `p2engine/operation_mark.hpp`, `p2engine/wrappable_integer.hpp`). `Timer` proves when
a completion counts as cancelled under wrapping stamps.

Where the code differs from what its own comments say, or from what one may expect, the models follow the code:

- The comment above `construct` assumes lengths 0 to 15 and says `dynamic` assures it. With an empty
  code-length code `dynamic` stores decode's -9 instead (`BlockOutOfBounds`, `PromiseBrokenIffEmpty`,
  `EmptyCodeLeavesBounds`). The model ends there, with the result `OUT_OF_BOUNDS`, before the code would index
  with that value.
- `isLegalUTF8` accepts ED or F4 before a second byte below 80 (`LegalIsWellFormedOrLoose`,
  `LooseBytesAreAccepted`). Every theorem on UTF-8 input says which part holds for such bytes too.
- The strict converter from UTF-32 to UTF-16 skips a value above 10FFFF and goes on; the one to UTF-8 writes
  U+FFFD and goes on. Both report sourceIllegal at the end of that call, and a later call forgets it
  (`Utf32ToUtf8CallsAddUp`, `Utf32ToUtf16CallsAddUp`).
- Operations finished together are completed last first (`CompletedInOrderIffOne`).
- The x86 GNU variant of `compute_tree_index` cuts the size to 32 bits (`GnuIndexAgrees`); the model uses the
  portable variant, and both agree on every size below two to the fortieth.
- A wait outstanding over more than half a turn plus one cancels can fire (`TooManyCancels`); with fewer it never
  does (`NoFiringAcrossACancel`).
- Outside emissions `pop_front_slot` and `pop_back_slot` take two nodes off the list and disconnect one slot
  (`PopKeepsInvIff`, `PopLosesASlot`); during one they do what their names say (`PopDisconnectsOne`).
- The static assertion on bit fields bounds where a field begins in its unit and not where it ends; what it lets through
  fits exactly when no shift is negative (`AcceptedFitsIff`, `AcceptedMayOverrun`).

## Model

| member | source | states |
|---|---|---|
| HuffmanTables.CountLengths | src/puff.cpp:337-340 | after the loop every count is the number of symbols of that length |
| HuffmanTables.CheckCodeSpace | src/puff.cpp:345-350 | the code-space check is negative exactly when the Kraft sum exceeds 1, and otherwise returns the code space left over |
| HuffmanTables.PlaceSymbols | src/puff.cpp:353-363 | the symbol table becomes the coded symbols sorted by length and then by symbol, and no offset leaves its slice |
| HuffmanTables.Construct | src/puff.cpp:329-367 | zero for a code without symbols; otherwise negative, zero or positive exactly as the Kraft sum is over, equal to or under 1; when not negative the tables describe the canonical code |
| Huffman.LeftIsKraft | src/puff.cpp:345-349 | the running count of unused codes is two to the length minus the Kraft sum so far, for every length |
| Huffman.TableSorted | src/puff.cpp:356-363 | the symbol table ascends strictly in (length, symbol), so the counting sort is stable |
| Huffman.TableHoldsCodedSymbols | src/puff.cpp:360-363 | the symbol table holds exactly the symbols of non-zero length |
| Huffman.PrefixFree | src/puff.cpp:296-367 | no code word of a code that is not over-subscribed is a prefix of another |
| Huffman.DecodeOfWord | src/puff.cpp:227-247 | decoding a symbol's canonical code word (section 3.2.2 of RFC 1951) followed by anything gives that symbol and leaves exactly what followed |
| Huffman.WordOfDecode | src/puff.cpp:227-247 | a decoded symbol's code word is exactly the bits that were consumed |
| Huffman.CompleteIffAlwaysDecodes | src/puff.cpp:304-310 | a code without over-subscription has Kraft sum 1 if and only if decoding never fails with -9, the promise of construct's comment |
| Huffman.EmptyNeverDecodes | src/puff.cpp:341-342 | the empty code, for which construct returns zero, never decodes a symbol |
| Puff.State.ReadBits | src/puff.cpp:121-139 | takes the next bits in stream order, least significant first, or reports out of input exactly when too few are left |
| Puff.State.DecodeSlow | src/puff.cpp:227-247 | the bit-at-a-time decoder returns what the canonical code says, -9 or out of input, and leaves exactly the bits after the code |
| Puff.State.Decode | src/puff.cpp:255-294 | the buffered decoder meets the same specification from every state, so it agrees with the slow one in result and in the bits left; on -9 the buffer keeps its old bits, as in the code |
| Puff.BitsDecideState | src/puff.cpp:93-105 | the bits left determine bit buffer, bit count and input position, so equal bits left mean equal states |
| Puff.State.Stored | src/puff.cpp:158-189 | a stored block is read, checked against its complement and copied, or refused, as section 3.2.4 of RFC 1951 says |
| Puff.State.CopyStored | src/puff.cpp:182-185 | the byte loop appends exactly the next bytes of the input to the output |
| Puff.State.CopyMatch | src/puff.cpp:471-480 | the overlapping copy loop appends the repetition of the last bytes at the distance, in place |
| Puff.State.Codes | src/puff.cpp:424-486 | literals, lengths, distances and end of block are carried out as the specification of section 3.2.3 says, for any two codes |
| Puff.State.Fixed | src/puff.cpp:512-547 | a fixed block is decoded with the codes of section 3.2.6 of RFC 1951 |
| Puff.FixedTables | src/puff.cpp:521-543 | the tables built for fixed blocks describe the code of section 3.2.6 |
| Puff.State.ReadHeader | src/puff.cpp:647-649 | the three counts of a dynamic header are read from its first 14 bits |
| Puff.State.ReadCodeLengthCode | src/puff.cpp:654-657 | the lengths of the code-length code arrive in the permuted order, which `Rfc1951.CodeLengthOrder` spells out, and the rest are zero |
| Puff.State.RepeatLengths | src/puff.cpp:672-687 | the three repeat instructions append the repetition they stand for, or return -5 or -6 |
| Puff.State.ReadLengths | src/puff.cpp:664-688 | the run-length coded lengths are read as specified; with an empty code-length code every length stored is the error -9 |
| Puff.State.Dynamic | src/puff.cpp:633-702 | a dynamic block is decoded as section 3.2.7 of RFC 1951 says, with each of the errors -3 to -10 exactly where the code returns it |
| Puff.State.AllBlocks | src/puff.cpp:773-781 | the block loop ends at the last block or at the first block that does not succeed |
| Puff.Puff | src/puff.cpp:747-790 | for every input: the return code, the output and both reported lengths are those of the specification, and the lengths are untouched for positive codes |
| Inflate.FixedLiteralsComplete | src/puff.cpp:526-534 | the fixed literal code has Kraft sum exactly 1 |
| Inflate.FixedDistancesFit | src/puff.cpp:537-539 | the fixed distance code is usable but incomplete |
| Inflate.StoredBlock | src/puff.cpp:167-180 | the specification of a stored block on bits is the byte-wise check of the code |
| Inflate.CodesStep | src/puff.cpp:447-486 | which code word makes the decoding of data go on, end, or stop, with -9 for a symbol without a meaning and -10 for a distance before the start |
| Deflate.CodesOfTokens | src/puff.cpp:424-486 | decoding the encoding of any legal token list gives its LZ77 expansion and leaves exactly what followed |
| Deflate.TokensOfCodes | src/puff.cpp:424-486 | whatever decodes successfully is the encoding of some legal token list with that expansion |
| DeflateBlocks.CodeOfSent | src/puff.cpp:654-657 | reading back the transmitted lengths of the code-length code gives the code they were sent for |
| DeflateBlocks.LengthsOfInstrs | src/puff.cpp:664-688 | decoding any legal list of length instructions gives the lengths it expands to |
| DeflateBlocks.InstrsOfLengths | src/puff.cpp:664-688 | lengths that were read successfully are the expansion of some legal instruction list |
| DeflateBlocks.HeaderRoundTrip | src/puff.cpp:633-702 | decoding an encoded dynamic header continues with exactly the two codes it describes |
| DeflateBlocks.HeaderOfBits | src/puff.cpp:633-702 | a dynamic block that decodes begins with the encoding of a legal header |
| DeflateBlocks.StoredRoundTrip | src/puff.cpp:158-189 | decoding an encoded stored block, with any padding bits, gives its data |
| DeflateStream.BlocksRoundTrip | src/puff.cpp:773-781 | decoding the encoding of any legal list of stored, fixed and dynamic blocks succeeds, gives its expansion and leaves exactly what followed |
| DeflateStream.DecompressAcceptsExactlyEncodings | src/puff.cpp:747-790 | decompression succeeds with some output and some rest if and only if the source is an RFC 1951 encoding of blocks with that expansion, followed by that rest, that fits the output |
| DeflateStream.EncodingsAreUnambiguous | src/puff.cpp:747-790 | two encodings in one source have the same expansion and end at the same bit |
| InflateFacts.ScanPredictsWrite | src/puff.cpp:716-719 | counting without a destination returns the code and lengths of writing when the room suffices, and code 1 is returned exactly when it does not |
| InflateFacts.ExpansionIsBounded | src/puff.cpp:447-482 | no input expands to more than 1032 times its length |
| InflateFacts.CopyRepeats | src/puff.cpp:471-478 | every copied byte equals the byte one distance before it in the result, also where the copy overlaps itself |
| InflateFacts.EveryMatchHasAToken | src/puff.cpp:431-444 | the length and distance tables cover every length 3 to 258 and every distance 1 to 32768 |
| InflateFacts.BlockOutOfBounds | src/puff.cpp:661-671 | an error code reaches the length array, against the promise of lengths 0 to 15, exactly when the code-length code is empty and the input is long enough |
| InflateFacts.PromiseBrokenIffEmpty | src/puff.cpp:317-319 | whether some continuation of the input breaks that promise depends exactly on whether the code-length code is empty |
| InflateFacts.EmptyCodeLeavesBounds | src/puff.cpp:659-671 | a concrete stream on which the promise is broken |
| Rfc1951.CodesFollow | src/puff.cpp:353-363 | of two coded symbols that follow each other by length and symbol, the second's code is the first's plus one, with as many zeroes behind as it is longer, as section 3.2.2 of RFC 1951 counts them |
| Rfc1951.FirstCodeIsZero | src/puff.cpp:353-363 | and the first symbol's code is zero |
| Rfc1951.LengthCodes | src/puff.cpp:431-436 | the length bases begin at 3 and each range of a base and its extra bits ends where the next begins; 258 has a code of its own |
| Rfc1951.LengthExtra | src/puff.cpp:434-436 | four length codes share each number of extra bits, from none on |
| Rfc1951.DistanceCodes | src/puff.cpp:437-440 | the distance bases begin at 1 and their ranges follow each other too |
| Rfc1951.DistanceExtra | src/puff.cpp:441-444 | two distance codes share each number of extra bits |
| Rfc1951.FixedLiteralCodes | src/puff.cpp:526-534 | the lengths and the code words of all 288 fixed literal symbols are those of the table in section 3.2.6 of RFC 1951 |
| Rfc1951.FixedDistanceCodes | src/puff.cpp:537-539 | a fixed distance symbol is its own number in five bits |
| Rfc1951.HeaderCounts | src/puff.cpp:647-649 | five, five and four bits of a dynamic header hold the counts less 257, 1 and 4 |
| Rfc1951.CodeLengthOrder | src/puff.cpp:643-657 | for each of the 19 symbols, which three of the bits read are its length, symbol by symbol, and zero if they were not sent |
| Rfc1951.RepeatCodes | src/puff.cpp:669-688 | what each symbol of the code-length code appends, 16 the last length 3 to 6 times, 17 and 18 zeroes 3 to 10 and 11 to 138 times, and when it is refused with -5 or -6 |
| Rfc1951.DynamicErrors | src/puff.cpp:650-698 | which dynamic blocks are refused before their data and with which of -3, -4, -7 and -8; only a single code may be incomplete |
| Rfc1951.BlockHeader | src/puff.cpp:773-779 | the mark of the last block and the two bits of its kind, for all three kinds |
| Rfc1951.ReservedKind | src/puff.cpp:779-780 | the fourth kind is refused with -1 after three bits |
| Rfc1951.StoredHeader | src/puff.cpp:167-174 | length and complement are two bytes each, the lower one first |
| Rfc1951.KnownStream | src/puff.cpp:747-790 | ten bytes, with an overlapping match whose length and distance have extra bits, decode to the eighteen bytes that the standard gives them |
| SignalSystem.System.DisconnectConn | src/fssignal.cpp:8-28 | disconnecting clears the slot's signal, takes it off every trackable that lists it and off its signal's list, or only empties its node while the signal is emitting; nothing if not connected |
| SignalSystem.System.DisconnectWithoutCallback | src/fssignal.cpp:151-162 | outside emissions exactly the connection's node leaves the list, the rest in order; during one no node leaves or moves, only that one is emptied, and erasure is pending; other signals stay as they are |
| SignalSystem.System.Track | src/fssignal.cpp:30-42 | a connection is linked with a trackable once only |
| SignalSystem.System.BindSlot | p2engine/fssignal.hpp:501-513 | the new slot is last in the list, connected, and linked with each distinct trackable among its arguments; no other connection, list or link changes |
| SignalSystem.System.DisconnectAllSlots | src/fssignal.cpp:51-77 | both loops disconnect every slot of the signal and terminate |
| SignalSystem.System.PopFrontSlot | src/fssignal.cpp:79-112 | both branches do what the state machine's pop does, and the call is reported as undefined exactly where an empty list is popped |
| SignalSystem.System.PopBackSlot | src/fssignal.cpp:113-150 | the same from the other end |
| SignalSystem.System.ClearPendingErase | src/fssignal.cpp:163-186 | the erasing loop keeps exactly the connected nodes, in order |
| SignalSystem.System.DestroyTrackable | p2engine/fssignal.hpp:384-388 | the destructor's loop terminates and disconnects exactly the listed connections |
| SignalSystem.System.StartEmit | p2engine/fssignal.hpp:580-582 | an emission counts itself and starts at the front of the list |
| SignalSystem.System.Continue | p2engine/fssignal.hpp:583-591 | the loop goes on to its next call of a slot or to the end of the emission, whichever the state machine reaches first |
| SignalSystem.System.SlotReturned | p2engine/fssignal.hpp:588-590 | after a slot the loop moves on, or ends if only the first slot was to be called |
| SignalSystem.System.FinishEmit | p2engine/fssignal.hpp:592-594 | the outermost emission of a signal erases what is pending, an inner one does not |
| SignalInvariant.DisconnectKeepsInv | src/fssignal.cpp:8-28 | disconnecting keeps the links of connections, trackables and signal lists mutual and every emission's position valid; that connection and no other is disconnected |
| SignalInvariant.DisconnectAllKeepsInv | src/fssignal.cpp:51-77 | the same for disconnecting all; afterwards no slot of the signal is connected, and outside emissions its list is empty |
| SignalPops.PopDisconnectsOne | src/fssignal.cpp:83-94 | during an emission a pop disconnects the oldest, or the newest, slot of the signal that is connected and no other, and with none it changes nothing |
| SignalPops.PopKeepsInvIff | src/fssignal.cpp:79-150 | a pop keeps the invariant if and only if the signal is emitting or its list is empty; outside emissions an empty list is popped exactly when there was one slot |
| SignalInvariant.DestroyKeepsInv | p2engine/fssignal.hpp:384-388 | the same for destroying a trackable, whose list is empty afterwards |
| SignalInvariant.BindKeepsInv | p2engine/fssignal.hpp:501-513 | the same for binding, also in the midst of emissions; exactly one connection is new, last in its list, and its trackables list it |
| SignalInvariant.EndKeepsInv | p2engine/fssignal.hpp:592-594 | the same for the end of an emission, with its deferred erasures |
| SignalInvariant.AdvanceKeepsInv | p2engine/fssignal.hpp:583-591 | the same for each step of the emission loop |
| SignalRuns.RunsKeepInv | p2engine/fssignal.hpp:575-607 | the invariant holds after every run of any operations, nested in slots to any depth |
| SignalRuns.CallIsSafe | p2engine/fssignal.hpp:583-591 | on every run a slot that is called is connected to the emitting signal, was not called before by this emission, comes after all that were, and all its trackables are alive |
| SignalRuns.WalkFindsFirst | p2engine/fssignal.hpp:583-591 | between two calls the loop passes over disconnected slots only: it calls the first connected one, or ends if there is none |
| SignalRuns.WalkIsRun | p2engine/fssignal.hpp:583-591 | what the loop reaches between two calls is a run of single steps, so everything proved of runs applies to it |
| SignalRuns.EmissionCallsAll | p2engine/fssignal.hpp:583-591 | an emission that has walked its list has called, in bind order, every slot still connected, also those bound meanwhile |
| SignalRuns.FrontCallsOne | p2engine/fssignal.hpp:589-589 | an emission to the first slot calls exactly one, before which none is connected when it returns |
| SignalRuns.EmissionFromStart | p2engine/fssignal.hpp:575-610 | from the call of an emission on, through any run in which it has not ended, it is for that signal and of the kind it was called as; one to the first slot has called at most one |
| SignalRuns.EmissionEnds | p2engine/fssignal.hpp:583-594 | it ends exactly when the one slot of an emission to the first slot returns, or when it has walked its list |
| SignalRuns.FirstSlotOnly | p2engine/fssignal.hpp:607-610 | a concrete run: of two slots bound, an emission to the first slot calls slot 0 and ends when that returns |
| SignalRuns.BothSlots | p2engine/fssignal.hpp:575-594 | a concrete run: an emission to all calls slot 0, then slot 1, and ends behind the list |
| SignalRuns.QuietIsClean | src/fssignal.cpp:163-186 | outside all emissions every list holds connected slots only and nothing is pending |
| SignalRuns.ClearPendingAsserts | src/fssignal.cpp:163-175 | the two debug assertions of clear_pending_erase hold in every reachable state |
| SignalRuns.DeadTrackablesAreNotCalled | p2engine/fssignal.hpp:384-388 | a slot bound to a trackable that is gone is disconnected in every reachable state |
| SignalRuns.NodesStayThroughout | src/fssignal.cpp:151-162 | as long as a signal keeps emitting, no run removes or reorders a node of its list |
| SignalRuns.DisconnectedIsNeverCalled | src/fssignal.cpp:8-28 | once disconnected, a slot stays disconnected and is not called on any run |
| SignalRuns.PopLosesASlot | src/fssignal.cpp:97-110 | two concrete runs: with one slot an empty list is popped, and with two the slot that was not popped counts as connected but is in no list |
| SizeBins.IndexIsRange | p2engine/nedmalloc/malloc.c.h:3073-3148 | the bin index of a size is the bin whose minimum size is at most, and whose successor's minimum is above, the size |
| SizeBins.RangeIsIndex | p2engine/nedmalloc/malloc.c.h:3073-3148 | conversely the range of sizes decides the index |
| SizeBins.GnuIndexAgrees | p2engine/nedmalloc/malloc.c.h:3073-3090 | the x86 GNU variant, which cuts the size to 32 bits first, agrees with the others exactly when the size over 256 fits 32 bits or its low 32 bits reach the last bin's threshold |
| BinMaps.MarkSetsOneBit | p2engine/nedmalloc/malloc.c.h:3157-3161 | marking a bin sets its bit and no other |
| BinMaps.ClearDropsOneBit | p2engine/nedmalloc/malloc.c.h:3158-3162 | clearing a bin drops its bit and no other |
| BinMaps.LeastBitIsFirst | p2engine/nedmalloc/malloc.c.h:3165-3166 | x and -x is the lowest bit set, and its index is the first marked bin |
| BinMaps.LeftBitsAreLater | p2engine/nedmalloc/malloc.c.h:3168-3169 | the mask of bits left of a bin's bit is exactly the later bins, with the wrap of the negation |
| BinMaps.FirstLaterBin | p2engine/nedmalloc/malloc.c.h:4643-4647 | the three tricks together find the first marked bin after a given one, or zero if there is none |
| BinMaps.TwoBins | p2engine/nedmalloc/malloc.c.h:5487-5492 | the two tests on the shifted small map decide whether the exact bin or its successor is marked, and which |
| SizeTrie.InsertAdds | p2engine/nedmalloc/malloc.c.h:3903-3952 | inserting keeps every size on its bit path and distinct, and adds exactly one chunk |
| SizeTrie.RemoveTakesOne | p2engine/nedmalloc/malloc.c.h:3971-4040 | unlinking keeps the trie and takes exactly one chunk, from a ring or from a node |
| SizeTrie.InsertIsSecond | p2engine/nedmalloc/malloc.c.h:3931-3946 | a chunk of a size that is there comes right behind the one in the tree; the rings of all other sizes stay |
| SizeTrie.RemoveKeepsRings | p2engine/nedmalloc/malloc.c.h:3971-3984 | a chunk leaves its ring as a link leaves a circle, the last taking the place of the first; the rings of all other sizes stay |
| SizeTrie.TakeLeafGoesRight | p2engine/nedmalloc/malloc.c.h:3985-3995 | the leaf that replaces a node is in its right subtree if there is one, at every level, and the rings of other sizes stay |
| SizeTrie.DropNodeDrops | p2engine/nedmalloc/malloc.c.h:3980-3995 | replacing a node by its rightmost leaf keeps the trie, because a leaf fits every bit path above it |
| SizeTrie.DepthIsBounded | p2engine/nedmalloc/malloc.c.h:3562-3610 | a trie over sizes of w bits is at most w + 1 deep |
| SizeTrie.KeyPicksHalf | p2engine/nedmalloc/malloc.c.h:3918-3922 | the top bit of the shifting key picks the half of the size range that holds the size, at every level |
| TrieLinks.PutInserts | p2engine/nedmalloc/malloc.c.h:3916-3946 | linking a chunk at the place its size decides, as a child or behind the first of a ring, makes the pointers spell the trie with that chunk inserted |
| TrieUnlink.CutLeaf | p2engine/nedmalloc/malloc.c.h:3987-3998 | cutting the link to the leaf that the loop finds leaves the pointers of the trie without that leaf |
| TrieUnlink.HookSpells | p2engine/nedmalloc/malloc.c.h:4012-4035 | with x's parent and children hooked on, the replacement and its ring are linked as the new subtree |
| TrieUnlink.ReplaceBelow | p2engine/nedmalloc/malloc.c.h:4001-4035 | a subtree replaced in memory, with the one link to it changed, is replaced in the whole trie and nothing else is |
| TreeBins.TreeBins.constructor | p2engine/nedmalloc/malloc.c.h:4169-4176 | all bins are empty |
| TreeBins.TreeBins.LinkAtPlace | p2engine/nedmalloc/malloc.c.h:3916-3946 | the walk by the key's top bit ends at the place the sizes decide and sets exactly its links |
| TreeBins.TreeBins.InsertLargeChunk | p2engine/nedmalloc/malloc.c.h:3903-3952 | the pointers then spell the trie with one chunk more: sizes on their bit paths, parent, child and ring links mutual, the bin marked, every other bin as it was |
| TreeBins.TreeBins.CutLeafOff | p2engine/nedmalloc/malloc.c.h:3985-3998 | the loop finds the rightmost leaf below and cuts its link; nothing if there are no children |
| TreeBins.TreeBins.TakePlace | p2engine/nedmalloc/malloc.c.h:4001-4036 | parent link, bin header and child links pass to the replacement |
| TreeBins.TreeBins.UnlinkLargeChunk | p2engine/nedmalloc/malloc.c.h:3971-4040 | the pointers then spell the trie with that chunk less, in each case: inside a ring, first of a ring, leaf, or node replaced by a leaf; the bin's mark goes exactly with its last chunk |
| SmallRings.SmallBins.constructor | p2engine/nedmalloc/malloc.c.h:4169-4176 | each header linked to itself spells an empty ring, and no bin is marked |
| SmallRings.SmallBins.InsertSmallChunk | p2engine/nedmalloc/malloc.c.h:3830-3846 | the four link writes, with the stale links of an unmarked bin left unread, spell the ring with the chunk in front, and every other ring is spelled as before |
| SmallRings.SmallBins.UnlinkSmallChunk | p2engine/nedmalloc/malloc.c.h:3849-3866 | the two link writes spell the ring without the chunk; the mark goes exactly when both neighbours are the same, which is when it was the last |
| SmallRings.SmallBins.UnlinkFirstSmallChunk | p2engine/nedmalloc/malloc.c.h:3869-3881 | the same for the chunk behind the header, which is the first of the ring |
| SmallRings.RingChecks | p2engine/nedmalloc/malloc.c.h:3525-3544 | in a ring that is spelled the neighbours of each chunk point back to it and are the header or chunks of the ring, and the header of a marked bin never points to itself |
| BestFit.StartKey | p2engine/nedmalloc/malloc.c.h:3140-3143 | the shift chosen for a bin puts the first deciding bit of a size on top |
| BestFit.BinsAreOrdered | p2engine/nedmalloc/malloc.c.h:3146-3148 | sizes in an earlier bin are smaller than sizes in a later one |
| TreeSearch.Descend | p2engine/nedmalloc/malloc.c.h:4619-4641 | the walk down the linked cells of the request's own bin leaves the least fitting size either found or in the last right subtree passed by |
| TreeSearch.WalkLeft | p2engine/nedmalloc/malloc.c.h:4652-4659 | the walk along leftmost links ends with a chunk of the least size that fits |
| TreeSearch.Narrow | p2engine/nedmalloc/malloc.c.h:4618-4650 | with the request's bin exhausted, the next marked bin holds the least fitting size if any does |
| TreeSearch.SearchLarge | p2engine/nedmalloc/malloc.c.h:4613-4659 | the search of all linked bins finds the least size of at least the request, or nothing exactly if there is none; the remainder wraps as in the code |
| TreeSearch.SearchSmall | p2engine/nedmalloc/malloc.c.h:4684-4699 | the search for a small request finds the least size in all linked bins |
| BoundaryTags.UseWholeOk | p2engine/nedmalloc/malloc.c.h:3295-3298 | handing out a whole free chunk keeps heads, feet and neighbour bits in agreement and changes one chunk from free to used |
| BoundaryTags.SplitUseOk | p2engine/nedmalloc/malloc.c.h:4668-4674 | splitting a free chunk keeps them too and leaves the remainder free |
| BoundaryTags.SplitTopOk | p2engine/nedmalloc/malloc.c.h:5566-5572 | carving from top keeps them too |
| BoundaryTags.JoinOk | p2engine/nedmalloc/malloc.c.h:2556-2563 | joining up to the next used chunk keeps them too, leaving one free chunk |
| BoundaryTags.JoinTopOk | p2engine/nedmalloc/malloc.c.h:5663-5673 | joining into top keeps them too |
| BoundaryTags.ChunksAreAligned | p2engine/nedmalloc/malloc.c.h:3478-3508 | every chunk begins at a multiple of 8, as the checks assert |
| HeapBins.InsertChunkAdds | p2engine/nedmalloc/malloc.c.h:4044-4046 | inserting a chunk keeps every map bit equal to its bin being non-empty and adds exactly one chunk to the bins |
| HeapBins.UnlinkChunkDrops | p2engine/nedmalloc/malloc.c.h:4048-4050 | unlinking keeps them too and takes exactly that chunk |
| HeapFits.RequestIsLeast | p2engine/nedmalloc/malloc.c.h:2499-2508 | a request is padded to the least aligned chunk size that holds it, and it is small exactly below 256 |
| HeapFits.SizesInBytes | p2engine/nedmalloc/malloc.c.h:2489-2500 | the values of the size constants with words of 4 and of 8 bytes |
| HeapFits.BestOfTries | p2engine/nedmalloc/malloc.c.h:4613-4719 | the best chunk of the tries is no larger than any chunk that fits, in whatever bin it lies |
| MSpace.Space.constructor | p2engine/nedmalloc/malloc.c.h:4154-4176 | a new space is one top chunk, from the first address whose memory is aligned, and empty bins |
| MSpace.Space.InsertSmallChunk | p2engine/nedmalloc/malloc.c.h:3830-3846 | map bits and ring links stay exact and exactly that chunk is added to the bins, at the front of the ring of its size |
| MSpace.Space.UnlinkSmallChunk | p2engine/nedmalloc/malloc.c.h:3849-3866 | map bits and ring links stay exact and exactly that chunk leaves the bins |
| MSpace.Space.InsertLargeChunk | p2engine/nedmalloc/malloc.c.h:3903-3952 | map bits and links stay exact and exactly that chunk is added to the bins |
| MSpace.Space.UnlinkLargeChunk | p2engine/nedmalloc/malloc.c.h:3971-4040 | map bits and links stay exact and exactly that chunk leaves the bins |
| MSpace.Space.ReplaceDv | p2engine/nedmalloc/malloc.c.h:3889-3898 | the chunk in hand becomes the designated victim; if there was one before, exactly that is added to the bins, and otherwise they stay as they are; nothing else changes |
| MSpace.Space.TmallocLarge | p2engine/nedmalloc/malloc.c.h:4613-4681 | hands out the first chunk of a best fit that is strictly tighter than the designated victim; the rest goes to its bin and the victim stays; or nothing and no change exactly where the victim fits at least as tightly or nothing fits |
| MSpace.Space.TmallocSmall | p2engine/nedmalloc/malloc.c.h:4684-4719 | hands out the first of the smallest tree chunks for a small request; a rest that is large enough becomes the designated victim, and the old victim goes to its bin |
| MSpace.Space.Malloc | p2engine/nedmalloc/malloc.c.h:5478-5587 | keeps the whole heap invariant; what is handed out was free, is aligned to 8, and is the chunk the order demands: for small requests the exact bin or its successor if marked, else the designated victim if large enough, otherwise the least chunk that fits, the victim before others of its size, and top only when none fits; exactly the padded request is taken off it, or all of it when the rest would be no chunk, and nothing else in use changes; null only for a request too large or when neither bins, designated victim nor top can serve it, and then nothing changes; in every case the rest is where the code puts it: of the victim it stays the victim, of top it stays top, of a binned chunk it becomes the victim for a small request and goes to its bin for a large one, and the bins change by nothing else |
| MSpace.Space.Free | p2engine/nedmalloc/malloc.c.h:5615-5715 | keeps the whole heap invariant, so no two free neighbours remain; exactly the given chunk leaves those in use, and joined with its free neighbours it is top if top is behind it, the designated victim if that is one of them, and else in its bin; the bins change by nothing else, and a victim joined to top is given up |
| HeapFree.SpanOk | p2engine/nedmalloc/malloc.c.h:5633-5701 | what a free joins are the chunk and its free neighbours and no others |
| HeapFacts.HeldChunksAreApart | p2engine/nedmalloc/malloc.c.h:3684-3712 | chunks in use lie inside the segment and do not overlap |
| HeapFacts.ChunksTile | p2engine/nedmalloc/malloc.c.h:3684-3712 | every address of the segment lies in exactly one chunk |
| HeapFacts.NothingHeldIsOneChunk | p2engine/nedmalloc/malloc.c.h:3684-3742 | when everything has been freed, in any order, the space is one top chunk again with empty bins |
| HeapFacts.ClientsMayWrite | p2engine/nedmalloc/malloc.c.h:3548-3559 | a client may overwrite the foot field at the end of its chunk and the invariant still holds |
| OperationQueue.OperationQueue.Enqueue | p2engine/operation_queue.hpp:35-58 | the operation is linked last in its descriptor's chain; true exactly if the chain is new |
| OperationQueue.OperationQueue.Cancel | p2engine/operation_queue.hpp:65-80 | the whole chain moves to the front of the cancelled list |
| OperationQueue.OperationQueue.Perform | p2engine/operation_queue.hpp:96-131 | a finished first operation moves to the complete list, an unfinished one is put back where it was; the result says whether any are left |
| OperationQueue.OperationQueue.PerformAll | p2engine/operation_queue.hpp:134-159 | for any answers of the operations: they are taken from the front as long as they answer done and move to the complete list, one on top of the other; the first that does not is put back in front, and without one the entry is erased |
| OperationQueue.OperationQueue.PerformCancellations | p2engine/operation_queue.hpp:214-224 | every cancelled operation moves to the complete list, reversing their order |
| OperationQueue.OperationQueue.CompleteOperations | p2engine/operation_queue.hpp:227-236 | every complete operation is called once, in the list's order, and the list is empty |
| OperationQueue.OperationQueue.Destroy | p2engine/operation_queue.hpp:239-271 | the cancelled, the complete and every chained operation are freed, each once |
| OperationQueue.MoveToComplete | p2engine/operation_queue.hpp:109-116 | relinking one operation keeps every chain and list acyclic, disjoint and null-ended |
| OperationQueue.ChainToCancelled | p2engine/operation_queue.hpp:70-79 | the same for moving a whole chain |
| OpQueue.InitIsFine | p2engine/operation_queue.hpp:35-58 | a queue without operations meets the invariant of RunsKeep |
| OpQueue.RunsKeep | p2engine/operation_queue.hpp:35-271 | on every run the chains, the cancelled list and the complete list are disjoint and hold exactly the operations enqueued and not yet gone, and each descriptor's finished and waiting operations are its enqueued ones in order, less the cancelled |
| OpQueue.EachLeavesOnce | p2engine/operation_queue.hpp:227-271 | no operation leaves the queue twice, on any run |
| OpQueue.DestroyingFreesAll | p2engine/operation_queue.hpp:239-271 | after destruction exactly the operations ever enqueued are gone |
| OpQueue.PerformIsOneOfAll | p2engine/operation_queue.hpp:96-159 | performing one operation, whichever it answers, is performing all when the first answers the same and no other is done |
| OpQueue.Finishing | p2engine/operation_queue.hpp:134-159 | how many of a chain are done: those before all answer that they are, and the next, if there is one, that it is not |
| OpQueue.StepMoves | p2engine/operation_queue.hpp:35-271 | where each step of a run moves operations, to which end of which list and in which order |
| OpQueue.GatheredInReverse | p2engine/operation_queue.hpp:109-159 | over any such run the complete list is a stack: what finished, last first, on top of what was there |
| OpQueue.CompletedInOrderIffOne | p2engine/operation_queue.hpp:109-116 | operations that finish in any run of enqueueing, performing and cancelling, for any descriptors, are completed last first: in the order of finishing exactly when at most one did |
| BitFields.GetIsValue | p2engine/packet_format_def.hpp:1643-1666 | shift and mask give the value of the field's slice of the unit read as a big-endian bit string |
| BitFields.SetIsSplice | p2engine/packet_format_def.hpp:1668-1722 | the masked write replaces exactly that slice by the value's low bits |
| BitFields.ReadBackIsLow | p2engine/packet_format_def.hpp:1643-1722 | what is read after a write is the value modulo two to the field's width |
| BitFields.ReadNetBits | p2engine/io.hpp:68-85 | reading a unit in network order is reading its bytes as one big-endian bit string |
| BitFields.FieldsFollow | p2engine/packet_format_def.hpp:1599-1627 | in any layout that fits, each field begins at the bit where the one before ended, and its unit, found by the two divisions, holds it |
| BitFields.FieldsAreApart | p2engine/packet_format_def.hpp:791-805 | the bits of distinct fields do not overlap |
| BitFields.AcceptedFitsIff | p2engine/packet_format_def.hpp:801-806 | a layout that passes the static assertion fits exactly when no field has a negative shift, that is, none goes over the end of its unit; one that fits passes exactly when no field of no bits begins behind its unit |
| BitFields.AcceptedMayOverrun | p2engine/packet_format_def.hpp:801-806 | a concrete layout that passes the assertion and overruns its unit |
| BitFields.GetBitField | p2engine/packet_format_def.hpp:1643-1666 | reads the value of the slice of the whole buffer, any offset and width in the unit |
| BitFields.SetBitField | p2engine/packet_format_def.hpp:1668-1722 | replaces the slice of the whole buffer and no other bit |
| BitFields.Get | p2engine/packet_format_def.hpp:754-766 | the accessor of a field of any layout reads that field's slice |
| BitFields.Set | p2engine/packet_format_def.hpp:754-766 | the accessor writes the value's low bits, no bit outside the field, and leaves every other field's slice |
| Packets.UrdpHeader | p2engine/rdp/urdp_visitor.hpp:116-122 | for any twelve bytes, which of them are which field of a urdp packet, in network order |
| Packets.NestedFields | p2engine/packet_format_def.hpp:326-328 | three fields of 2, 5 and 9 bits share two bytes from the top bit down, for any contents |
| Utf.LegalIsWellFormedOrLoose | src/convertutf.cpp:295-318 | isLegalUTF8 accepts exactly the sequences of Table 3-7 of the Unicode Standard and the loose ones, with ED or F4 before a second byte below 80; both directions |
| Utf.Read8IsScalar | src/convertutf.cpp:185-191 | additive decoding less the magic offset gives a scalar value for every accepted sequence, so the surrogate and over-maximum branches are dead |
| Utf.Encode8OfRead8 | src/convertutf.cpp:185-191 | encoding what was read gives the sequence back exactly when it is not loose |
| Utf.Write8IsEncode8 | src/convertutf.cpp:243-275 | the fall-through writes are the encoding of section 3 of RFC 3629 |
| UtfBits.TrailingByteIsMark | src/convertutf.cpp:269-272 | for every value, or-ing the mark and masking gives a trailing byte whose low six bits are the value's, and the shift is the quotient by 64 |
| UtfBits.FirstByteIsSum | src/convertutf.cpp:273-273 | the mark of a first byte shares no bit with what the shifts leave, so or-ing adds it |
| UtfBits.HalvesAreQuotients | src/convertutf.cpp:92-98 | shift and mask split a value into quotient and remainder by 1024, the halves of its surrogate pair |
| UtfBits.ShiftsUp | src/convertutf.cpp:352-361 | the shifts of the byte readers, and of the pair readers at line 127, multiply by 64 and by 1024 |
| Utf.PairWasEncoded | src/convertutf.cpp:110-163 | the value computed from a surrogate pair is the one whose encoding in section 2.1 of RFC 2781 is that pair |
| ConvertUtf.IsLegalUTF8 | src/convertutf.cpp:295-318 | the fall-through checks decide legality as specified |
| ConvertUtf.ReadBytes | src/convertutf.cpp:352-361 | the fall-through shifts and the offset compute the specified value |
| ConvertUtf.WriteBytes | src/convertutf.cpp:258-273 | the backward fall-through writes, with their marks, masks and shifts, put the bytes of the encoding and nothing else in the target |
| ConvertUtf.ConvertUTF32ToUTF16 | src/convertutf.cpp:61-106 | result, source position, target position and target contents are those of the step-by-step conversion, for every flag, source and room |
| ConvertUtf.ConvertUTF16ToUTF32 | src/convertutf.cpp:110-163 | the same, with the back-up on a full target |
| ConvertUtf.ConvertUTF16ToUTF8 | src/convertutf.cpp:214-280 | the same, with the target advanced, checked and taken back |
| ConvertUtf.ConvertUTF8ToUTF16 | src/convertutf.cpp:336-405 | the same, with the source backed up in front of a character that does not fit |
| ConvertUtf.ConvertUTF32ToUTF8 | src/convertutf.cpp:409-458 | the same; too large values become U+FFFD and leave sourceIllegal behind while the loop goes on |
| ConvertUtf.ConvertUTF8ToUTF32 | src/convertutf.cpp:462-520 | the same |
| Transcoding.TextConverts | src/convertutf.cpp:61-520 | any converter turns an encoded text into the other encoding character by character, as far as the target reaches, and says so |
| UnicodeFacts.RoundTrip32Via8 | src/convertutf.cpp:409-520 | every text in UTF-32 survives UTF-8 and back, for all flags and all targets large enough |
| UnicodeFacts.RoundTrip32Via16 | src/convertutf.cpp:61-163 | every text in UTF-32 survives UTF-16 and back |
| UnicodeFacts.RoundTripBetween8And16 | src/convertutf.cpp:214-405 | every text converts between UTF-8 and UTF-16 both ways to exactly its other encoding |
| UnicodeFacts.Utf8IsReadFaithfully | src/convertutf.cpp:462-520 | for every byte string and room, what was written are scalar values, and their encoding is the consumed prefix exactly when that has no loose bytes |
| UnicodeFacts.Utf8ToUtf16IsFaithful | src/convertutf.cpp:336-405 | the same for UTF-16: what was written is a well-formed encoding |
| UnicodeFacts.Utf8IsAcceptedIffText | src/convertutf.cpp:462-520 | a byte string without loose bytes converts with conversionOK if and only if it is the encoding of a text |
| UnicodeFacts.LooseBytesAreAccepted | src/convertutf.cpp:308-310 | a concrete ill-formed sequence that converts with conversionOK |
| UnicodeFacts.Utf16IsReadFaithfully | src/convertutf.cpp:110-280 | strict reading of UTF-16 stops between characters, and what was written is the same text as the consumed prefix |
| UnicodeFacts.Utf16IsAcceptedIffText | src/convertutf.cpp:110-163 | strict conversion accepts exactly the encodings of texts |
| Utf32Writers.StrictToUtf8 | src/convertutf.cpp:409-458 | for any values and room, a strict call takes no surrogate; it writes the UTF-8 form of what it took, with U+FFFD for what is too large; with room enough it stops in front of the first surrogate with sourceIllegal |
| Utf32Writers.StrictToUtf8IffText | src/convertutf.cpp:409-458 | with room enough it reports conversionOK if and only if the source is a text |
| Utf32Writers.LenientToUtf8 | src/convertutf.cpp:409-458 | a lenient call takes every value, and a surrogate is written as the three bytes from ED on that are not well-formed |
| Utf32Writers.StrictToUtf16 | src/convertutf.cpp:61-106 | a strict call takes no surrogate and stops in front of the first; what it writes is the UTF-16 form of what it took without the values that are too large |
| Utf32Writers.StrictToUtf16IffText | src/convertutf.cpp:61-106 | with room enough it reports conversionOK if and only if the source is a text |
| Utf32Writers.LenientToUtf16 | src/convertutf.cpp:61-106 | a lenient call takes every value and writes U+FFFD for whatever is no scalar value |
| StopReasons.Utf8StopReasons | src/convertutf.cpp:336-520 | both UTF-8 readers end a call early exactly in front of a sequence that is cut off, one that the check refuses, or one for which there is no room, with the result that says so |
| StopReasons.Utf16StopReasons | src/convertutf.cpp:110-280 | both UTF-16 readers end early in front of half a pair at the end, in strict mode of half a pair, or for want of room |
| LenientUtf16.LenientUtf16IsRead | src/convertutf.cpp:110-280 | for any unit string and room a lenient call writes, in either form, the code points of what it consumed, pairs joined and unpaired surrogates as themselves, and in UTF-32 these determine what was consumed |
| LenientUtf16.LenientWritesTextIffPaired | src/convertutf.cpp:110-280 | what a lenient call writes is a text, in UTF-32 or in UTF-8, if and only if what it consumed has no unpaired surrogate |
| LenientUtf16.LenientAcceptsIffWhole | src/convertutf.cpp:110-280 | with room enough a lenient call accepts every unit string that does not end in a high surrogate, and otherwise stops in front of that |
| LenientUtf16.StrictAgreesIffPaired | src/convertutf.cpp:110-280 | with room enough the strict and the lenient call give the same result, positions and output if and only if the lenient one consumed no unpaired surrogate |
| Conversion.CallsAddUp | src/convertutf.cpp:61-520 | for any of the converters, converting in two calls, with more source and more room at the second, gives the output of one call |
| Conversion.StopsAgain | src/convertutf.cpp:61-520 | calling again with nothing changed reports the same and does nothing |
| Conversion.OkIffAllConsumed | src/convertutf.cpp:61-520 | conversionOK exactly when all the source was consumed and nothing illegal was patched |
| UnicodeCalls.Utf8CallsAddUp | src/convertutf.cpp:336-520 | both UTF-8 readers may be called piecewise, split anywhere, with the result of one call |
| UnicodeCalls.Utf16CallsAddUp | src/convertutf.cpp:110-280 | both UTF-16 readers may be called piecewise |
| UnicodeCalls.Utf32ToUtf8CallsAddUp | src/convertutf.cpp:409-458 | piecewise calls give the same output; the sourceIllegal of one call is lost exactly when a too large value was in the first piece |
| UnicodeCalls.Utf32ToUtf16CallsAddUp | src/convertutf.cpp:61-106 | the same for the strict converter to UTF-16 |
| UnicodeCalls.BuffersSuffice | src/utf8.cpp:152-209 | a target of one unit per byte, three bytes per UTF-16 unit or four per UTF-32 unit is never exhausted |
| Utf8Wchar.Utf8Wchar32 | src/utf8.cpp:152-179 | sizing by the bytes suffices and trimming keeps exactly what was written, with wide characters of 32 bits |
| Utf8Wchar.Utf8Wchar16 | src/utf8.cpp:152-179 | the same with wide characters of 16 bits |
| Utf8Wchar.Wchar32Utf8 | src/utf8.cpp:181-209 | sizing by six bytes a character suffices, 32 bits |
| Utf8Wchar.Wchar16Utf8 | src/utf8.cpp:181-209 | the same with 16 bits |
| Utf8Wchar.WideStringSurvivesIffText | src/utf8.cpp:152-209 | a 32-bit wide string comes back unchanged from UTF-8 if and only if it holds scalar values only |
| Timer.LessIsBehind | p2engine/wrappable_integer.hpp:85-97 | a wrapped stamp is less exactly when it is behind by more than zero and less than half a turn |
| Timer.LessIsStrict | p2engine/wrappable_integer.hpp:37-97 | the order is antisymmetric, ties exactly at equality and at half a turn, and the three-way comparison agrees with it |
| Timer.RunsKeepInv | p2engine/timer.hpp:63-238 | on every run the counts match the outstanding waits and each stamp tells when its wait was begun |
| Timer.IdleHasNoLiveWait | p2engine/timer.hpp:88-91 | on every run a timer that says it is idle has no single wait outstanding that was begun after the last cancel |
| Timer.NotFiringEndsIt | p2engine/timer.hpp:186-217 | a failed or cancelled completion ends its wait, renews none and leaves the repeat counts |
| Timer.CancelStopsAll | p2engine/timer.hpp:120-217 | after cancel, until another wait is begun, no completion fires or renews a wait and the timer stays idle, on any run in which the oldest wait has seen at most half a turn plus one cancels |
| Timer.CanceledMeansCancels | p2engine/operation_mark.hpp:23-44 | on every run an outstanding wait reads as cancelled exactly if one to half a turn plus one cancels, modulo a turn, came after it |
| Timer.NoFiringAcrossACancel | p2engine/timer.hpp:186-217 | with no more than half a turn plus one cancels since a wait began, it fires exactly if there was none and no error |
| Timer.TooManyCancels | p2engine/operation_mark.hpp:41-44 | from the initial state, one wait and half a turn plus two cancels: the wait fires although every one of them cancelled it |
| Timer.KeepsWaitingThatOften | p2engine/timer.hpp:168-238 | a periodic wait, begun with or without a single wait outstanding and not disturbed later, fires exactly the number of times asked for, once if zero was asked for, and then stops |
| Timer.BasicTimer.Cancel | p2engine/timer.hpp:120-130 | no wait is waited for any more and a new stamp is in force |
| Timer.BasicTimer.AsyncWait | p2engine/timer.hpp:132-157 | a wait is counted and carries the stamp in force |
| Timer.BasicTimer.AsyncKeepWaiting | p2engine/timer.hpp:160-183 | a periodic wait replaces the counts and carries the stamp in force |
| Timer.BasicTimer.HandleTimeout | p2engine/timer.hpp:186-238 | a completion is counted, fires unless failed or cancelled, and renews a periodic wait that is not done |

## Left out

- Puff.Puff: lengths and counters are natural numbers; the wrap of 32-bit counters, reachable only with more than
  4 GB of output, is not modelled. `longjmp` is the result "needs input", the tables that `fixed` builds once are built
  for every block, and the `TEST` program is left out.
- Puff.State.Dynamic: after an empty code-length code the code indexes arrays with -9, which C++ does not define;
  the model stops with `OUT_OF_BOUNDS`.
- SignalSystem.System.BindSlot: the template search for trackables among the arguments is the parameter `ts`; slots
  are numbers, so their bodies, arguments, results and exceptions are not modelled, nor is memory reclaimed by
  reference count or code run by a function object's destructor.
- SignalSystem.System.StartEmit: the debug limit of ten nested emissions of one signal is not required.
- SignalRuns.RunsKeepInv: the runs pop slots during emissions and on empty lists only, the cases in which a pop keeps the
  invariant (`PopKeepsInvIff`).
- MSpace.Space.Malloc: `sys_alloc` is the result 0, so growing, merging and trimming segments, mapped chunks, locks,
  footers and corruption checks are left out, as are realloc, memalign and the bulk calls. The segment is given, its
  addresses are numbers, chunk alignment is 8.
- SmallRings.SmallBins.InsertSmallChunk: a link points to a header or to a chunk, as a value; that a header overlaps the
  array of bins is not modelled.
- BinMaps.LeastBitIsFirst: bit scanning is its meaning, the number of trailing zeros; the instruction and the
  portable shift cascade that compute it are not distinguished.
- SizeBins.IndexIsRange: the same for the position of the highest bit.
- OperationQueue.OperationQueue.Perform: an operation's callback is the flag saying whether it finished; callbacks that
  call the queue are left out. Pointers are numbers in maps, with 0 for null.
- OperationQueue.OperationQueue.CompleteOperations: handlers are called in the order returned; what they do is left out.
- `get_descriptors` and `perform_operations_for_descriptors`: a descriptor set and a loop of the calls modelled.
- BitFields.Get: a field of no bits reads 0; that C++ leaves a shift by the whole width of a wide type undefined is not
  modelled.
- BitFields.Set: values are unsigned patterns; a signed type reads as its two's complement pattern. Plain fields, arrays,
  nested packets, dumps and signatures are left out.
- ConvertUtf.ConvertUTF8ToUTF32: pointers are indices, and the `UTF32` accumulator is an integer, which never leaves 32 bits
  after legality has been checked.
- Utf8Wchar.Utf8Wchar32: the locale, iconv and mbtowc fallbacks of `src/utf8.cpp` are left out.
- Timer.BasicTimer.HandleTimeout: asio is left out: each wait completes once, with or without an error, and expiry times play
  no part. The unlimited repeat count, the maximum of its type, is not distinguished.
- Sockets, HTTP, SSL, file and thread utilities: thin wrappers of system calls.
