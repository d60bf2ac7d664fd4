# Verified models of the compat algorithms

This project models six algorithms that the repository carries in `compat/`, in the form the
kernel code has them (arrays and linked nodes changed in place, loops with early exits, state
machines that are called again and again), and proves what they are for.  `dafny verify
dfyconfig.toml` checks everything.

**XArray** (`Xa*.dfy`, `XArray*.dfy`).  A radix tree of 64-slot nodes in the heap.  The value of
the tree in memory (`Snap`) is tied to an invariant `WF`: place, parent pointer, offset, shift,
counts and mark summaries of every node.  Growing, creating, storing, deleting empty nodes,
shrinking, setting and clearing marks are loops over that heap; each is shown to keep the
invariant and to change what the array says (`CellAt`) of at most one index.  On top of that:
any run of calls answers as a plain map from indices to entries with marks would
(`XArrayRun.Run`), the allocator hands out the least free index and the cyclic one goes on from
the last, erasing leaves no needless node, the searches visit every entry once in order, and
destroying frees each node once.

**LZMA2** (`Words`, `Range*.dfy`, `ByteBudget`, `XzBuffer`, `XzDictionary`, `Lzma*.dfy`).  The
range decoder is tied to the encoder: codes that decode to a string of decisions are one
interval, and every routine of the decoder is specified by the decisions an *encoder* would
write (`PathSteps`, `SymbolSteps`, `RunSteps`).  A potential argument on the range bounds the
input of a symbol by 21 bytes.  The circular dictionary stands for the whole history.  The
control layer accounts for every byte taken and made, chunk by chunk; each chunk goes on from
where those before it have left history, properties, state and probabilities, and so the stream
tells the output (`SameStreamSameOutput`).  In the other direction (`LzmaAccept`), a stream as an
encoder makes it, with symbols that copy from within the dictionary and data that end with a
code of zero, is never refused: given all of it, the decoder comes to its end and has made its
output, or stops for want of room.  Every run of such symbols can be written so (`LzmaEncode`).

**BCJ filters** (`Bcj*.dfy`).  Five filters on byte buffers, their in-place 32-bit code, and the
buffering wrapper in front of the LZMA2 decoder modelled above.  What a filter does to a branch
is also stated by where it leads (`BcjTargets`): filtered and moved to its place, it leads to
where the stored address says.

**.xz Index** (`XzVli`, `XzIndex`, `XzDecIndex`, `XzDecBlocks`).  Variable-length integers and
the resumable parser of the Index, tied by an automaton to what an Index looks like, and the
bookkeeping of the blocks that it is compared with.

**kfifo** (`Kfifo*.dfy`).  The ring buffer with wrapping indices, its record mode, and the
lock-free protocol of one producer and one consumer as a state machine of single steps.

**FQ-CoDel** (`Fq*.dfy`).  The scheduler with its linked packet queues, two lists, deficits and
accounts, how evenly it serves flows in any run of enqueues and dequeues, and that no waiting
flow is passed over by one that keeps joining anew.

**CRC** (`Gf2`, `Crc`, `Crc8`, `XzCrc32`).  Table checksums against division of polynomials over
the field of two elements.

## Conventions

- Words are numbers; wrap-around at 32 or 64 bits is written out where the code relies on it.
  Masks and shifts by constants appear as quotients and remainders, and an OR of disjoint bits as
  a sum.
- Memory allocation is a choice that may fail each time without the caller's flags; whether it
  does with them is a parameter (`gfp`).  Input of a chunk and room for output are whatever the
  caller passes.
- Ghost fields record histories: the decisions decoded, the bytes taken and made, what arrived
  in a queue and what has gone.
- The cursor of the XArray (`struct xa_state`) is a value that methods take and return.

## Where code and comments differ, and where a promise fails

- include/linux/xarray.h:56-57 says that 256 is the zero entry and 257 the retry entry; the code
  (lines 193 and 1284) has them the other way round, and so has the model.
- compat/xz_dec_lzma2.c:33-35 says that `pos <= limit` always holds.  `dict_uncompressed` moves
  `pos` without `limit`: `DictUncompressed` says that it holds afterwards exactly if the position,
  moved on around the end of the buffer, is not beyond the old limit, and `BeyondLimit` shows a
  new dictionary and one byte for which it does not.  From `dict_limit` to the end of `lzma_main`
  it does hold.
- `code < range` is kept by `rc_bit`, but not by `rc_direct` when the range is odd
  (`RangeTrace.DirectKeeps` says exactly when, `RangeTrace.DirectSpoils` shows a case).
- fq_codel_change (compat/sch_fq_codel.c:359-367) counts a dequeue that yields nothing as a
  dropped packet, so that the queue above may be told of one packet too many.  `SurplusExactly`
  says when, in terms of the packets queued, the limit and how many packets each call of
  `codel_dequeue` drops; `SurplusNever` says that the count is right for all such choices exactly
  if nothing has to be trimmed; `OnePacketTooMany` shows a run that ends with a count of -1.
- `__kfifo_in_r` does not check that a length fits its header; `KfifoRecords.HeaderHolds` says
  that the header gives the length back exactly when it does.

## Model

| member | source | states |
|---|---|---|
| `XArrayRun.Run` | compat/xarray.c:1382-2086 | any run of load, store, erase, alloc, cyclic alloc, set, clear and get mark, find, find after and destroy on a new array, with any memory allocation failing, answers as one map from indices to entries with marks would; failures for want of memory leave the map as it was, and come only if the flags of the caller let an allocation fail |
| `XArrayRun.Do` | compat/xarray.c:1382-2086 | each call takes an array that holds what a map holds to one that holds what the map then does, and answers as the map |
| `XArrayRun.StoredIsPut` | compat/xarray.c:1459-1483 | an entry stored over another keeps its marks, a new one has none, and an allocating array reserves an index for NULL |
| `XArrayApi.XaLoad` | compat/xarray.c:1382-1397 | shows the entry last stored for the index, a zero entry as NULL |
| `XArrayApi.XaStore` | compat/xarray.c:1466-1483 | the index now holds the entry and what it held is returned, all other indices and all marks but the free mark are as before; or memory ran out for a node that was not there, and nothing an index says has changed; the invariant holds either way |
| `XArrayApi.XasNomem` | compat/xarray.c:404-429 | another attempt is made only with a new node in hand; otherwise a node left over is freed and the tree is as it was |
| `XArrayApi.XaErase` | compat/xarray.c:1420-1424 | the index holds nothing, what it held is returned, every other index is as before, the freed nodes are exactly those no longer in the tree, and every node left holds something and no head could be taken off, if that was so before |
| `XArrayApi.StoreOnce` | compat/xarray.c:1472-1481 | one attempt either stores, or stops for want of memory with the content as it was and one node fewer to make next time |
| `XArrayApi.XaSetMark` | compat/xarray.c:1786-1793 | an index with an entry gets the mark, an empty one does not, and nothing else changes |
| `XArrayApi.XaClearMark` | compat/xarray.c:1804-1811 | the index loses the mark and nothing else changes |
| `XArrayApi.XaGetMark` | compat/xarray.c:1826-1843 | the answer, found by following summary bits from the head, is whether the index has the mark; beyond the reach of the head no free mark is reported |
| `XArrayWalk.XArray.constructor` | include/linux/xarray.h:406-424 | an array starts empty, valid, and with every index free if it tracks free entries |
| `XArrayWalk.XasStart` | compat/xarray.c:245-265 | a walk starts at the head or in the node of the cursor, or not at all for an index out of reach |
| `XArrayWalk.XasLoad` | compat/xarray.c:297-310 | returns the entry of the index and leaves the cursor where the tree ends for it |
| `XArrayCreate.FirstHeight` | compat/xarray.c:646-651 | the least height from which the index of an empty array is reached |
| `XArrayCreate.XasExpand` | compat/xarray.c:639-704 | the tree becomes just tall enough for the index, with the same content and marks and the cursor at its head; a failure part way leaves a valid tree with the same content |
| `XArrayCreate.ExpandOnce` | compat/xarray.c:658-700 | one new head keeps the invariant and every index, and its marks summarise the old head |
| `XaGrow.ExpandWF` | compat/xarray.c:666-697 | a head put above the old one keeps structure, counts and mark summaries |
| `XaGrow.AddChildWF` | compat/xarray.c:756-762 | linking a blank child into an empty slot keeps the invariant and the content |
| `XArraySlot.CreateStep` | compat/xarray.c:754-770 | one level down: a missing node is made, marked free where needed and linked, or memory fails with the content as it was |
| `XArraySlot.XasCreate` | compat/xarray.c:719-773 | the cursor ends at the slot of its index, or allocation failed, which it does only if a node was missing; in both cases every index says what it said and every node is still in its place |
| `XArrayStore.XasStore` | compat/xarray.c:853-924 | the entry is stored for the index and the counts of its node follow, or memory ran out for a node that was missing and nothing changes; erasing also clears marks, prunes and shrinks, and leaves no empty node and no needless head where there was none |
| `XArrayStore.StoreFound` | compat/xarray.c:870-924 | writing at the found slot changes that index alone |
| `XArrayStore.AdjustCounts` | compat/xarray.c:825-837 | count and nr_values of the written node change by the difference of the two entries |
| `XaEdit.PutWF` | compat/xarray.c:889-922 | a write to one slot, with its counts, keeps the invariant |
| `XArrayDelete.XasDeleteNode` | compat/xarray.c:561-592 | an empty node and its ancestors that become empty leave the tree and are freed, then the head shrinks; the content stays, and no empty node or needless head is left where there was none |
| `XArrayDelete.DeleteTurn` | compat/xarray.c:565-589 | one turn unlinks one empty node, and its parent has one entry less |
| `XaPrune.RemoveChildWF` | compat/xarray.c:576-589 | unlinking an empty node keeps the invariant and the content |
| `XArrayDelete.XasShrink` | compat/xarray.c:517-554 | heads that hold only slot 0 are replaced by it, until none is left, with the marks of every index preserved |
| `XaPrune.ShrinkWF` | compat/xarray.c:529-552 | taking off one such head keeps the invariant and every index |
| `XArrayMark.XasSetMark` | compat/xarray.c:954-971 | after the climb with its early exit, exactly that index has gained the mark and all summaries are exact |
| `XArrayMark.XasClearMark` | compat/xarray.c:983-1004 | after the climb that stops at a node still marked, exactly that index has lost the mark and all summaries are exact |
| `XArrayMark.XasInitMarks` | compat/xarray.c:1017-1030 | the index has the marks of an empty one and no other index changes |
| `XArrayMark.InitMark` | compat/xarray.c:1021-1029 | one mark reset |
| `XaEdit.Climb` | compat/xarray.c:954-1004 | half way up, one place alone can be out of date; setting it right moves the doubt to the place above |
| `XArrayFind.XasFind` | compat/xarray.c:1165-1210 | finds the present entry with the least index from where the cursor is on, up to max, or none when there is none |
| `XArrayFind.XasNextEntry` | include/linux/xarray.h:1635-1657 | the inline fast path has the same promise as xas_find |
| `XArrayFind.FindUnique` | include/linux/xarray.h:1635-1657 | two searches with that promise return the same entry and index |
| `XaSpan.MoveIs` | compat/xarray.c:219-231 | a cursor in the tree keeps its 64-bit index in step with its slot |
| `XArrayFindMarked.XasFindMarked` | compat/xarray.c:1234-1310 | finds the first index with the mark, also when it is the free mark of an index without a node or beyond the head, or none |
| `XArrayFindMarked.XasFindChunk` | include/linux/xarray.h:1660-1680 | the first set bit at or after an offset |
| `XArrayFindMarked.ClearSlots` | compat/xarray.c:1234-1310 | bits that are clear have no marked index below them |
| `XArrayAlloc.XaAlloc` | compat/xarray.c:1698-1723 | stores at the least free index of the range; fails with EBUSY exactly when all of it is in use, and for want of memory only if the flags let it; never touches an index in use |
| `XArrayAlloc.XaAllocCyclic` | compat/xarray.c:1747-1773 | hands out the least free index from next on, or of the whole range when it comes round, which it does exactly when nothing is free from there on or memory ran out; returns 1 exactly if it came round or the last index had been passed, and says what the wrapped flag then is; fails with EBUSY exactly when the whole range is in use |
| `XArrayRun.NeverTwice` | compat/xarray.c:1698-1773 | in any run, between two allocations that hand out one index there is a call that gives the index up |
| `XArrayRun.CyclicReply` | compat/xarray.c:1747-1773 | what a reply of the cyclic allocator says in any run: without coming round, the index is the least not in use from next on; below next, everything from the least of the range on is in use; it has come round if all from next on is in use |
| `XArrayRun.CyclicAscends` | compat/xarray.c:1747-1773 | as long as it has not come round, a caller that passes next on is handed ascending indices, also when some are given up meanwhile |
| `XArrayAlloc.ChoiceIsFree` | compat/xarray.c:1747-1773 | an index that is handed out was not in use |
| `XArrayAlloc.FreeSearch` | compat/xarray.c:1709-1718 | searching the free mark finds the least free index, or the range is full |
| `XArrayIterate.XaFind` | compat/xarray.c:1899-1918 | the first matching entry of the range and its index |
| `XArrayIterate.XaFindAfter` | compat/xarray.c:1948-1976 | the first matching entry above an index, none above the last |
| `XArrayIterate.XaForEachRange` | include/linux/xarray.h:475-479 | visits every matching index of the range once, in ascending order, and ends |
| `XArrayIterate.MarkedPasses` | compat/xarray.c:1899-1918 | a search for a mark lets exactly the marked entries through |
| `XArrayDestroy.XasFreeNodes` | compat/xarray.c:603-633 | without a stack, every node of the subtree is freed once, and the walk ends |
| `XArrayDestroy.XaDestroy` | compat/xarray.c:2069-2086 | the array is empty and every node it had has been freed once |
| `XArrayDestroy.EndsTogether` | compat/xarray.c:613-632 | the nodes that end below the same slot are the ones the climb may free |
| `XaTree.OutOfRange` | compat/xarray.c:245-265 | an index beyond the reach of the head is empty |
| `XaTree.EmptyBelow` | compat/xarray.c:297-310 | below an empty slot nothing is stored |
| `XaEntry.PackTells` | include/linux/xarray.h:99-224 | for every kind of entry the tests of the header (value, internal, zero, retry, node, advanced, error) hold of its word exactly when they should |
| `XaEntry.PackInjective` | include/linux/xarray.h:46-64 | different entries have different words |
| `XaEntry.ValueBack` | include/linux/xarray.h:73-90 | a value comes back exactly when its top bit is clear |
| `XaEntry.InternalTells` | include/linux/xarray.h:157-246 | an internal entry gives its number back, and is an error, a retry, a zero or an advanced entry exactly by that number |
| `XaEntry.ErrorOnly` | include/linux/xarray.h:215-246 | the only entries that are errors are those of -4095 to -1 |
| `RangeCoder.Normal` | compat/xz_dec_lzma2.c:480-486 | one 8-bit shift always renormalises, from any state the decoder can reach |
| `RangeCoder.Bound` | compat/xz_dec_lzma2.c:505-511 | neither part of a split range is less than 31 * 2^13 |
| `RangeCoder.Interval` | compat/xz_dec_lzma2.c:499-518 | the codes that decode to a given string of decisions are exactly those of the interval an encoder computes for it |
| `RangeCoder.Disjoint` | compat/xz_dec_lzma2.c:499-518 | intervals of different strings do not meet |
| `RangeCoder.AdaptedIs` | compat/xz_dec_lzma2.c:507-514 | a decision takes a 32nd off what is left of the distance of its probability to the end of the scale, rounded down |
| `RangeCoder.AdaptedReaches` | compat/xz_dec_lzma2.c:507-514 | enough equal decisions take any probability to exactly 31 or 2017 |
| `RangeTrace.TreeRoundTrip` | compat/xz_dec_lzma2.c:521-534 | a number written through a bit tree decodes to itself, from any code in its interval |
| `RangeTrace.PathReplays` | compat/xz_dec_lzma2.c:521-534 | a path through a tree uses each variable once, so decoding it is replaying its decisions |
| `RangeTrace.DirectKeeps` | compat/xz_dec_lzma2.c:555-567 | a direct bit keeps the code below the range exactly unless the range is odd and the code is its last |
| `RangeTrace.DirectSpoils` | compat/xz_dec_lzma2.c:555-567 | a range and a code for which it does not |
| `RangeTrace.ReplayJoin` | compat/xz_dec_lzma2.c:480-567 | decisions may be replayed in parts |
| `ByteBudget.BytesBounded` | compat/xz_dec_lzma2.c:21-28 | within the decisions of one symbol, a range that needs one more byte has had at most 20 |
| `ByteBudget.MostSpent` | compat/xz_dec_lzma2.c:21-28 | what the decisions of a symbol can take off the range |
| `ByteBudget.MeterBit` | compat/xz_dec_lzma2.c:499-518 | a decision takes at most a factor of 67 off the range |
| `RangeDecoder.RcDec.Normalize` | compat/xz_dec_lzma2.c:480-486 | reads at most the byte it needs, and that byte is there; range and code are shifted by it |
| `RangeDecoder.RcDec.RcBit` | compat/xz_dec_lzma2.c:499-518 | the range is split in proportion to the probability and the code tells the part; the probability moves by a 32nd of its distance to that end, every other variable stays, and the decision is added to the record |
| `RangeDecoder.RcDec.RcBittree` | compat/xz_dec_lzma2.c:521-534 | the number whose path the decisions are, highest bit first |
| `RangeDecoder.RcDec.RcBittreeReverse` | compat/xz_dec_lzma2.c:537-552 | the number whose path the decisions are, lowest bit first |
| `RangeDecoder.RcDec.RcDirect` | compat/xz_dec_lzma2.c:555-567 | the number whose bits were written directly, highest first |
| `XzDictionary.Dictionary.DictGet` | compat/xz_dec_lzma2.c:322-330 | the byte d + 1 back in the history |
| `XzDictionary.Dictionary.DictPut` | compat/xz_dec_lzma2.c:335-341 | appends to the history |
| `XzDictionary.Dictionary.DictRepeat` | compat/xz_dec_lzma2.c:348-373 | appends the overlapping copy of a match, as much as there is room for, and leaves the rest to be copied later; a distance that reaches back too far is refused |
| `XzDictionary.Dictionary.DictUncompressed` | compat/xz_dec_lzma2.c:376-411 | input goes to history and output alike, in order, across the end of the buffer; the position moves on by as much around the end, the limit stays, and which of them is greater then depends on that alone |
| `XzDictionary.BeyondLimit` | compat/xz_dec_lzma2.c:33-35 | one byte copied through a new dictionary leaves the position beyond the limit |
| `XzDictionary.Dictionary.DictFlush` | compat/xz_dec_lzma2.c:418-433 | hands over exactly what was decoded since the last flush |
| `XzDictionary.Dictionary.DictLimit` | compat/xz_dec_lzma2.c:302-308 | no more than is asked for or fits |
| `XzDictionary.Dictionary.DictReset` | compat/xz_dec_lzma2.c:288-299 | an empty history |
| `XzDictionary.RingPut` | compat/xz_dec_lzma2.c:335-341 | a byte put into the ring is the newest of the history, and the others are one further back |
| `XzDictionary.RingWrap` | compat/xz_dec_lzma2.c:418-433 | the end of the buffer and its beginning are the same place |
| `XzDictionary.LzCopyJoin` | compat/xz_dec_lzma2.c:348-373 | a copy made in two parts is the copy made at once |
| `XzDictionary.LzCopyPeriod` | compat/xz_dec_lzma2.c:348-373 | a copied run repeats with the period of its distance |
| `XzDictionary.DictSize` | compat/xz_dec_lzma2.c:1136-1141 | the size a properties byte stands for is positive and a multiple of 16 |
| `XzDictionary.DictSizes` | compat/xz_dec_lzma2.c:1136-1141 | the sizes are 4 KiB and 6 KiB times the powers of two, up to 3 GiB |
| `LzmaFormat.StatesRemember` | compat/xz_lzma2.h:29-96 | for a whole run of symbols: the state is the name of what the last ones were, as the format lists them, and is below 7 exactly after a literal |
| `LzmaFormat.DistInSlot` | compat/xz_lzma2.h:152-188 | every distance belongs to one slot and its footer fits |
| `LzmaFormat.DistStates` | compat/xz_lzma2.h:137-150 | matches of 2, 3 and 4 bytes have slot variables of their own, and all longer ones share the last |
| `LzmaFormat.RunJoin` | compat/xz_dec_lzma2.c:724-763 | symbols may be told in parts |
| `LzmaFormat.StepsJoin` | compat/xz_dec_lzma2.c:724-763 | and so may what an encoder writes for them |
| `LzmaFormat.Layout` | compat/xz_lzma2.h:194-195 | the variables lie apart and make up PROBS_TOTAL |
| `LzmaDecoder.LzmaDec.LzmaLen` | compat/xz_dec_lzma2.c:621-642 | the length whose coding was decoded, within its bounds |
| `LzmaDecoder.LzmaDec.LzmaLiteral` | compat/xz_dec_lzma2.c:583-615 | the byte whose coding was decoded, in the context of its place and of the byte the last match would have had, joins the history |
| `LzmaDecoder.LzmaDec.LzmaMatch` | compat/xz_dec_lzma2.c:648-684 | the length and distance whose coding was decoded; the other distances move up |
| `LzmaDecoder.LzmaDec.LzmaRepMatch` | compat/xz_dec_lzma2.c:690-721 | the repeated distance and length whose coding was decoded, with the distances reordered |
| `LzmaDecoder.LzmaDec.DecodeSymbol` | compat/xz_dec_lzma2.c:735-755 | one symbol: the decisions decoded are those an encoder writes for it, and the history is what it tells |
| `LzmaDecoder.LzmaDec.LzmaMain` | compat/xz_dec_lzma2.c:724-763 | the symbols of a run, until the limit or the end of safe input; no byte is read beyond 21 past the limit; it fails only at a symbol that copies from before the history or from beyond the dictionary, and that symbol is in the bytes |
| `LzmaDecoder.LzmaDec.LzmaReset` | compat/xz_dec_lzma2.c:769-794 | all probabilities at one half and all distances zero |
| `LzmaDecoder.LzmaDec.LzmaProps` | compat/xz_dec_lzma2.c:801-830 | a byte is accepted exactly if it stands for lc, lp and pb within bounds, and those are unique |
| `LzmaUnique.ReplayAgree` | compat/xz_dec_lzma2.c:507-557 | two strings of decisions replayed from the same state and bytes decide the same as long as they ask the same |
| `LzmaUnique.SameSymbol` | compat/xz_dec_lzma2.c:583-721 | in the same place one state and input can decode to one symbol only, and so no coding of a symbol begins that of another |
| `LzmaUnique.SameRun` | compat/xz_dec_lzma2.c:724-763 | two runs of symbols, equally long, that one state and input can decode to are the same |
| `LzmaUnique.WrittenTells` | compat/xz_dec_lzma2.c:724-763 | what an encoder writes for a run of symbols tells the run |
| `LzmaFormat.SymbolCost` | compat/xz_dec_lzma2.c:21-28 | a symbol takes at most 22 decisions with probabilities if it has direct bits, of which there are at most 26, and at most 23 otherwise; exactly the matches of length 18 or more in distance slots 12 and 13 take 23 |
| `LzmaFormat.CostliestMatch` | compat/xz_dec_lzma2.c:21-28 | the longest match from distance 64 takes 23 |
| `Lzma2.Lzma2Input.FillTemp` | compat/xz_dec_lzma2.c:854-874 | input joins the 63-byte buffer, which is padded with zeros where the chunk ends |
| `Lzma2.Lzma2Input.DecodeTemp` | compat/xz_dec_lzma2.c:876-893 | decoding from the small buffer never reads past it, and what is used is dropped |
| `Lzma2.Lzma2Input.DecodeInput` | compat/xz_dec_lzma2.c:895-914 | decoding from the caller never reads past its input |
| `Lzma2.Lzma2Input.Lzma2Lzma` | compat/xz_dec_lzma2.c:848-927 | bytes taken now and kept before equal bytes decoded and kept now, in order; less than 21 are kept; it fails only if no encoding of the declared sizes begins with the bytes there are |
| `Lzma2Control.XzDecLzma2.StepControl` | compat/xz_dec_lzma2.c:940-1016 | a control byte begins a chunk only after a dictionary reset, and an LZMA chunk only with properties; a byte is refused only if no well-made stream goes on with it |
| `Lzma2Control.XzDecLzma2.StepProperties` | compat/xz_dec_lzma2.c:1042-1048 | the byte is accepted exactly if it stands for properties within bounds, and otherwise no well-made stream goes on with it |
| `Lzma2Control.XzDecLzma2.FinishRun` | compat/xz_dec_lzma2.c:1080-1087 | a finished LZMA chunk made exactly its declared size and took exactly its declared compressed size, with nothing left of a match and a code of zero; a chunk of a well-made stream always ends so |
| `Lzma2Control.XzDecLzma2.StepRun` | compat/xz_dec_lzma2.c:1062-1095 | a part of an LZMA chunk, with all bytes accounted for |
| `Lzma2Control.XzDecLzma2.StepCopy` | compat/xz_dec_lzma2.c:1097-1103 | an uncompressed chunk is copied to output and history |
| `Lzma2Control.XzDecLzma2.XzDecLzma2Run` | compat/xz_dec_lzma2.c:933-1108 | every call ends; what all calls took is the concatenation of chunks, each going on from the history, properties, coder state and probabilities that its header and the chunks before it determine, and what they made is what those chunks stand for; it stops only for want of input or room, at the end marker, or at an error, and an error means that no well-made stream begins with what was taken and given; given all of a well-made stream it makes its output and stops at its end marker, or has filled the output buffer |
| `Lzma2Control.SameStreamSameOutput` | compat/xz_dec_lzma2.c:933-1108 | two decoders that met the end marker of the same stream made the same output, however their input and output were cut |
| `Lzma2Control.XzDecLzma2.SoFar` | compat/xz_dec_lzma2.c:933-1108 | a decoder that is still going, and has been given some of a well-made stream, has not met its end marker, and what it has made is how the output begins |
| `Lzma2Control.XzDecLzma2.AtEnd` | compat/xz_dec_lzma2.c:933-1108 | a decoder that has met an end marker in a well-made stream has met that of the stream, and made its output |
| `Lzma2Control.XzDecLzma2.EndIsGood` | compat/xz_dec_lzma2.c:1080-1087 | when all of a chunk of a well-made stream has been told, all of it has been taken and the code is zero |
| `LzmaAccept.NoFailure` | compat/xz_dec_lzma2.c:724-763 | a symbol at which the decoder fails is not in data that an encoder wrote within the dictionary and its declared size |
| `LzmaAccept.NoOverrun` | compat/xz_dec_lzma2.c:848-927 | decoding such data never shifts in a byte beyond it |
| `LzmaAccept.AllTold` | compat/xz_dec_lzma2.c:1080-1087 | a decoder that has told as much as the data stands for has told its symbols, has shifted in all of it, and has a code of zero |
| `LzmaAccept.NextChunk` | compat/xz_dec_lzma2.c:933-1108 | behind the chunks that a decoder has finished, a promising stream goes on with an end marker or a proper chunk |
| `LzmaAccept.ChainsMeet` | compat/xz_dec_lzma2.c:933-1108 | a chain of chunks with the bytes of a well-made stream has as many chunks, with the same output, or is followed by the next one of that stream |
| `LzmaAccept.PartIsRight` | compat/xz_dec_lzma2.c:1062-1095 | what has been told of a proper chunk is how its output begins |
| `LzmaAccept.FirstCode` | compat/xz_dec_lzma2.c:451-462 | the data of an LZMA chunk begin with a byte without effect and the first code, highest byte first |
| `LzmaEncode.Written` | compat/xz_dec_lzma2.c:480-567 | every string of decisions and direct bits can be written so that the decoder replays it and is left with any wished code below its range |
| `LzmaEncode.RunWritten` | compat/xz_dec_lzma2.c:583-763 | every run of symbols can be written, with a code of zero and no input left at its end |
| `LzmaEncode.EveryRun` | compat/xz_dec_lzma2.c:933-1108 | from wherever a stream stands, and with each of the four kinds of reset, a run of symbols within the dictionary makes a proper chunk, if its sizes are no more than a header can say |
| `LzmaEncode.StreamGrows` | compat/xz_dec_lzma2.c:933-1108 | a well-made stream goes on with any such chunk, and its output with what the symbols tell |
| `LzmaChunks.OneOutput` | compat/xz_dec_lzma2.c:933-1108 | a stream with its end marker can be cut into chained chunks with one output and one final state only |
| `LzmaChunks.SameChunk` | compat/xz_dec_lzma2.c:933-1108 | from one state, the bytes determine where the chunk ends, what it makes and the state it leaves |
| `LzmaChunks.OneRun` | compat/xz_dec_lzma2.c:724-763 | symbols decoded from the same state and bytes that tell equally much are the same |
| `LzmaChunks.ChainGood` | compat/xz_dec_lzma2.c:1080-1087 | every chunk of a chain takes and makes exactly what its header declares |
| `LzmaChunks.LedMore` | compat/xz_dec_lzma2.c:940-1048 | what a header asks for is settled by its control byte and its properties byte |
| `LzmaChunks.CodeOfFive` | compat/xz_dec_lzma2.c:451-462 | of the five bytes that begin a chunk, the first has no effect on the code |
| `BcjFilters.WholeBack` | compat/xz_dec_bcj.c:162-336 | for all five filters, buffers of any length and every reachable position, the encoder undoes the decoder and the other way round |
| `BcjFilters.FilterJoin` | compat/xz_dec_bcj.c:347-395 | filtering a buffer in two parts, with the unfiltered rest carried over, is filtering it at once |
| `BcjTargets.BranchTarget` | compat/xz_dec_bcj.c:162-336 | PowerPC, SPARC, ARM and Thumb: a branch stays a branch of its kind, and from its place it leads to the address that was stored, modulo the reach of its field |
| `BcjTargets.OthersStay` | compat/xz_dec_bcj.c:162-336 | what is no branch stays as it is |
| `BcjTargets.MasksAreUnits` | compat/xz_dec_bcj.c:184-189 | the table of templates names a slot exactly if the architecture has a branch unit there |
| `BcjTargets.BundleTarget` | compat/xz_dec_bcj.c:183-263 | IA-64: in each slot of a branch unit that holds such a branch, 16 times the new field plus the position is 16 times the old one modulo 2^25; every other bit of the bundle stays |
| `BcjFilters.TurnBack` | compat/xz_dec_bcj.c:169-174 | adding the position undoes subtracting it, modulo the width of the field |
| `BcjFilters.ThumbMarks` | compat/xz_dec_bcj.c:290-316 | the bits that tell a long call survive |
| `BcjFilters.Ia64SlotBack` | compat/xz_dec_bcj.c:237-253 | the address of one of the 41-bit instructions is put back |
| `BcjFilters.Ia64BundleBack` | compat/xz_dec_bcj.c:225-259 | the three slots of a bundle are undone together |
| `BcjFilters.PieceBack` | compat/xz_dec_bcj.c:162-336 | one instruction is undone |
| `BcjFilters.FilterAligned` | compat/xz_dec_bcj.c:347-395 | a filter that starts at a reachable position stops at one |
| `BcjInPlace.PowerPcMasks` | compat/xz_dec_bcj.c:169-173 | the masked 32-bit subtraction is arithmetic on the 24-bit field |
| `BcjInPlace.SparcMasks` | compat/xz_dec_bcj.c:325-331 | the 32-bit subtraction with its sign extension is arithmetic on the 23-bit field |
| `BcjInPlace.BcjPowerPc` | compat/xz_dec_bcj.c:162-179 | in place, with a position that wraps at 32 bits, the buffer becomes its filtered form and the rest is untouched |
| `BcjInPlace.BcjSparc` | compat/xz_dec_bcj.c:318-336 | the same for SPARC |
| `BcjInPlace.BcjArm` | compat/xz_dec_bcj.c:267-286 | the same for ARM |
| `BcjInPlace.BcjArmThumb` | compat/xz_dec_bcj.c:290-314 | the same for ARM-Thumb, with steps of two or four bytes |
| `BcjBundles.SlotBytes` | compat/xz_dec_bcj.c:230-257 | rewriting the 48-bit window of a slot changes that slot of the 128-bit bundle alone |
| `BcjBundles.BundleTurn` | compat/xz_dec_bcj.c:225-259 | one bundle in place |
| `BcjBundles.BcjIa64` | compat/xz_dec_bcj.c:183-263 | the same for IA-64 |
| `Bcj.XzDecBcj.BcjApply` | compat/xz_dec_bcj.c:347-395 | the chosen filter is applied from the position on, which advances modulo 2^32 |
| `Bcj.XzDecBcj.BcjFlush` | compat/xz_dec_bcj.c:401-412 | filtered bytes leave temp for the output in order; nothing is lost |
| `Bcj.XzDecBcj.RunDirect` | compat/xz_dec_bcj.c:451-482 | decoding into the output and filtering it, with the unfiltered rest moved to temp |
| `Bcj.XzDecBcj.FillTemp` | compat/xz_dec_bcj.c:493-519 | decoding into temp and filtering it; at the end of the stream the rest is left as it is |
| `Bcj.XzDecBcj.XzDecBcjRun` | compat/xz_dec_bcj.c:419-527 | whatever the output sizes and the yield of the LZMA2 decoder, callers are given the filter of its whole output with a short tail as it is; it returns early only for want of input or room, and an error means that no well-made stream begins so; given all of a well-made stream, what callers get is the filter of its output, unless the output buffer is full |
| `Bcj.More` | compat/xz_dec_bcj.c:419-527 | what a longer source adds behind the unfiltered rest |
| `XzVli.MinimalVli` | compat/xz_dec_stream.c:177-206 | decoding the bytes of a minimal encoding and encoding again gives them back |
| `XzVli.VliMinimal` | compat/xz_dec_stream.c:177-206 | an encoding is minimal and decodes to its value |
| `XzVli.VliSize` | compat/xz_dec_stream.c:199-201 | nine bytes are enough exactly for values below 2^63 |
| `XzVli.VliPrefixFree` | compat/xz_dec_stream.c:177-206 | no encoding begins another |
| `XzDecIndex.XzDecIndexPart.DecVli` | compat/xz_dec_stream.c:177-206 | with any part read before: done exactly at the end of a minimal encoding, with its value; an error exactly at what cannot begin one |
| `XzDecIndex.MisformedIsNone` | compat/xz_dec_stream.c:191-201 | what is refused begins no encoding of a value below 2^63 |
| `XzDecIndex.XzDecIndexPart.IndexUpdate` | compat/xz_dec_stream.c:283-288 | size and checksum cover all bytes taken |
| `XzDecIndex.XzDecIndexPart.DecIndex` | compat/xz_dec_stream.c:298-342 | takes fields until all records are read, and is where the automaton is |
| `XzDecIndex.XzDecIndexPart.DecPadding` | compat/xz_dec_stream.c:670-690 | takes zeros up to a multiple of four, and compares the hashes |
| `XzDecIndex.XzDecIndexPart.Crc32Validate` | compat/xz_dec_stream.c:348-365 | compares the next four bytes with the checksum, in parts |
| `XzDecIndex.XzDecIndexPart.Continue` | compat/xz_dec_stream.c:663-698 | from the Index to its end: the state after a call is that of the automaton after the bytes taken; it asks for more only when all input is used |
| `XzDecIndex.RunIndex` | compat/xz_dec_stream.c:551-698 | however the Index is cut into calls, the verdict is that of the automaton on all the bytes |
| `XzDecIndex.EndsWell` | compat/xz_dec_stream.c:663-698 | the decoder ends well exactly when the input begins with an Index that matches the decoded blocks |
| `XzIndex.AcceptedIndex` | compat/xz_dec_stream.c:298-365 | what the automaton accepts is an Index: count, records, padding and checksum |
| `XzIndex.IndexAccepted` | compat/xz_dec_stream.c:298-365 | every Index that matches the blocks is accepted, whatever follows |
| `XzIndex.IndexUnique` | compat/xz_dec_stream.c:298-342 | the bytes of an Index determine its records |
| `XzIndex.HashBytesTell` | compat/xz_dec_stream.c:271-274 | the 24 bytes that a hash covers are the two totals and the checksum so far, lowest byte first, and four zeros |
| `XzIndex.HashBytesUnique` | compat/xz_dec_stream.c:271-274 | and so they tell the hash |
| `XzIndex.HashTotals` | compat/xz_dec_stream.c:331-335 | the totals of a hash are the sums of the sizes it has been given, modulo 2^64 |
| `XzDecBlocks.XzDecBlockPart.DecBlock` | compat/xz_dec_stream.c:219-281 | a call of the decoder behind it is counted; more than the Block Header says, or less at the end, is an error; at the end the sizes of the block join the hash and the checksum covers what was made |
| `XzDecBlocks.RunBlock` | compat/xz_dec_stream.c:219-281 | a block is kept exactly if the decoder ends it, and what it takes and makes is never more than the header says, and at the end exactly that |
| `XzDecBlocks.RunStream` | compat/xz_dec_stream.c:551-698 | blocks and their Index, in whatever parts, end well exactly if every block is kept and an Index of their number and sizes follows |
| `XzDecBlocks.OwnIndexMatches` | compat/xz_dec_stream.c:663-690 | the Index that lists the sizes of the blocks is such a one |
| `XzDecBlocks.MatchesSays` | compat/xz_dec_stream.c:663-690 | an Index that matches has as many records and the same totals; of one block it has the sizes |
| `XzIndex.AfterJoin` | compat/xz_dec_stream.c:551-698 | bytes may come in parts |
| `Kfifo.Fifo.KfifoAlloc` | compat/kfifo.c:39-68 | an empty queue of the largest power of two of elements that was asked for, or an error |
| `Kfifo.Fifo.KfifoUnused` | compat/kfifo.c:33-36 | the free elements, although the indices wrap |
| `Kfifo.Fifo.KfifoCopyIn` | compat/kfifo.c:107-129 | bytes go into the ring, around its end |
| `Kfifo.Fifo.KfifoCopyOut` | compat/kfifo.c:147-169 | bytes come out of the ring, around its end |
| `Kfifo.Fifo.KfifoIn` | compat/kfifo.c:132-144 | as many elements as fit join the queue at its end, in order |
| `Kfifo.Fifo.KfifoOutPeek` | compat/kfifo.c:172-183 | the first elements are copied and stay |
| `Kfifo.Fifo.KfifoOut` | compat/kfifo.c:187-193 | the first elements are copied and leave |
| `KfifoRing.PowerMatters` | compat/kfifo.c:42-47 | an index that wraps at 2^32 keeps pointing where it should exactly when the size divides 2^32 |
| `KfifoRing.QueueGrows` | compat/kfifo.c:107-144 | what is written behind the queue joins it when the index moves |
| `KfifoRing.QueueShrinks` | compat/kfifo.c:147-193 | what is left when the index moves, and what has been read |
| `Kfifo.Fifo.KfifoPeekN` | compat/kfifo.c:422-434 | the length in the header, also around the end of the ring |
| `Kfifo.Fifo.KfifoPokeN` | compat/kfifo.c:445-453 | the header is written, also around the end |
| `Kfifo.Fifo.KfifoInR` | compat/kfifo.c:464-475 | a record goes in whole behind its header, or not at all |
| `Kfifo.Fifo.KfifoOutR` | compat/kfifo.c:504-515 | the front of the first record is copied, and the record leaves whole even if less was read |
| `Kfifo.Fifo.KfifoOutPeekR` | compat/kfifo.c:491-500 | the front of the first record is copied |
| `Kfifo.Fifo.KfifoSkipR` | compat/kfifo.c:519-525 | the first record leaves |
| `KfifoRecords.HeaderHolds` | compat/kfifo.c:422-453 | a header gives a length back exactly when the length fits it |
| `KfifoRecords.RecordsUnique` | compat/kfifo.c:422-525 | bytes can be cut into records in one way |
| `KfifoRun.RunRecords` | compat/kfifo.c:464-525 | any run of the record operations answers as a queue of whole records |
| `KfifoSpsc.NoOverwrite` | compat/kfifo.c:107-144 | the producer never writes a slot that has not been read |
| `KfifoSpsc.ReadsPublished` | compat/kfifo.c:147-193 | the consumer only reads what has been published, and reads the byte that is due |
| `KfifoSpsc.StepKeeps` | compat/kfifo.c:107-194 | every step of either side keeps the invariant |
| `KfifoSpsc.FirstInFirstOut` | compat/kfifo.c:107-194 | after any interleaving, what was consumed is what was produced first, byte for byte, and the rest is in the ring |
| `KfifoSpsc.OfferKeeps` | compat/kfifo.c:132-141 | the room a producer sees is the room there is |
| `FqFlow.Flow.DequeueHead` | compat/sch_fq_codel.c:122-129 | the first packet of the chain leaves it |
| `FqFlow.Flow.FlowQueueAdd` | compat/sch_fq_codel.c:132-141 | a packet joins the chain at its end |
| `FqCodel.HashInRange` | compat/sch_fq_codel.c:73-83 | the scaled hash is a flow of the table |
| `FqCodel.HashOnto` | compat/sch_fq_codel.c:73-83 | every flow of the table is reached |
| `FqCodel.FqCodelSched.constructor` | compat/sch_fq_codel.c:405-454 | an empty scheduler |
| `FqCodel.FqCodelSched.FqCodelClassify` | compat/sch_fq_codel.c:86-117 | the flow that the priority, the share of the hash range or the filter names; 0 exactly when there is none, with what to return |
| `FqCodel.FqCodelSched.FqCodelDrop` | compat/sch_fq_codel.c:143-171 | the first packet of the first flow with the largest backlog goes; the accounts follow |
| `FqCodel.FqCodelSched.FqCodelEnqueue` | compat/sch_fq_codel.c:173-219 | the packet is the last of its flow, which joins the new list with one quantum if it was on none; over the limit the fattest flow loses its first packet, and the result says whether it was this one; the count above stays right |
| `FqCodel.FqCodelSched.Dequeue` | compat/sch_fq_codel.c:225-238 | the first packet of the flow, or null exactly when it has none |
| `FqCodel.FqCodelSched.CodelDequeue` | compat/sch_fq_codel.c:266-267 | what is relied on of codel_dequeue, for any number of packets that it would drop: so many leave one flow in order and are counted, and the next is returned; null exactly if the flow has no more |
| `FqCodel.FqCodelSched.Pass` | compat/sch_fq_codel.c:248-281 | one pass sends from the flow that is up, recharges it and puts it last, or finds it empty: then it leaves, but a new one, while old ones wait, goes behind them with its deficit; the measure (flows listed, quanta owed, new flows) falls; turns and ledgers stay even |
| `FqCodel.FqCodelSched.FqCodelDequeue` | compat/sch_fq_codel.c:240-290 | ends; returns null exactly when codel_dequeue drops all that is queued; a packet returned is the next of its flow and is put to its account; listed flows, backlogs, counts, deficits and order stay right, and the new state is that of the passes |
| `FqCodel.FqCodelSched.FqCodelReset` | compat/sch_fq_codel.c:292-298 | everything that arrived has gone, flow by flow in order |
| `FqCodel.FqCodelSched.FqCodelTrim` | compat/sch_fq_codel.c:356-367 | no more than the limit is left, and the count above is off by Surplus, a function of the packets queued, the limit and what codel_dequeue drops in each call |
| `FqCodel.SurplusExactly` | compat/sch_fq_codel.c:356-367 | the count is off by one exactly if, some calls having left more than the limit, the next one drops all that is left, and is right otherwise |
| `FqCodel.SurplusNever` | compat/sch_fq_codel.c:356-367 | the count is right whatever codel_dequeue drops exactly if no more than the limit is queued |
| `FqCodel.OnePacketTooMany` | compat/sch_fq_codel.c:356-367 | one packet, a limit of none and codel_dequeue dropping it: the queue above then counts -1 |
| `FqBooks.TurnKeeps` | compat/sch_fq_codel.c:257-261 | a flow that is recharged and put back: lists, deficits and totals stay right, and it owes one quantum less |
| `FqBooks.PushKeeps` | compat/sch_fq_codel.c:190-200 | a packet added: each non-empty flow is on one list, once |
| `FqBooks.OwesOneLess` | compat/sch_fq_codel.c:257-261 | a quantum lowers what a flow owes by one |
| `FqPasses.DequeuedOnce` | compat/sch_fq_codel.c:245-290 | a state and what CoDel drops determine what a dequeue returns and leaves |
| `FqPasses.PassWaits` | compat/sch_fq_codel.c:245-281 | through one pass a flow on the old list that still has packets stays ahead of every flow that was behind it or new, unless it has its turn |
| `FqPasses.WaitsThrough` | compat/sch_fq_codel.c:173-290 | through a stretch in which a flow is busy, it stays ahead of another one, or has had a turn |
| `FqPasses.TurnBetweenJoins` | compat/sch_fq_codel.c:195-201 | a flow that is busy and on the old list when another joins the new one has a turn before that one can join anew |
| `FqTurns.TurnLeads` | compat/sch_fq_codel.c:257-261 | a turn does not change how far one busy flow of the lists leads another |
| `FqTurns.PassLeads` | compat/sch_fq_codel.c:271-278 | nor does a flow found empty that is passed by or leaves |
| `FqTurns.JoinLeads` | compat/sch_fq_codel.c:195-201 | nor does a flow that joins the new ones |
| `FqTurns.LeadsOn` | compat/sch_fq_codel.c:240-290 | leads are kept over any number of passes |
| `FqTurns.EvenService` | compat/sch_fq_codel.c:173-290 | in a run of fair operations, of two flows that have packets throughout a stretch, neither is sent three quanta and two packets more of than the other |
| `FqRun.Run` | compat/sch_fq_codel.c:173-290 | any run of enqueues and dequeues on a new scheduler, other flows coming and going and CoDel dropping as it likes, serves two flows that have packets throughout any stretch of it so evenly, and gives a flow that waits its turn before another joins the new ones a second time |
| `FqRun.Enter` | compat/sch_fq_codel.c:173-219 | an enqueue, over the limit or not, is fair in this sense |
| `FqRun.Leave` | compat/sch_fq_codel.c:240-290 | a dequeue is fair in this sense |
| `FqRun.RoomForOne` | compat/sch_fq_codel.c:190-219 | while fewer packets than the limit are queued, and the limit times the largest packet fits 32 bits, the backlogs do not wrap |
| `Gf2.DivisionHolds` | compat/crc8.c:31-85 | dividend is quotient times divisor plus remainder |
| `Gf2.DivisionUnique` | compat/crc8.c:31-85 | quotient and remainder are the only ones |
| `Gf2.FeedDivides` | compat/crc8.c:78-85 | the register, fed bit by bit, ends with the remainder |
| `Gf2.TableStep` | compat/xz_crc32.c:54-64 | a table entry takes eight steps at once |
| `Crc.Doubling` | compat/crc8.c:40-44 | the entry for a byte with one bit more is the sum of two entries |
| `Crc.ChecksumJoin` | compat/crc8.c:78-85 | the checksum of a concatenation is that of the second part continued from the first |
| `Crc8.Crc8PopulateMsb` | compat/crc8.c:31-45 | every entry of the table is the register after the eight steps of its byte, highest bit first |
| `Crc8.Crc8PopulateLsb` | compat/crc8.c:54-67 | the same, lowest bit first |
| `Crc8.Crc8` | compat/crc8.c:78-85 | with such a table, the checksum of the whole message |
| `Crc8.Crc8Divides` | compat/crc8.c:78-85 | that checksum is the remainder of polynomial division |
| `XzCrc32.XzCrc32Init` | compat/xz_crc32.c:34-51 | every entry is the register after the eight steps of its byte |
| `XzCrc32.XzCrc32` | compat/xz_crc32.c:54-64 | with such a table, the checksum of the .xz format, the same as bit by bit |
| `XzCrc32.RegisterIs` | compat/xz_crc32.c:34-64 | byte by byte from the table or bit by bit, the register is the same |
| `XzCrc32.Crc32Join` | compat/xz_crc32.c:54-64 | the checksum of a concatenation continues from the first part: the inversions cancel |
| `XzCrc32.Crc32Divides` | compat/xz_crc32.c:54-64 | a number is the checksum exactly if it is the remainder of polynomial division |
| `XzCrc32.PolyExponents` | compat/xz_crc32.c:34-51 | the generator has the exponents 26, 23, 22, 16, 12, 11, 10, 8, 7, 5, 4, 2, 1 and 0 below its leading 32 |
| `XzCrc32.OneCrc32` | compat/xz_crc32.c:54-64 | message and start determine the checksum |

## Left out

- Multi-index entries, `xas_create_range`, `xas_find_conflict`, `xas_next_marked`, `xa_cmpxchg`, `xa_insert`, `xa_extract`, `__xas_next`, `__xas_prev` and the dump functions: other configurations or thin variants of what is modelled.
- `XA_FLAGS_ZERO_BUSY`: the corner case of reserving index 0 in an empty array is not covered; arrays are plain or `XA_FLAGS_ALLOC`.
- RCU and locks: the API is taken as atomic.
- XArrayFindMarked.XasFindMarked: stated for a fresh cursor, one out of bounds, or one at an entry, and for gaps that have the free mark, as its callers in the API have it.
- XArrayApi.XaSetMark: the free mark of a tracked array is not set or cleared by callers.
- `xas_pause`, `xas_nomem` of the advanced API and user node callbacks (`xas_set_update`): not needed by the modelled operations.
- Single-call mode of the LZMA2 and BCJ decoders, and what they do after they have returned an error.
- Memory allocation of the dictionary (`xz_dec_lzma2_reset` reallocating), and the limit `dict_max`.
- `bcj_x86`: its position and mask state are carried over bytes, and none of the properties of the other filters has been established for it.
- The .xz Stream Header, Block Header, Block Padding, the Check field, Stream Footer and `xz_dec_run`: fixed layouts compared with constants; of `dec_main` the blocks' sizes and the Index are modelled.
- XzDecIndex.XzDecIndexPart.TakeField: the hash of the sizes is taken over their memory layout on a 64-bit little-endian machine, with four bytes of zero padding.
- XzDecBlocks.XzDecBlockPart.DecBlock: what the decoder behind it takes, makes and returns is a parameter; the sizes of a block stay below the largest a field of the Index can hold.
- kfifo copies to and from user space and DMA scatter lists: they depend on faults and page layout.
- Kfifo.Fifo.KfifoAlloc: sizes from 1 on, since `rounddown_pow_of_two(0)` is undefined; and memory of 2^32 bytes or more is never had, as from kmalloc.
- Kfifo.Fifo.KfifoSkipR: requires a record, since the source reads a header without looking whether there is one.
- KfifoSpsc.FirstInFirstOut: steps take effect in order, as the barriers ask; weaker memory models are not modelled.
- CoDel's control law, ECN marks and per-flow statistics: `net/codel.h` is not part of this model; `codel_dequeue` may do what `CodelDequeue` says.
- FqCodel.FqCodelSched.FqCodelEnqueue: packets have a length of at least one byte, and all queued bytes together stay below 2^32; otherwise all 32-bit backlogs may be zero with packets queued, and `fq_codel_drop` would take one from flow 0 without looking whether it has any.  The quantum is fixed and positive.
- Packet dissection, `jhash` and `tc_classify`: their results are parameters of `FqCodelClassify`.
- Netlink parsing and dumping, module glue, DIM, SRP, fwctl, flow offload and the remaining headers: device plumbing or built on code that cannot be seen.
