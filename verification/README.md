# Verified models of a coin node's bookkeeping

Dafny models of nine parts of a node for a Bitcoin-like coin, each with the property it is for.
They share one pattern: a fast or redundant structure has to agree with a simple one over every
run.

| files | what |
|---|---|
| Coins | write-back caches of unspent coins with DIRTY and FRESH flags, stacked on each other |
| AddrTables, AddrOps, AddrMan, AddrCheck | the address manager: five indexes, its operations in place, its own consistency check |
| AddrStream, AddrReload, AddrStore | saving and loading it, with the renumbering of entries |
| CuckooTable, CuckooCache | the cuckoo cache: displacement, lazy erasure, epochs |
| Numerals, Base58, Base58Codec, Base58Check | base conversion in place, the codec, its checked form |
| Framing, Net | cutting a byte stream into messages |
| Bignum, Retarget | the compact form of targets, and retargeting |
| Downloads, DownloadTracker | which block is wanted from which peer |
| OrphanBlocks | blocks without parents |
| Bits, PageLocks, LimitedMap | bit masks, locks on memory pages, a bounded map |
| Basics, Options | small shared definitions |
| BlockAssembly | filling a block from the pool of transactions |

Where the program changes things step by step there is a class or a method with loops, proved
equal to functions on values; the lemmas about runs are about those functions.  Random choices
and the verdicts of checks elsewhere are left open, so that the results hold for all of them.
Hash functions, priorities, what is on disk and what connecting a transaction gives are
parameters.  A cell of a linked list carries a handle that stands for the iterators to it.

Where code and comments differ the model follows the code: the entry of a full tried bucket that
is named for eviction need not be the one that was compared as oldest, because the place is noted
after the swap (src/addrman.cpp:135-142); the first displacement of the cuckoo cache goes to the
second place, not the first (src/cuckoocache.h:395-406); the bounded map keeps the last key whatever
its value, and so not always the highest values (src/limitedmap.h:12); an address may be in eight
new buckets, not four, and there are 256 tried buckets, not 64 (src/addrman.h:110-143).

All files are checked together: `dafny verify dfyconfig.toml`.

## Model

| member | source | states |
|---|---|---|
| Coins.RunRefines | src/coins.cpp:43-218 | a stack of caches of any depth, under any run of push, read, AddCoin, SpendCoin, Uncache and flush-and-pop, shows the coins of one plain map given the same adds and spends; flags and usage stay right |
| Coins.StepRefines | src/coins.cpp:43-218 | each operation of a run keeps the flags truthful, the usage exact, and the shown coins equal to the plain map |
| Coins.WriteRefines | src/coins.cpp:148-202 | writing a well-formed child into a well-formed parent never throws, makes the parent show what the child showed, and keeps the parent well-formed against the grandparent and its usage exact |
| Coins.MergeEntryRefines | src/coins.cpp:150-196 | the same for one outpoint over three levels, for every combination of flags |
| Coins.GetKeepsView | src/coins.cpp:43-67 | a read changes nothing that is shown; what it caches is clean |
| Coins.AddShows | src/coins.cpp:69-88 | AddCoin shows the new coin and changes no other; an unspendable coin is ignored |
| Coins.AddKeepsFlagsIff | src/coins.cpp:79-86 | AddCoin leaves the FRESH flag truthful if and only if overwriting is allowed or the coin was not shown |
| Coins.MisusedAddResurrects | src/coins.cpp:79-86 | otherwise the replaced coin comes back when the new one is spent |
| Coins.SpendHides | src/coins.cpp:101-115 | SpendCoin hides its coin and no other |
| Coins.UncacheKeepsView | src/coins.cpp:211-218 | Uncache changes nothing that is shown |
| Coins.UsageUpdate | src/coins.cpp:69-88 | replacing an entry changes the exact usage sum by the difference of the two coins |
| Coins.CoinsViewCache.FetchCoin | src/coins.cpp:43-58 | the recursion through the base, in place, is the specified read |
| Coins.CoinsViewCache.GetCoin | src/coins.cpp:60-67 | returns the shown coin |
| Coins.CoinsViewCache.HaveCoin | src/coins.cpp:128-131 | answers whether a coin is shown |
| Coins.CoinsViewCache.AddCoin | src/coins.cpp:69-88 | throws exactly on an unspent entry that may not be overwritten; otherwise the specified add |
| Coins.CoinsViewCache.SpendCoin | src/coins.cpp:101-115 | the specified spend; gives out the coin that was shown |
| Coins.CoinsViewCache.Uncache | src/coins.cpp:211-218 | the specified removal of an unmodified entry |
| Coins.CoinsViewCache.WriteEntry | src/coins.cpp:150-196 | one pass of the loop merges one entry as specified, with the usage adjusted by the exact difference |
| Coins.CoinsViewCache.BatchWrite | src/coins.cpp:148-202 | the erasing loop, in any order, is the merge; it throws exactly on a misapplied FRESH flag |
| Coins.CoinsViewCache.Flush | src/coins.cpp:204-209 | never throws on a well-formed stack, writes everything down and leaves an empty cache |
| Coins.CoinsViewDb.BatchWrite | src/coins.h:108-116 | after it the coin of every modified unspent entry is there, that of every modified spent one is not, and every other coin is as it was |
| Coins.StoresCompose | src/coins.cpp:148-202 | two caches on top of each other, written to the database one after the other, leave what their merge leaves written at once |
| Coins.AddCoins | src/coins.cpp:90-99 | shows exactly the spendable outputs of the transaction on top of what was shown |
| CuckooTable.InsertConserves | src/cuckoocache.h:368-416 | for every (element, epoch) pair, the live copies plus the new one are the live copies afterwards plus at most one dropped |
| CuckooTable.ReinsertConserves | src/cuckoocache.h:373-382 | inserting an element that is there only makes its copy live and recent |
| CuckooTable.DisplaceConserves | src/cuckoocache.h:382-416 | the bounded displacement loop neither loses nor invents a live pair but for the one it ends up holding |
| CuckooTable.RoomMeansNoDrop | src/cuckoocache.h:384-392 | nothing is dropped while one of the element's own slots is free |
| CuckooTable.ProbesAgreeWithScan | src/cuckoocache.h:443-453 | the eight probes find an element exactly if a scan of the table would |
| CuckooTable.InsertPlaces | src/cuckoocache.h:368-416 | every stored element stays at one of its own eight places, once, and only the inserted one is new |
| CuckooTable.InsertFinds | src/cuckoocache.h:368-416 | an element just inserted is found if and only if it is not itself the one that was dropped |
| CuckooTable.InsertCounts | src/cuckoocache.h:368-416 | an insert adds at most one live recent entry and no live old one |
| CuckooTable.EpochCheckBounded | src/cuckoocache.h:264-296 | after the epoch check the live recent entries plus the counter, and the live old entries, stay within E + max(1, E/16) |
| CuckooTable.AgeCounts | src/cuckoocache.h:283-286 | ageing turns the live recent entries into the live old ones |
| CuckooTable.StepInv | src/cuckoocache.h:264-453 | placement, origin and both bounds survive one insert or erasing lookup |
| CuckooTable.RunInv | src/cuckoocache.h:264-453 | they survive every run, and nothing is found that was not inserted |
| CuckooTable.AlwaysRoom | src/cuckoocache.h:325-327 | with 32 slots or more some slot can always be discarded |
| CuckooTable.EmptyInv | src/cuckoocache.h:315-329 | a new table satisfies all of it |
| CuckooCache.OrSetsOne | src/cuckoocache.h:92-106 | setting one packed flag leaves the other seven of its byte alone |
| CuckooCache.AndClearsOne | src/cuckoocache.h:92-106 | and so does clearing one |
| CuckooCache.BitPackedAtomicFlags.BitSet | src/cuckoocache.h:92-95 | sets exactly one flag of all |
| CuckooCache.BitPackedAtomicFlags.BitUnset | src/cuckoocache.h:103-106 | clears exactly one flag of all |
| CuckooCache.Store.EpochCheck | src/cuckoocache.h:264-296 | the counting and ageing loops are the specified check |
| CuckooCache.Store.AgeAll | src/cuckoocache.h:282-287 | the ageing loop over flags and epochs in place |
| CuckooCache.Store.Insert | src/cuckoocache.h:368-416 | the swap loop in place is the specified insert |
| CuckooCache.Store.DisplaceStep | src/cuckoocache.h:382-415 | one pass of that loop is one unfolding of the specified displacement |
| CuckooCache.Store.Contains | src/cuckoocache.h:443-453 | answers by the eight probes; with erase, marks the first hit discardable |
| Base58.DecodeEncode | src/base58.cpp:22-105 | decoding an encoded byte string gives it back, for every byte string |
| Base58.EncodeDecode | src/base58.cpp:22-105 | a string that decodes is, without its outer whitespace, the encoding of the result |
| Base58.IndexOfIsFind | src/base58.cpp:40-44 | the alphabet index is the place strchr finds |
| Numerals.Base58Room | src/base58.cpp:80-81 | 256^n <= 58^(138n/100 + 1) for every n |
| Numerals.Base256Room | src/base58.cpp:34-36 | 58^n <= 256^(733n/1000 + 1) for every n |
| Numerals.DigitsOfVal | src/base58.cpp:43-52 | the digits of a number have its value and no leading zero |
| Numerals.ValDigitsOf | src/base58.cpp:60-63 | digits without a leading zero are the digits of their value |
| Base58Codec.ConvertVal | src/base58.cpp:85-90 | one carry loop multiplies by the source base and adds, exactly |
| Base58Codec.ConvertFits | src/base58.cpp:85-91 | in a buffer with room for the result the carry ends at zero: the assertion |
| Base58Codec.ConvertingStops | src/base58.cpp:46-52 | the decoder may stop at `length`: with no carry left, the zero digits beyond it are what they were |
| Base58Codec.TakeByte | src/base58.cpp:82-93 | the encoder's inner loop in place is that conversion |
| Base58Codec.TakeChar | src/base58.cpp:43-52 | the decoder's shortened inner loop in place is that conversion, and leaves only zeros beyond the new length |
| Base58Codec.TakeBytes | src/base58.cpp:80-93 | the encoder's buffer ends with the value of the bytes; its assertion holds for any length |
| Base58Codec.TakeChars | src/base58.cpp:34-59 | the decoder's buffer ends with the value of the digits, or the word holds a foreign character |
| Base58Codec.EncodeBase58 | src/base58.cpp:72-105 | the whole encoder, in place, is the specified encoding |
| Base58Codec.DecodeBase58 | src/base58.cpp:22-70 | the whole decoder, in place, is the specified decoding, failures included |
| Base58Codec.DecodeBase58Str | src/base58.cpp:111-113 | on a string with a NUL only what is before it counts |
| Base58Check.DecodeCheckEncodeCheck | src/base58.cpp:115-139 | the checked form decodes to what was encoded, for any checksum function |
| Base58Check.EncodeCheckDecodeCheck | src/base58.cpp:115-139 | a string accepted by the checked decoder is the checked encoding of the result, without outer whitespace |
| Base58Check.ParsePrint | src/base58.cpp:161-185 | a printed value is parsed back, given its version length |
| Base58Check.PrintParse | src/base58.cpp:161-185 | a parsed string is printed back without its outer whitespace |
| Base58Check.EncodeBase58Check | src/base58.cpp:115-121 | the specified checked encoding |
| Base58Check.DecodeBase58Check | src/base58.cpp:123-139 | accepts exactly what the specification accepts; the output is emptied on failure |
| Base58Check.DecodeBase58CheckStr | src/base58.cpp:141-143 | on a string with a NUL only what is before it counts |
| Base58Check.Base58Data.SetString | src/base58.cpp:161-175 | fields and result as parsed; emptied on failure; printing gives the string back |
| Base58Check.Base58Data.SetStringStr | src/base58.cpp:177-179 | the same on a string up to its first NUL, with one version byte |
| Base58Check.Base58Data.ToString | src/base58.cpp:181-185 | what is printed parses to the same fields |
| AddrOps.RunInv | src/addrman.cpp:80-525 | the five indexes agree after every run of Add, Good, Attempt, Connected and GetAddr, whatever the random choices |
| AddrOps.PostInv | src/addrman.cpp:80-525 | every operation, with any outcome its post allows, keeps the invariant |
| AddrOps.PostTimes | src/addrman.cpp:261-385 | with positive times passed to Good, the recorded times stay what the consistency check wants |
| AddrOps.RunTimes | src/addrman.cpp:261-385 | in a run with such times they stay so all along |
| AddrOps.GoodConserves | src/addrman.cpp:261-308 | Good never changes the set of known addresses |
| AddrOps.AddConserves | src/addrman.cpp:310-365 | Add makes its own address known if it is routable and no other, and forgets at most one entry, never a tried one |
| AddrOps.Capacity | src/addrman.h:124-134 | there are never more than 2 * 256 * 64 entries, and the list, the table and the two counters agree |
| AddrOps.GetAddrGives | src/addrman.cpp:490-504 | GetAddr gives exactly min(23 * size / 100, 2500) known addresses, all different |
| AddrTables.SwappedRandomOk | src/addrman.cpp:105-123 | exchanging two places of the shuffled list keeps it a permutation with correct back references |
| AddrTables.DropInv | src/addrman.cpp:157-201 | taking a reference away, and the entry with the last one, keeps the indexes in agreement |
| AddrTables.CreatedInv | src/addrman.cpp:93-103 | a created entry joins the indexes; only its reference count is still open |
| AddrTables.PlacedInv | src/addrman.cpp:355-363 | one more reference, with a victim making room in a full bucket, closes it |
| AddrTables.PromotedInv | src/addrman.cpp:203-228 | an entry leaves all its new buckets for a tried bucket with room |
| AddrTables.ExchangedInv | src/addrman.cpp:230-259 | or takes the place of an evicted entry, which always finds room in a new bucket |
| AddrMan.Manager.constructor | src/addrman.h:628-636 | empty tables satisfy the invariant |
| AddrMan.Manager.Find | src/addrman.cpp:80-91 | finds the id of a known network address |
| AddrMan.Manager.Create | src/addrman.cpp:93-103 | the new entry at the end of the shuffled list |
| AddrMan.Manager.SwapRandom | src/addrman.cpp:105-123 | the exchange in place |
| AddrMan.Manager.SelectTried | src/addrman.cpp:125-147 | the bucket is shuffled by the draws made; the place returned is the one that the first entry of least last success among the front ones was swapped out of, and holds that entry exactly if it is its place at the front |
| AddrOps.NamedIsChosen | src/addrman.cpp:135-142 | the place returned holds the entry that was compared as oldest if and only if that entry was drawn from where it was brought to |
| AddrOps.NamedNotChosenExample | src/addrman.cpp:135-142 | a full bucket and four draws for which it holds another entry |
| AddrMan.Manager.ShrinkNew | src/addrman.cpp:149-201 | result 0 exactly if some entry is terrible, and then the first such goes; otherwise the oldest of those at the four drawn places, the first of several |
| AddrMan.Manager.OldestOfFour | src/addrman.cpp:174-187 | of the entries whose rank in the bucket was drawn, the one of least time, and among equals the first |
| AddrMan.Manager.Unlist | src/addrman.cpp:207-215 | the loop takes the entry out of every new bucket and its count to zero: the assertion |
| AddrMan.Manager.MakeTried | src/addrman.cpp:203-259 | the move to the tried table, or the exchange with the entry at the place that the draws name |
| AddrMan.Manager.BucketHolding | src/addrman.cpp:286-302 | the search from a random bucket cannot miss |
| AddrMan.Manager.Good | src/addrman.cpp:261-308 | a post of Good, and the invariant |
| AddrMan.Manager.Add | src/addrman.cpp:310-365 | a post of Add, which says what goes from a full bucket, and the invariant |
| AddrMan.Manager.AddKnown | src/addrman.cpp:319-347 | the branch for a known address, in place |
| AddrMan.Manager.AddUnknown | src/addrman.cpp:348-363 | the branch for a new address, in place |
| AddrMan.Manager.Attempt | src/addrman.cpp:367-384 | changes the times of one entry only |
| AddrMan.Manager.Connected | src/addrman.cpp:506-523 | refreshes one entry's time only |
| AddrMan.Manager.GetAddr | src/addrman.cpp:490-504 | shuffles the front of the list and gives out what is there |
| AddrCheck.Check | src/addrman.cpp:431-487 | the consistency check answers 0 for exactly the tables that pass |
| AddrCheck.CheckEntries | src/addrman.cpp:436-457 | the pass over the entries, with its two by-products |
| AddrCheck.CheckTried | src/addrman.cpp:462-470 | the pass over the tried buckets strikes out exactly a list without repeats of all tried ids |
| AddrCheck.CheckNew | src/addrman.cpp:472-481 | the pass over the new buckets counts down exactly the reference counts |
| AddrCheck.InvPasses | src/addrman.cpp:431-487 | the invariant with sound times is the same as passing the check together with what the check does not look at |
| AddrCheck.RunPasses | src/addrman.cpp:431-487 | in every run with sound times the check passes after every operation |
| AddrReload.RoundTrip | src/addrman.h:396-497 | writing and reading back gives tables in order again, equal up to numbering, list order and the unstored time |
| AddrReload.SaveLoad | src/addrman.h:396-497 | what is read back, in closed form, and that the stream is read exactly to its end |
| AddrReload.TriedUptoRoom | src/addrman.h:460-478 | on the way, a tried bucket never holds more than it did before |
| AddrReload.TriedStep | src/addrman.h:461-479 | so every tried entry read finds room: none is lost |
| AddrReload.IndexStep | src/addrman.h:487-496 | every membership of a new bucket is restored: the count is below eight each time |
| AddrStore.Serialize | src/addrman.h:398-436 | the writing loops give exactly the specified stream |
| AddrStore.WriteNew | src/addrman.h:398-412 | the loop over the entries numbers the new ones by their place in the stream |
| AddrStore.WriteTried | src/addrman.h:413-424 | the loop over the entries writes exactly the tried ones, in order |
| AddrStore.WriteBuckets | src/addrman.h:425-435 | sizes and numbers, bucket by bucket |
| AddrStore.Unserialize | src/addrman.h:506-623 | the reading loops, on any stream, give exactly the specified tables or fail |
| Framing.ChunksDoNotMatter | src/net.cpp:656-684 | feeding is a fold over the bytes: two parts one after the other are their concatenation |
| Framing.FeedReproduces | src/net.cpp:656-729 | headers and payloads in order are the bytes fed, up to a rejected header |
| Framing.SentIsReceived | src/net.cpp:656-729 | a stream of complete messages is received as those messages |
| Framing.TakingFrontCommutes | src/main.cpp:2573-2666 | taking finished messages off the front does not change what is received behind them |
| Framing.StoppedStays | src/net.cpp:676-677 | after a rejected header nothing more is taken |
| Net.HeaderInverse | src/protocol.h:34-40 | reading a header loses nothing, and the size is where the stream has it |
| Net.NetMessage.ReadHeaderBytes | src/net.cpp:686-714 | takes what belongs to the header; -1 exactly for a size above the maximum, now or before |
| Net.NetMessage.ReadData | src/net.cpp:716-729 | takes what belongs to the payload; the buffer is at most 256 KiB ahead |
| Net.NetMessage.CompleteIs | src/net.h:211-216 | complete is what the received bytes say |
| Net.Node.Absorb | src/net.cpp:658-681 | every turn takes at least one byte |
| Net.Node.ReceiveMsgBytes | src/net.cpp:656-684 | blocks of bytes of any size, copied at once, give what single bytes give: the messages, complete or partial, and the verdict |
| Net.ReceiveAll | src/net.cpp:656-684 | so any split of a stream into chunks, taken one after another until one is refused, gives the same messages and the same verdict |
| Bignum.MpiInverse | src/bignum.h:321-344 | the signed big-endian form gives the number back |
| Bignum.CanonicalInverse | src/bignum.h:321-344 | a form without surplus bytes is the form of its number |
| Bignum.CompactIsCut | src/bignum.h:321-344 | decoding the compact form is clearing all bytes but three |
| Bignum.CompactedLoss | src/bignum.h:321-344 | positive numbers are never rounded up or to zero and lose less than one part in 2^15 |
| Bignum.CompactedMonotone | src/bignum.h:321-344 | compacting keeps the order |
| Bignum.CompactedSame | src/bignum.h:321-344 | the compact form of a decoded compact form is the same |
| Bignum.DecodeEncodeDecode | src/bignum.h:321-344 | a positive decoded target survives encoding and decoding |
| Retarget.RequiredInRange | src/proofs.cpp:57-91 | the next target is above zero and within its limit, whatever chain is behind it |
| Retarget.RegularInRange | src/primitives/block.cpp:982-983 | all targets of an accepted chain are above zero and within their limit: a block is accepted only with the required bits, and the first one carries the limit (src/chainparams.cpp:81) |
| Retarget.OnTimeKeeps | src/proofs.cpp:71-90 | a block exactly on time, or one dated before its predecessor, leaves the target as it is |
| Retarget.NextTargetMonotone | src/proofs.cpp:71-90 | a longer spacing gives a target at least as large, if and only if the shorter one does not scale to zero, or both do, or the longer reaches the limit |
| Retarget.JumpExample | src/proofs.cpp:87-88 | the smallest target scales to zero and jumps to the limit |
| Retarget.LastOfKindIs | src/main.cpp:1119-1124 | the walk ends at the last block of the kind, or at the first block |
| Retarget.GetLastBlockIndex | src/main.cpp:1119-1124 | the loop is that walk |
| Retarget.GetNextTargetRequired | src/proofs.cpp:57-91 | the whole computation is the specified one |
| Retarget.RegularTrust | src/chain.cpp:9-18 | a target within the limits is worth at least 2^16 of trust, and a harder one no less than an easier |
| Downloads.AfterAllInv | src/main.cpp:207-278 | after any events, with any number of peers: maps and lists are inverse, nothing is listed twice, the counters are exact, no peer owes more than 128 blocks |
| Downloads.OnePlace | src/main.cpp:99-100 | a block is wanted in one place at most, from one peer |
| Downloads.FinalizedInv | src/main.cpp:213-223 | after a disconnect no map leads to that peer |
| Downloads.ReceivedInv | src/main.cpp:226-245 | a received block is listed nowhere, and no other is forgotten |
| Downloads.EnqueuedInv | src/main.cpp:248-262 | queueing keeps the bookkeeping in order |
| Downloads.RequestedInv | src/main.cpp:265-278 | requesting keeps it in order, whoever listed the block before |
| Downloads.SentIs | src/main.cpp:2858-2868 | one round asks for the first min(queued, 128 - in flight) blocks in order and touches no other peer |
| Downloads.EraseInverse | src/main.cpp:226-245 | erasing a cell by its handle keeps map and lists inverse |
| DownloadTracker.Tracker.InitializeNode | src/main.cpp:207-211 | a new peer, unless it is known |
| DownloadTracker.Tracker.FinalizeNode | src/main.cpp:213-223 | both erasing loops and the peer's own entry |
| DownloadTracker.Tracker.MarkBlockAsReceived | src/main.cpp:226-245 | both lists and both maps, in place |
| DownloadTracker.Tracker.AddBlockToQueue | src/main.cpp:248-262 | true exactly if the block is listed nowhere and the peer is known |
| DownloadTracker.Tracker.MarkBlockAsInFlight | src/main.cpp:265-278 | received, then requested from this peer |
| DownloadTracker.Tracker.SendGetData | src/main.cpp:2856-2869 | the loop ends and asks for exactly the first blocks of the queue that fit |
| OrphanBlocks.Pool.ProcessBlock | src/main.cpp:1225-1313 | keeps the two orphan indexes inverse, the pool at its limit plus one at most, and every parent of an orphan out of the block index but for those that were refused after they had been put there; each block offered is logged once, after its parent was accepted, and exactly the orphans of accepted parents leave the pool |
| OrphanBlocks.Pool.AcceptBlock | src/primitives/block.cpp:942-1038 | refused if in the index or without its parent there; put into the index and refused; or accepted |
| OrphanBlocks.ParentsMissingIff | src/primitives/block.cpp:737-753 | after a call no orphan's parent is in the index if and only if no orphan of before, or equally none of after, waits for a block that the call put into the index and refused; for the block of the call itself, if and only if no orphan waited for it before |
| OrphanBlocks.RefusedParentExample | src/primitives/block.cpp:737-753 | a child that came first stays behind when its parent is put into the index and refused |
| OrphanBlocks.StrandedStays | src/main.cpp:1225-1313 | an orphan whose parent is already in the index is never offered and leaves the pool only by eviction |
| OrphanBlocks.ProcessedSettled | src/main.cpp:1225-1313 | over all calls, a parent in the index is one that was refused after it had been put there |
| OrphanBlocks.Pool.Drain | src/main.cpp:1290-1313 | the work queue ends and drains exactly the orphans whose parents were accepted in it, each offered once and after its parent |
| OrphanBlocks.Pool.DrainOne | src/main.cpp:1296-1312 | exactly the children of one block are offered, each once, and leave the pool whatever comes of it |
| OrphanBlocks.Pool.PruneOrphanBlocks | src/main.cpp:1093-1116 | evicts, only above the limit, one orphan without orphan children |
| OrphanBlocks.Pool.PickLeaf | src/main.cpp:1098-1109 | the walk down to such an orphan ends |
| OrphanBlocks.Pool.AddOrphan | src/main.cpp:1261-1272 | one more orphan; one without orphan children fewer exactly if the pool was above its limit |
| OrphanBlocks.Pool.GetOrphanRoot | src/main.cpp:1068-1081 | the last ancestor in the pool; the walk ends |
| OrphanBlocks.Pool.WantedByOrphan | src/main.cpp:1084-1090 | the root's parent, which is not in the pool, and in the index only if it was refused after it had been put there |
| OrphanBlocks.RootUnique | src/main.cpp:1068-1090 | an orphan has one root, so both walks end at the same block |
| OrphanBlocks.InverseCard | src/main.cpp:69-70 | both indexes have the same size |
| OrphanBlocks.DrainingStep | src/main.cpp:1293-1313 | what one turn of the work queue keeps: the orphans of the blocks worked off are gone, each offered once and after its parent |
| PageLocks.PageManager.LockRange | src/allocators.h:47-66 | every page's count is the number of outstanding ranges with a byte on it, and the locked pages are those with a count |
| PageLocks.PageManager.UnlockRange | src/allocators.h:69-89 | the same; the assertion never fires for a range that is outstanding |
| PageLocks.PageManager.GetLockedPageCount | src/allocators.h:92-96 | a page is locked exactly if an outstanding range touches it; none is when none is outstanding |
| PageLocks.PageManager.Masking | src/allocators.h:52-54 | masking an address rounds it down to its page |
| Bits.HighMask | src/allocators.h:37-38 | for any word size and any power of two |
| PageLocks.PowerTest | src/allocators.h:37 | the assertion on the page size holds exactly for powers of two |
| PageLocks.TouchesIs | src/allocators.h:52-55 | the pages a range touches are those from its first byte's to its last byte's |
| PageLocks.WalkStep | src/allocators.h:55-65 | what one page of either loop keeps |
| LimitedMap.Limited.Insert | src/limitedmap.h:36-49 | a present key keeps its value; a new one in a full map drives out an entry of least value among those before |
| LimitedMap.RunKeeps | src/limitedmap.h:12-49 | after every run of insertions of different keys the map holds the last of them and, as far as there is room, the largest of those before it |
| LimitedMap.HighestIff | src/limitedmap.h:12 | it holds the highest values of all if and only if the last one is no smaller than any that was driven out |
| LimitedMap.HighestStep | src/limitedmap.h:12-49 | where it held the highest values before, it still does if and only if there was room or the new value is no smaller than the least one before |
| LimitedMap.NotHighestExample | src/limitedmap.h:12-49 | a run whose last value is larger than the one it drives out, and after which the highest value is missing |
| LimitedMap.Limited.Erase | src/limitedmap.h:50-66 | removes exactly the key; the search in the index cannot fail |
| LimitedMap.Limited.Update | src/limitedmap.h:67-86 | changes exactly the value of a present key; the search cannot fail |
| LimitedMap.Limited.FindRev | src/limitedmap.h:55-64 | the entry is among those of equal value |
| LimitedMap.InverseCard | src/limitedmap.h:22-26 | index and map have the same size |
| LimitedMap.FirstIsLeast | src/limitedmap.h:41-45 | the first of the index belongs to a least value |
| BlockAssembly.CreateNewBlock | src/miner.cpp:140-371 | the block is what the transactions give in an order that takes, time after time, a best one among all whose needs are in the block so far, until none is left; each is placed exactly if no check and no limit speaks against it at its turn; inputs are on disk or placed before; sizes and signature checks stay below the limits |
| BlockAssembly.PassedOver | src/miner.cpp:258-348 | a usable transaction whose needs are in the block is in it, or a check or a limit spoke against it when its turn came |
| BlockAssembly.OneOrder | src/miner.cpp:258-348 | apart from ties there is one such order only, and so one block |
| BlockAssembly.Fill | src/miner.cpp:248-348 | the same for the scheduling loop, which ends although it refills its queue |
| BlockAssembly.Round | src/miner.cpp:258-347 | takes an entry no other precedes and places it or turns it away |
| BlockAssembly.BestIsNext | src/miner.cpp:258-266 | what is ready is in the queue, so that its best entry is a best one of all that are ready |
| BlockAssembly.Judge | src/miner.cpp:268-314 | placed exactly if no limit and no check speaks against it; counted with the fee and the checks at that place; and when the queue turns to fees |
| BlockAssembly.Collect | src/miner.cpp:174-246 | sorts the usable transactions into those that wait and those that do not, and leaves out those with a missing input |
| BlockAssembly.ScanInputs | src/miner.cpp:190-227 | a waiting transaction is listed under every hash it waits for; one with a missing input is left out |
| BlockAssembly.Release | src/miner.cpp:331-347 | all that wait for a placed transaction are told, and those that wait for nothing else join the queue |
| BlockAssembly.TakenIsReady | src/miner.cpp:331-347 | a transaction is in or past the queue exactly if all it needs is placed |
| BlockAssembly.InOrderInputs | src/miner.cpp:190-227 | an input is on disk or from an earlier place of the block |
| BlockAssembly.BelowIsOrder | src/miner.cpp:82-102 | the comparison is a strict weak order, by fee and by priority: irreflexive, asymmetric, and not being below is transitive |

## Left out

- Sockets, threads, files, databases, wallets, commands and start-up; each critical section is one step.
- Hash functions, signatures and scripts are parameters or open choices; the two-level hashing behind the bucket numbers is one function per table.
- Floating point: the chance of an address and the choice of one to connect to (src/addrman.cpp:58-78, 386-428), the logarithm in the cuckoo set-up (its result is the parameter `depth`), fee decay, and how priorities are computed; priorities are real numbers given from outside.
- Machine integers are unbounded here, except where their width is the point: 32-bit compact forms, page masks in 64 bits, bytes and flag bits. String lengths beyond an int, wrapped counters and 32-bit time stamps are not modelled.
- Coins: the best-block hash, cursors, script capacity kept after a coin is cleared, and two children on one base cache at the same time. The bottom database is a map that applies modified entries.
- Coins.CoinsViewCache.AddCoin: when it throws, the usage is left short by the replaced entry as in the program; runs with that path are not covered.
- AddrStore.Unserialize: a negative index, more buckets than there are, and a negative count of new entries in a stream are read as failures or as zero; the program has no defined behaviour for the first two.
- Net: versions, time stamps, checksums of messages and the handling of finished messages; that the header of a message is valid beyond its size.
- Downloads: misbehaviour scores and stall detection. Cells keep their handles for ever, where the program reuses memory.
- OrphanBlocks: the set of stakes seen, which is no exact index as duplicate stakes are allowed; which of the checks refuses a block, before or after it is put into the index. Parents rank below children by assumption, as no block can contain the hash of its descendant.
- PageLocks: ranges that are unlocked without having been locked, and ranges so close to the end of the address space that the loop's next page is no address.
- LimitedMap: a bound of one, which would ask an empty index for a victim, and changing the bound, after which eviction on equality no longer keeps it.
- BlockAssembly: a transaction with an input that is neither on disk nor in the pool after one it waits for, where the program frees an entry that is still referred to (src/miner.cpp:200-207); the heap is a queue whose best entry is taken; how inputs are fetched and connected, which are functions of the transaction and of what was placed before; the coinbase, header fields and reward.
- Network address masks, instant locks and the list of masternodes, whose stated properties do not hold of the code, and containers that are easy or unused here.
