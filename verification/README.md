# Verified core of a coin daemon

This project models, in Dafny, the self-contained logic of a coin daemon of the Zcash and
Flux family, and proves what that logic is for. Nothing here is an implementation to be
linked: each part is a model of the daemon's own code, in the form that code has, with
its contracts.

Pure code is modelled by functions and lemmas. Code that works by changing things is
modelled by classes and methods with loops, each proved against a function of the old
state, about which the properties are then proved.

- **Address manager** (`AddrManSpec`, `AddrManOps`, `AddrManRuns`, `AddrManMeaning`, `AddrMan`,
  `AddrManCheck`): five linked structures with reference counts, and the daemon's debug
  check `Check_` of them. Bucket hashes are arbitrary functions with the right ranges, random choices are
  parameters. `AddrManDisk`, `AddrManReload`, `AddrManFile`, `AddrManLoad` and `AddrManForeign` add
  the file format, as a sequence of typed tokens.
- **Parallel check queue** (`CheckQueue`, `CheckQueueProtocol`): every critical section is
  one step of a protocol of a master and any number of workers, with spurious wake-ups.
- **Layered coin cache** (`CoinRecord`, `CoinsSpec`, `CoinsLayers`, `CoinsLean`, `CoinsCache`): caches of
  any depth over a flat view, against one flat map. A pruned record counts as absent.
- **Block assembly** (`BlockSelection`, `BlockLimits`, `BlockChoice`, `BlockMeaning`,
  `BlockAssembly`, `CoinbaseSplit`, `CoinbaseMeaning`): the selection loop with its orphans, limits and turnstile (ZIP 209,
  "Specification"), against the greedy orders in which transactions may be considered,
  and the OPoI part of the coinbase. Script and input checks, fees and OPoI lookups are
  arbitrary functions of the transaction and of what was selected before it.
- **Merkle trees** (`MerkleTree`, `MerkleBlock`, `MerkleParse`, `MerkleSize`, `MerkleRoot`): the
  tree of a block with its branches, and the partial tree of BIP 37, "Partial Merkle branch format". The pair hash is an arbitrary function, injective where soundness needs it.
- **256-bit arithmetic and compact targets** (`Positional`, `LimbShift`, `Uint256`,
  `CompactTarget`): limbs of 32 bits as naturals, with shifts and masks by arithmetic.
- **Mempool weight tree** (`WeightTree`, `MempoolLimit`, `WeightNarrowing`): ZIP 401, "Specification". Weights
  narrowed to `int` in the code are narrowed explicitly.
- **Block index, chain and median time** (`SkipHeights`, `BlockIndex`, `MedianTime`).
- **Bech32 and Base58** (`ExclusiveOr`, `PolyMod`, `MachineWords`, `Field1024`, `ChecksumDetects`,
  `Bech32`, `Bech32Vectors`, `BigEndian`, `Base58`): BIP 173, "Bech32", with this daemon's length limit of 1023. That
  up to three errors are detected is proved over the field of 1024 elements.
- **Coin record codec** (`VarInt`, `Amounts`, `Compressor`, `CoinCodec`, `CoinStream`,
  `CoinExamples`).

`KnownValues` states values that the daemon's comments and tests list.

`Options`, `Numbers`, `Sequences` and `FiniteSets` hold what several parts share.

What the code does decides where code and comments differ. Where something that a comment
or a check of the daemon promises fails, a lemma gives an input, and another says when it
holds:

- The 2N - 1 flag bits of src/merkleblock.h:48: `MerkleTree.BitBoundFails`, `MerkleTree.BitBound`.
- The guaranteed size of src/merkleblock.h:32-35: `MerkleSize.GuaranteeFails`, `MerkleSize.SizeGuarantee`,
  `MerkleSize.SizeGuaranteed`.
- The times that `Check_` demands and `Good_` and `Attempt_` do not check:
  `AddrManRuns.GoodBreaksCheck` and `AddrManRuns.AttemptBreaksCheck`, `AddrManRuns.GoodKeepsCheck` and
  `AddrManRuns.AttemptKeepsCheck`.
- The invariant after loading a stream: `AddrManLoad.BadStreamLoads`, `AddrManLoad.TwinsLoad` and
  `AddrManLoad.NoSuccessLoads`, `AddrManLoad.LoadChecks` and `AddrManLoad.DistinctLoads`.
- Reading back compressed amounts at the edge of 64 bits: `Amounts.RoundTripFails`,
  `Amounts.AmountRoundTrip`.
- The bytes that src/serialize.h:340-341 lists for 16511 and 65535: `KnownValues.IntegersMistaken`,
  `KnownValues.Integers`.
- Drawing by weights that do not fit `int`: `WeightNarrowing.LargestTurnsRight`, `WeightNarrowing.NarrowExactly`.

Assumptions that the daemon makes of its surroundings are preconditions: a parent cache is
not changed while its child lives, commitment trees have different and non-null roots
(`RootsDiffer`), `ModifyNewCoins` is used where the view beneath lacks the coins, the
mempool is closed under parents, amounts given to the coinbase are not negative, the total
eviction weight fits 31 bits, a stream is loaded into a manager without entries, and
decompressing the compressed form of a valid public key gives the key back.

## Model

| member | source | states |
|---|---|---|
| `AddrManSpec.CreateKeeps` | src/addrman.cpp:88-98 | a new entry keeps the id map, the address map and the random order mutual inverses; it is in neither table yet |
| `AddrManSpec.SwapKeeps` | src/addrman.cpp:100-118 | swapping two places of the random order keeps every part of the invariant |
| `AddrManSpec.DeleteKeeps` | src/addrman.cpp:120-132 | deleting an entry without references keeps the invariant and takes it from the count of new entries |
| `AddrManSpec.DeleteEntries` | src/addrman.cpp:120-132 | every other entry is left as it was, up to its place in the random order |
| `AddrManSpec.UnrefKeeps` | src/addrman.cpp:134-147 | losing a slot lowers exactly the holder's reference count; the last one leaves it in neither table |
| `AddrManSpec.ClearNewKeeps` | src/addrman.cpp:134-147 | clearing any new slot keeps the invariant, deleting the holder with its last reference |
| `AddrManSpec.ClearNewEntries` | src/addrman.cpp:134-147 | only the holder of the cleared slot changes, and it goes only with its last reference |
| `AddrManSpec.InsertKeeps` | src/addrman.cpp:301-304 | taking a free slot keeps references equal to slots held, up to eight |
| `AddrManSpec.SweepKeeps` | src/addrman.cpp:149-161 | the sweep over all new buckets finds every slot of the entry, so none of its references is left |
| `AddrManSpec.EvictKeeps` | src/addrman.cpp:168-177 | emptying a tried slot keeps the invariant with its holder in neither table |
| `AddrManSpec.PlaceTriedKeeps` | src/addrman.cpp:190-194 | entering the freed slot makes the entry tried, in exactly its own hashed slot |
| `AddrManOps.ReadmitKeeps` | src/addrman.cpp:179-188 | the evicted entry gets its own new slot back, whatever held it |
| `AddrManOps.MakeTriedKeeps` | src/addrman.cpp:149-195 | moving an entry to the tried table keeps the whole invariant |
| `AddrManOps.GoodKeeps` | src/addrman.cpp:197-244 | Good_ keeps the structure whatever time it is given |
| `AddrManOps.AttemptKeeps` | src/addrman.cpp:314-331 | Attempt_ keeps the structure |
| `AddrManOps.PlaceKeeps` | src/addrman.cpp:290-310 | the second half of Add_ keeps the invariant, including the removal of an entry that found no slot |
| `AddrManOps.AddKeeps` | src/addrman.cpp:246-312 | Add_ keeps the invariant on every path |
| `AddrManRuns.AddMeaning` | src/addrman.cpp:246-312 | a new routable address is known afterwards if and only if its slot is free or its holder may be overwritten, and only a terrible holder with one reference is lost |
| `AddrManRuns.GoodMeaning` | src/addrman.cpp:197-244 | a known new address is tried afterwards, in its slot; the entry it evicts is new again with one reference; only a holder of that one reference's slot can be lost |
| `AddrManRuns.MakeTriedMeaning` | src/addrman.cpp:149-195 | the entry sits in its tried slot; all others keep their statistics |
| `AddrManRuns.NewEntryHasSlot` | src/addrman.cpp:223-238 | under the invariant the bucket search of Good_ always finds a bucket |
| `AddrManRuns.GoodKeepsCheck` | src/addrman.cpp:197-244 | Good_ keeps what Check_ tests if and only if there is nothing to update or the time is positive |
| `AddrManRuns.AttemptKeepsCheck` | src/addrman.cpp:314-331 | Attempt_ keeps what Check_ tests if and only if there is nothing to update or the time is not negative |
| `AddrManRuns.GoodBreaksCheck` | src/addrman.cpp:197-244 | from an empty manager, an announcement and Good_ at time zero end in a state that Check_ refuses, whatever the hashes |
| `AddrManRuns.AttemptBreaksCheck` | src/addrman.cpp:314-331 | the same of an attempt at time -1 |
| `AddrManRuns.GetAddrMeaning` | src/addrman.cpp:475-494 | as many different, known, not terrible addresses as there are, up to the limit, whatever the draws |
| `AddrManRuns.StepKeeps` | src/addrman.cpp:197-331 | every operation keeps the invariant and, given a timely clock, the times Check_ demands |
| `AddrManRuns.EveryRunChecks` | src/addrman.cpp:398-472 | every run of operations from an empty manager, whatever the hashes, draws and timely clock readings, keeps the invariant and the times |
| `AddrManCheck.RandomFilled` | src/addrman.cpp:403-428 | when the random order is as long as there are entries and each is where it says, it holds nothing else |
| `AddrManCheck.PassesExactly` | src/addrman.cpp:398-472 | on any manager without stray ids or addresses, the tests of Check_ hold if and only if the invariant, the times and a key do: they miss nothing |
| `AddrManCheck.CheckEntries` | src/addrman.cpp:406-430 | the loop over the entries passes if and only if every entry does, and lists the tried ones and the reference counts of the others |
| `AddrManCheck.CheckTried` | src/addrman.cpp:437-449 | the loops over the tried table leave nothing over if and only if it holds exactly the tried entries, in place |
| `AddrManCheck.CheckNew` | src/addrman.cpp:451-462 | the loops over the new table leave nothing over if and only if each entry is there as often as it is referred to, in place |
| `AddrManCheck.Check` | src/addrman.cpp:398-472 | on any manager returns 0 if and only if every test holds; under the invariant it changes nothing and returns 0 if and only if the times are in order and the key is not null |
| `AddrManCheck.EveryRunPasses` | src/addrman.cpp:398-472 | every timely run from an empty manager with a key passes Check_ |
| `AddrMan.AddrManager.constructor` | src/addrman.h:438-461 | a fresh manager is empty and satisfies the invariant |
| `AddrMan.AddrManager.CreateEntry` | src/addrman.cpp:88-98 | the class refines the creation of an entry |
| `AddrMan.AddrManager.SwapPositions` | src/addrman.cpp:100-118 | the class refines the swap in the random order |
| `AddrMan.AddrManager.DeleteEntry` | src/addrman.cpp:120-132 | the class refines the deletion |
| `AddrMan.AddrManager.ClearNewSlot` | src/addrman.cpp:134-147 | the class refines the clearing of a new slot |
| `AddrMan.AddrManager.SweepNew` | src/addrman.cpp:149-161 | the loop over all new buckets refines the sweep |
| `AddrMan.AddrManager.EvictFrom` | src/addrman.cpp:163-189 | the holder of the tried slot goes back to the new table |
| `AddrMan.AddrManager.ReadmitEntry` | src/addrman.cpp:179-188 | the new slot of an evicted entry is cleared and taken |
| `AddrMan.AddrManager.MoveToTried` | src/addrman.cpp:149-195 | the class refines MakeTried, with no assertion failing |
| `AddrMan.AddrManager.FindNewBucket` | src/addrman.cpp:223-233 | from any random start the wrapped search finds a bucket that holds the entry exactly if one exists |
| `AddrMan.AddrManager.GoodAddress` | src/addrman.cpp:197-244 | the class refines Good_; `AddrManMeaning.GoodFirstMeaning` and `AddrManMeaning.GoodAgainMeaning` give the effect in numbers |
| `AddrMan.AddrManager.AttemptAddress` | src/addrman.cpp:314-331 | the class refines Attempt_; `AddrManMeaning.AttemptMeaning` gives the effect in numbers |
| `AddrMan.AddrManager.ConnectedAddress` | src/addrman.cpp:496-514 | the class refines Connected_; `AddrManMeaning.ConnectedMeaning` gives the effect in numbers |
| `AddrMan.AddrManager.PlaceEntry` | src/addrman.cpp:290-310 | the class refines the second half of Add_ |
| `AddrMan.AddrManager.AddAddress` | src/addrman.cpp:246-312 | the class refines Add_ with its return value; `AddrManMeaning.AddKnownMeaning` and `AddrManMeaning.AddFirstMeaning` give the effect in numbers |
| `AddrMan.AddrManager.GetAddresses` | src/addrman.cpp:475-494 | the class refines GetAddr_, shuffle included |
| `AddrManMeaning.WorthKeeping` | src/addrman.cpp:33-51 | an entry is not terrible if and only if it was tried within a minute, or was seen within 30 days and not over ten minutes ahead, has a success or under three failures, and a success within a week or under ten failures |
| `AddrManMeaning.AddKnownMeaning` | src/addrman.cpp:246-312 | a repeated announcement sets time and services to the numbers written out; it adds a reference if and only if the announced time is later, the entry is untried with n < 8 references, 2^n divides the draw and the slot of the source is free or held by a terrible entry; all other entries and slots stay |
| `AddrManMeaning.AddFirstMeaning` | src/addrman.cpp:246-312 | a first announcement is recorded, with these fields and in the slot of its source, if and only if the slot is free or its holder is terrible or has another slot; otherwise no entry or slot changes |
| `AddrManMeaning.AttemptMeaning` | src/addrman.cpp:314-331 | one more failed attempt and its time, for the entry with the same port and for no other |
| `AddrManMeaning.ConnectedMeaning` | src/addrman.cpp:496-514 | the time on record moves if and only if it is more than 20 minutes older; nothing else changes |
| `AddrManMeaning.GoodFirstMeaning` | src/addrman.cpp:197-244 | an untried entry gets its tried slot, both times, no attempts and no references; the entry it evicts is back in the new slot of its own source with one reference |
| `AddrManMeaning.GoodAgainMeaning` | src/addrman.cpp:197-217 | a tried entry gets both times and no attempts, and stays where it is |
| `AddrManMeaning.GoodUnknownMeaning` | src/addrman.cpp:197-210 | an address that is not on record with the same port changes nothing |
| `AddrManMeaning.ThreeFailures` | src/addrman.cpp:33-51 | three attempts in a row make an entry that never succeeded terrible a minute after the last |
| `AddrManRuns.GetAddrLimit` | src/addrman.cpp:477-480 | the largest whole number of at most 23 percent, and at most 2500 |
| `AddrManReload.LoadSaved` | src/addrman.h:282-436 | loading what was saved gives the renumbered tables, with nothing lost |
| `AddrManReload.SavedLayout` | src/addrman.h:282-330 | the file opens with version, key size, key, both counts and the toggled bucket count; every entry is at the place that its kind and the number of smaller ids of that kind give it, with address, source, last success and attempts |
| `AddrManReload.SaveLoad` | src/addrman.h:282-436 | saving any manager that meets the invariant and loading it into a fresh one is the identity up to the numbering of entries: entries, both tables, counts and reference counts; the invariant holds again, and the times of Check_ if they held before |
| `AddrManFile.Serialize` | src/addrman.h:282-330 | the loops write exactly the specified stream |
| `AddrManFile.Unserialize` | src/addrman.h:332-436 | the loops read any stream as specified, including streams with other bucket counts and malformed ones |
| `AddrManFile.Clear` | src/addrman.h:438-456 | Clear resets everything except the two maps |
| `AddrManFile.ReadNewEntry` | src/addrman.h:361-378 | one new entry read, with a reference of its own where the stored table cannot be used |
| `AddrManFile.ReadTriedEntry` | src/addrman.h:381-400 | one tried entry read, or counted as lost when its slot is taken |
| `AddrManFile.ReadBuckets` | src/addrman.h:402-418 | the stored bucket table is entered slot by slot |
| `AddrManFile.PruneEntries` | src/addrman.h:420-430 | new entries without a reference are deleted |
| `AddrManFile.SaveAndLoad` | src/addrman.h:282-436 | written out and read into a fresh manager, the tables come back under the new numbering, with the invariant, and the times of Check_ if they held before |
| `AddrManLoad.PruneMeaning` | src/addrman.h:420-430 | pruning deletes exactly the entries without a reference, and whatever is on record for their addresses |
| `AddrManLoad.LoadChecks` | src/addrman.h:332-436 | a stream that loads leaves a manager that meets the invariant if and only if neither count is negative and no entry with a slot shares its address; and one that has the times of Check_ if and only if the stream has |
| `AddrManLoad.DistinctLoads` | src/addrman.h:332-436 | what the stream alone decides: counts that are not negative and entries with pairwise different addresses give a manager that meets the invariant, and with a recorded success in each the times of Check_ |
| `AddrManLoad.UnprunedSourced` | src/addrman.h:362-405 | every entry loaded comes from an entry of the stream, and no two from the same one |
| `AddrManLoad.TwinsLoad` | src/addrman.h:362-405 | two equal new entries load, for every hash, key and entry, and break the invariant |
| `AddrManLoad.NoSuccessLoads` | src/addrman.h:362-405 | a tried entry without a recorded success loads, with the invariant and without the times of Check_ |
| `AddrManLoad.BadStreamLoads` | src/addrman.h:332-436 | a stream that loads and breaks the invariant |
| `AddrManForeign.ForeignLoads` | src/addrman.h:332-436 | from a stream of another version or bucket count, with counts that are not negative, each new slot goes to the first new entry whose source asks for it, with one reference, and each tried slot to the first tried entry; no other entry is kept, the stored buckets do not matter, and the header limits hold |
| `AddrManForeign.NewEntriesRead` | src/addrman.h:361-378 | so far as the new entries are read, each slot belongs to the first of them that asked for it, and the others have no reference |
| `AddrManForeign.TriedEntriesRead` | src/addrman.h:381-400 | so far as the tried entries are read, each slot holds the first of them that asked for it |
| `CheckQueue.BatchFits` | src/checkqueue.h:106-112 | a batch is never empty and never more than is queued |
| `CheckQueue.BatchIsShare` | src/checkqueue.h:106-112 | a batch of more than one is within the limit and no more than the share of each thread, the idle ones and one more counted; a batch below the limit is no less than that share |
| `CheckQueueProtocol.AddNotifies` | src/checkqueue.h:146-159 | one check wakes exactly the one chosen of the waiting workers, if any waits; more wake all of them; none wakes none; and nobody else is touched |
| `CheckQueue.PoppedConserves` | src/checkqueue.h:113-118 | batch and remaining queue are together the queue before |
| `CheckQueue.SharedQueue.Add` | src/checkqueue.h:147-159 | adds the jobs, counts them, and says to notify nobody for none, one worker for one and all for more |
| `CheckQueue.SharedQueue.Proceed` | src/checkqueue.h:92-120 | the inner loop waits, returns the answer and resets it, or takes a batch |
| `CheckQueue.SharedQueue.Enter` | src/checkqueue.h:79-90 | a first pass counts the thread |
| `CheckQueue.SharedQueue.Resume` | src/checkqueue.h:102-104 | a pass after a wait uncounts the idle thread |
| `CheckQueue.SharedQueue.Finish` | src/checkqueue.h:81-86 | a pass after a batch hands in its result and asks to notify the master after the last job |
| `CheckQueue.Execute` | src/checkqueue.h:122-126 | runs jobs until one fails |
| `CheckQueueProtocol.StepKeeps` | src/checkqueue.h:70-128 | every step of every thread keeps: nTodo is queued plus in-flight jobs, and the result is that of the jobs done |
| `CheckQueueProtocol.WaitsAnswer` | src/checkqueue.h:140-144 | each Wait answers for exactly the jobs added since the Wait before it |
| `CheckQueueProtocol.EveryRunAnswers` | src/checkqueue.h:70-159 | in every interleaving, with spurious wake-ups, every Wait returns true exactly when every job added for it succeeds |
| `CheckQueueProtocol.MasterWaitsForWorker` | src/checkqueue.h:84-86 | a blocked master that was not notified waits for a worker with an unfinished batch |
| `CheckQueueProtocol.IdleBetweenRounds` | src/checkqueue.h:185-192 | between rounds the queue is idle, so the controller's assertion cannot fail |
| `CheckQueueProtocol.NoDeadlock` | src/checkqueue.h:92-105 | while the master waits, some thread can make progress |
| `CheckQueueProtocol.ProgressDecreases` | src/checkqueue.h:70-128 | every step that makes progress leaves less to do |
| `CheckQueueProtocol.SpuriousKeeps` | src/checkqueue.h:102-104 | a wake-up that nobody asked for leaves no more to do |
| `CheckQueueProtocol.WaitTerminates` | src/checkqueue.h:140-144 | in any run without new jobs and before Wait returns, spurious wake-ups included, the number of steps that are not spurious is bounded by the work left |
| `CoinRecord.CleanupPrunes` | src/coins.h:115-121 | dropping trailing spent outputs changes no availability |
| `CoinRecord.CleanupOutputs` | src/coins.h:115-121 | the loop drops exactly the trailing spent outputs |
| `CoinRecord.Spend` | src/coins.cpp:39-46 | spending makes one output, and nothing else, unavailable; an absent one is refused |
| `CoinsSpec.FetchKeeps` | src/coins.cpp:105-121 | reading through keeps what is shown and the flags truthful |
| `CoinsSpec.ModifyKeeps` | src/coins.cpp:346-365 | modifying coins through the cache is setting them in a flat map |
| `CoinsSpec.ModifyNewKeeps` | src/coins.cpp:367-374 | ModifyNewCoins keeps the flags truthful if and only if the base lacks the coins or the record is pruned, and shows the record if and only if the base lacks the coins or the record is not pruned |
| `CoinsSpec.MergeCoins` | src/coins.cpp:486-519 | merging makes the parent show what the child showed, with flags truthful about its own base |
| `CoinsSpec.PushKeeps` | src/coins.cpp:195-227 | pushing an anchor is entering it in a flat view |
| `CoinsSpec.PopKeeps` | src/coins.cpp:267-297 | popping removes exactly the current best anchor from view |
| `CoinsSpec.MergeAnchors` | src/coins.cpp:444-475 | merging anchors makes the parent show the child's anchors |
| `CoinsSpec.MergeNullifiers` | src/coins.cpp:422-442 | merging nullifiers makes the parent show the child's nullifiers |
| `CoinsLayers.StepKeeps` | src/coins.cpp:105-374 | every operation does to the child's view what it does to a flat view, and leaves the parent's view alone |
| `CoinsLayers.RunKeeps` | src/coins.cpp:105-374 | so does every run of operations |
| `CoinsLayers.FlushKeeps` | src/coins.cpp:533-542 | Flush makes the parent show the child's coins, anchors and nullifiers, and its best hashes too if and only if each is set in the child, or unset in the parent, or the same beneath |
| `CoinsLayers.RunThenFlush` | src/coins.cpp:105-542 | any run followed by Flush leaves in the parent what the run leaves in a flat view |
| `CoinsLean.StepLean` | src/coins.cpp:105-374 | every operation keeps FRESH set exactly for coins that the view beneath lacks, and keeps a changed spent record only of coins that it has |
| `CoinsLean.MergeLean` | src/coins.cpp:486-519 | so does a merge, for the parent and its own base |
| `CoinsLean.FlushLean` | src/coins.cpp:105-542 | after any run and its flush, the parent marks FRESH exactly what its base lacks, and nothing is to be erased beneath that is not there |
| `CoinsCache.CoinsViewCache.FetchCoins` | src/coins.cpp:105-121 | a chain of caches of any depth answers from the nearest layer and keeps every layer good |
| `CoinsCache.CoinsViewCache.GetAnchorAt` | src/coins.cpp:124-168 | answers as the flat view does |
| `CoinsCache.CoinsViewCache.GetNullifier` | src/coins.cpp:170-193 | answers as the flat view does |
| `CoinsCache.CoinsViewCache.GetBestAnchor` | src/coins.cpp:401-416 | answers as the flat view does, remembering the answer |
| `CoinsCache.CoinsViewCache.GetBestBlock` | src/coins.cpp:394-398 | answers as the flat view does, remembering the answer |
| `CoinsCache.CoinsViewCache.PushAnchor` | src/coins.cpp:195-247 | is the flat operation on what is seen |
| `CoinsCache.CoinsViewCache.PopAnchor` | src/coins.cpp:249-320 | is the flat operation on what is seen; the anchor to remove is always found |
| `CoinsCache.CoinsViewCache.SetNullifiers` | src/coins.cpp:322-335 | is the flat operation on what is seen |
| `CoinsCache.CoinsViewCache.SetBestBlock` | src/coins.cpp:418-420 | is the flat operation on what is seen |
| `CoinsCache.CoinsViewCache.ModifyCoins` | src/coins.cpp:346-365 | hands out what is seen, and leaves the changed record seen |
| `CoinsCache.CoinsViewCache.CloseModifier` | src/coins.cpp:722-734 | cleans up, and drops an entry that is fresh and spent |
| `CoinsCache.CoinsViewCache.ModifyNewCoins` | src/coins.cpp:367-374 | is the flat operation where the view beneath holds no such coins |
| `CoinsCache.CoinsViewCache.BatchWrite` | src/coins.cpp:477-531 | the merge of all maps and hashes, with no assertion failing |
| `CoinsCache.CoinsViewCache.Flush` | src/coins.cpp:533-542 | on any chain of caches the layer beneath sees afterwards what this one saw |
| `CoinsCache.WriteCoins` | src/coins.cpp:486-519 | the loop, in any order, is the merge of coins |
| `CoinsCache.WriteAnchors` | src/coins.cpp:444-475 | the loop, in any order, is the merge of anchors |
| `CoinsCache.WriteNullifiers` | src/coins.cpp:422-442 | the loop, in any order, is the merge of nullifiers |
| `BlockSelection.HighestExists` | src/miner.cpp:79-101 | under either order some queued entry is outranked by none |
| `BlockAssembly.Assembly.Scan` | src/miner.cpp:190-361 | each mempool transaction becomes an orphan or is queued, with its priority and fee rate, exactly as its inputs and checks say |
| `BlockAssembly.Assembly.ScanInputs` | src/miner.cpp:206-235 | registers a transaction under each mempool transaction it spends from |
| `BlockAssembly.Assembly.Release` | src/miner.cpp:533-548 | the orphans that waited for this transaction only are queued, once each |
| `BlockAssembly.Assembly.PopHighest` | src/miner.cpp:408-414 | takes off exactly one entry, which no other outranks |
| `BlockAssembly.Assembly.Passes` | src/miner.cpp:416-502 | a transaction is taken if and only if it is within every limit, acceptable and not passed over as free; the queue is ordered by fee from then on if and only if this transaction ends the priority part |
| `BlockAssembly.Assembly.Consider` | src/miner.cpp:406-549 | does to the block what the next turn of the selection does, and keeps account of what was considered, is queued or waits |
| `BlockAssembly.Assembly.Take` | src/miner.cpp:515-548 | adds a transaction with its fee and operations and queues what waited for it only |
| `BlockAssembly.HighestLeads` | src/miner.cpp:408-414 | the highest entry of the queue is outranked by no transaction of the whole mempool that could be considered |
| `BlockAssembly.SelectKeeps` | src/miner.cpp:515-548 | selecting a ready transaction and releasing what waited keeps orphans, queue and order consistent |
| `BlockLimits.AddKeeps` | src/miner.cpp:482-525 | adding what fits keeps size, signature operations, request and response counts, fees and both pool balances |
| `BlockAssembly.Assembly.Select` | src/miner.cpp:406-549 | the loop follows a greedy order and ends when nothing is left to consider |
| `BlockAssembly.SelectTransactions` | src/miner.cpp:190-549 | for any mempool closed under parents: the block is that of a greedy order of all transactions that could be considered, each once and after its mempool parents, within all limits, pool balances non-negative after every transaction |
| `BlockChoice.ReplayCounted` | src/miner.cpp:406-549 | in whatever order transactions are considered, the totals are those of the block and the limits and the turnstile hold |
| `BlockChoice.TakenAtTurn` | src/miner.cpp:416-525 | a transaction is in the block if and only if it was taken at its own turn |
| `BlockChoice.LeftOutForReason` | src/miner.cpp:406-549 | a transaction that could be mined is left out if and only if a parent is, or it was refused at its own turn by what the block held then |
| `BlockChoice.BlockInOrder` | src/miner.cpp:408-446 | of two transactions in the block the earlier is not outranked by the later, unless the later had to wait for a parent; `BlockMeaning.BlockInNumbers` says so in fee rates and priorities |
| `BlockChoice.BlockDetermined` | src/miner.cpp:360-549 | where no two transactions rank equal there is only one greedy order, so mempool and limits determine the block |
| `BlockMeaning.BlockInNumbers` | src/miner.cpp:78-102 | of two transactions of the block that could both be considered at the turn of the first, the first has the higher fee rate, and the higher priority at the same fee rate; in the priority part the other way round |
| `BlockMeaning.ByFeeExactly` | src/miner.cpp:439-446 | fee rates decide from the start without a priority part, and otherwise exactly after a transaction that fits the block exceeded the priority size or was too low |
| `BlockMeaning.InBlockExactly` | src/miner.cpp:416-525 | a transaction is in the block if and only if at its turn there was room for its size and signature operations, it was acceptable after those before it and, once fee rates decide, it was prioritised, met the relay fee or the block was below its minimum size |
| `BlockMeaning.InputsFirst` | src/miner.cpp:406-549 | each transaction of the block takes its inputs from the chain or from transactions before it in the block |
| `BlockMeaning.FundedConsidered` | src/miner.cpp:190-549 | every transaction that nothing speaks against and whose inputs chain and block provide had its turn |
| `CoinbaseSplit.PaidWithin` | src/miner.cpp:688-695 | payments never exceed the limit and never reduce what is paid |
| `CoinbaseSplit.PaidGreedily` | src/miner.cpp:688-695 | a payment is left out if and only if its address is invalid or there is no room for it |
| `CoinbaseSplit.AggregatedIs` | src/miner.cpp:704-705 | each address gets the sum of its shard payments |
| `CoinbaseSplit.Coinbase.Pay` | src/miner.cpp:707-717 | one payment under budget and first output |
| `CoinbaseSplit.Coinbase.PayResponses` | src/miner.cpp:641-696 | responses are filtered, priced and paid in order; `CoinbaseMeaning.ResponsesPaid` says what each is owed |
| `CoinbaseSplit.Coinbase.PayShards` | src/miner.cpp:702-718 | shard payments are added up per address and paid in the order of the addresses |
| `CoinbaseSplit.Coinbase.PayAll` | src/miner.cpp:723-754 | a list of payments is paid in order |
| `CoinbaseSplit.Coinbase.PayPasses` | src/miner.cpp:641-754 | the four passes share one budget and pay exactly the specified outputs |
| `CoinbaseSplit.Coinbase.PayRewards` | src/miner.cpp:757-786 | challenger rewards as far as the first output goes, then the treasury share if it fits |
| `CoinbaseSplit.Coinbase.Split` | src/miner.cpp:636-787 | the section leaves exactly the specified outputs; `CoinbaseMeaning.SplitSections` says which these are |
| `CoinbaseSplit.PassesWithin` | src/miner.cpp:641-755 | the four passes together stay within the budget and the first output |
| `CoinbaseSplit.SplitConserves` | src/miner.cpp:636-787 | the section changes neither the sum of the outputs nor any earlier output, and leaves the first one non-negative |
| `CoinbaseSplit.FinishCoinbase` | src/miner.cpp:633-790 | if the upgrade is active the outputs are those of the section, otherwise those before; the first one has the fees on top; so in the end the sum has risen by exactly the fees |
| `CoinbaseMeaning.ListPaid` | src/miner.cpp:688-695 | of a list, what is owed to valid addresses is paid in order, each as long as the limit holds with it, and nothing else is |
| `CoinbaseMeaning.PaidOneWay` | src/miner.cpp:688-695 | only one list of outputs is paid in order |
| `CoinbaseMeaning.ResponsesPaid` | src/miner.cpp:641-696 | the first pass pays in order, for each reveal of a known request that is neither verifiable nor audited and has a positive payment, the payment and the fee times the tokens |
| `CoinbaseMeaning.SplitSections` | src/miner.cpp:636-787 | the outputs afterwards are the earlier ones and, in order, what responses, shards, verified and audited responses are owed within budget and first output, rewards within the rest of it and the treasury sum if it fits; the first output is less by all of these |
| `MerkleTree.SameHashSameLeaf` | src/merkleblock.cpp:64-79 | with an injective pair hash, equal hashes at one height start at the same txid |
| `MerkleTree.SiblingsDiffer` | src/merkleblock.cpp:64-79 | over distinct txids no two nodes of one height have the same hash |
| `MerkleTree.ReadSound` | src/merkleblock.cpp:99-133 | a subtree that reads as the block's own hash matches only the block's own txids |
| `MerkleTree.ExtractSound` | src/merkleblock.cpp:151-182 | however bits and hashes were chosen, extraction to the block's root returns only txids of the block |
| `MerkleTree.ReadBuilt` | src/merkleblock.cpp:99-133 | reading a built subtree uses exactly its bits and hashes |
| `MerkleTree.ExtractBuilt` | src/merkleblock.cpp:135-182 | extraction inverts construction: the true root and the matched txids in order, padded or not |
| `MerkleTree.StoredHashes` | src/merkleblock.h:40-41 | at most one hash a transaction, and at most one more than matches times height |
| `MerkleTree.BitCount` | src/merkleblock.cpp:81-97 | 2N - 1 bits for N hashes, plus one for every single child descended into |
| `MerkleTree.BitBound` | src/merkleblock.h:48-48 | the comment's bound of 2N - 1 bits holds if and only if no single child is descended into |
| `MerkleTree.BitBoundFails` | src/merkleblock.h:48-48 | three transactions, the last matched: four bits for two hashes |
| `MerkleSize.SizeGuarantee` | src/merkleblock.h:32-35 | the guaranteed size 10 + ceil(32.25 N) is kept if and only if the two counts and the flag bytes for single children take at most six bytes together |
| `MerkleSize.SizeGuaranteed` | src/merkleblock.h:32-35 | it is kept by fewer than 253 hashes of any 32-bit number of transactions, by up to 1000 hashes of any block that is accepted, and by up to 65535 hashes if no single child is descended into |
| `MerkleSize.HeightAtMost` | src/merkleblock.cpp:141-143 | a tree with room for the transactions at some height is no higher |
| `MerkleSize.GuaranteeFails` | src/merkleblock.h:32-35 | 1025 transactions, all matched: 33068 bytes where 33067 are guaranteed |
| `MerkleBlock.PackBits` | src/merkleblock.h:100-104 | bits are packed least significant first |
| `MerkleBlock.UnpackBits` | src/merkleblock.h:93-99 | any bytes are read as that many bits |
| `MerkleBlock.PackAndUnpack` | src/merkleblock.h:89-106 | the round trip pads with zeros to whole bytes |
| `MerkleBlock.PartialMerkleTree.FindHeight` | src/merkleblock.cpp:140-143 | the lowest height with a single node |
| `MerkleBlock.PartialMerkleTree.IsParentOfMatch` | src/merkleblock.cpp:82-85 | whether a matched txid is below the node |
| `MerkleBlock.PartialMerkleTree.TraverseAndBuild` | src/merkleblock.cpp:81-97 | appends exactly the bits and hashes of the subtree |
| `MerkleBlock.PartialMerkleTree.Of` | src/merkleblock.cpp:135-147 | the tree of a block |
| `MerkleBlock.PartialMerkleTree.FromBytes` | src/merkleblock.h:93-99 | a tree as received, with any contents |
| `MerkleBlock.PartialMerkleTree.TraverseAndExtract` | src/merkleblock.cpp:99-133 | the recursive reading, with its counters and its failure flag |
| `MerkleBlock.PartialMerkleTree.Extract` | src/merkleblock.cpp:151-182 | root and matches, or failure; `MerkleParse.ExtractExactly` says which contents give a root |
| `MerkleParse.ReadSpelled` | src/merkleblock.cpp:99-133 | bits and hashes that spell out a pruned tree are read as its root and its flagged leaves, and no more of them is used |
| `MerkleParse.ReadIsSpelled` | src/merkleblock.cpp:99-133 | whatever is read without failure spells out a pruned tree with no two equal siblings |
| `MerkleParse.ExtractExactly` | src/merkleblock.cpp:151-182 | a root and matches are extracted if and only if the contents spell out a pruned tree over 1 to 33333 leaves with that root and those flagged leaves, all hashes and, but for padding, all bits used |
| `MerkleParse.LeftoversRefused` | src/merkleblock.cpp:172-181 | of two received trees of which one continues the other, both give a root only if they differ in padding |
| `MerkleParse.OneHashTooMany` | src/merkleblock.cpp:179-181 | one more hash, and nothing is extracted |
| `MerkleParse.OneByteTooMany` | src/merkleblock.cpp:175-178 | eight more flag bits, and nothing is extracted |
| `MerkleRoot.BuildMerkleTree` | src/primitives/block.cpp:19-80 | the loops append level after level, and report a level that ends in two identical hashes |
| `MerkleRoot.GetMerkleBranch` | src/primitives/block.cpp:82-96 | the loop collects the other of each pair up to the root |
| `MerkleRoot.CheckMerkleBranch` | src/primitives/block.cpp:98-110 | the loop climbs from a hash along a branch; index -1 gives zero |
| `MerkleRoot.BranchLeads` | src/primitives/block.cpp:82-110 | the branch of every transaction leads from it to the root |
| `MerkleRoot.BranchProves` | src/primitives/block.cpp:98-110 | with an injective pair hash, a branch of the right length leads to the root only from the transaction at its index, and is its branch |
| `MerkleRoot.LevelIsNodes` | src/primitives/block.cpp:63-78 | each level holds the node hashes of the partial tree at that height |
| `MerkleRoot.SameRoot` | src/merkleblock.cpp:64-79 | the root of a block and the root of its partial trees are the same |
| `MerkleRoot.RootDetermines` | src/primitives/block.cpp:44-52 | with an injective pair hash, a list of which no level ends in two identical hashes has another root than any other list that is not longer and whose tree is as high |
| `MerkleRoot.RepeatedTail` | src/primitives/block.cpp:26-42 | six transactions, and the same with the last two repeated, have the same root, and the longer list is reported |
| `MerkleBlock.SendAndExtract` | src/merkleblock.cpp:135-182 | built, packed, unpacked and read: the true root and the matched txids in order |
| `LimbShift.OrDisjoint` | src/arith_uint256.cpp:31-34 | where no bit is set in both, or is addition |
| `LimbShift.ShlValue` | src/arith_uint256.cpp:22-37 | the limbs of a left shift hold the product with the power of two, modulo 2^256 |
| `LimbShift.ShrValue` | src/arith_uint256.cpp:39-54 | the limbs of a right shift hold the quotient by the power of two |
| `Uint256.BaseUint.Assign` | src/arith_uint256.h:89-96 | the number becomes the given 64-bit value |
| `Uint256.BaseUint.Add` | src/arith_uint256.h:136-146 | the sum modulo 2^256, also with itself |
| `Uint256.BaseUint.Increment` | src/arith_uint256.h:174-181 | the successor modulo 2^256 |
| `Uint256.BaseUint.Negated` | src/arith_uint256.h:78-85 | the two's complement negation |
| `Uint256.BaseUint.Subtract` | src/arith_uint256.h:148-152 | the difference modulo 2^256 |
| `Uint256.BaseUint.MultiplySmall` | src/arith_uint256.cpp:56-66 | the product with a 32-bit factor modulo 2^256 |
| `Uint256.BaseUint.Multiply` | src/arith_uint256.cpp:68-82 | the product modulo 2^256; zero when multiplied with itself in place |
| `Uint256.NoOverflow` | src/arith_uint256.cpp:74-79 | the 64-bit accumulator holds every column |
| `Uint256.BaseUint.CompareTo` | src/arith_uint256.cpp:110-120 | the sign of the comparison of values |
| `Uint256.BaseUint.Bits` | src/arith_uint256.cpp:172-186 | the position after the highest bit |
| `Uint256.BaseUint.ShiftLeft` | src/arith_uint256.cpp:22-37 | multiplication by a power of two modulo 2^256 |
| `Uint256.BaseUint.ShiftRight` | src/arith_uint256.cpp:39-54 | division by a power of two |
| `Uint256.BaseUint.SetBit` | src/arith_uint256.cpp:101-101 | setting a clear bit adds its power of two |
| `Uint256.BaseUint.Divide` | src/arith_uint256.cpp:84-108 | the quotient for every dividend and nonzero divisor; a zero divisor fails with the number zeroed |
| `CompactTarget.SetCompact` | src/arith_uint256.cpp:206-224 | overflow exactly when mantissa times 256^(size-3) reaches 2^256, otherwise that number; the sign of a nonzero number |
| `CompactTarget.GetCompact` | src/arith_uint256.cpp:226-247 | the compact form of the number, with neither assertion failing |
| `CompactTarget.OverflowMeaning` | src/arith_uint256.cpp:219-222 | the three-way overflow test is exactly that the number does not fit |
| `CompactTarget.DecodeEncoded` | src/arith_uint256.cpp:206-247 | reading back gives the number rounded down to its mantissa, never more, without overflow, and the sign of a nonzero number |
| `CompactTarget.RoundingLoss` | src/arith_uint256.cpp:226-247 | rounding loses less than one part in 2^15 |
| `CompactTarget.EncodeIsFixed` | src/arith_uint256.cpp:206-247 | the rounded number has the same compact form |
| `WeightTree.SubUpdate` | src/mempool_limit.cpp:51-57 | changing one weight changes exactly the sums above it |
| `WeightTree.RootIsTotal` | src/mempool_limit.cpp:75-78 | the root's sum is the sum of all weights |
| `WeightTree.DrawnExactly` | src/mempool_limit.cpp:59-73 | a draw lands on a transaction exactly within its own interval |
| `WeightTree.DrawnByWeight` | src/mempool_limit.cpp:59-73 | of all draws, exactly the eviction weight of a transaction many land on it |
| `MempoolLimit.WeightOf` | src/mempool_limit.cpp:149-161 | cost at least the minimum; a penalty of 16000 exactly for fees below 10000; at most five times the cost |
| `MempoolLimit.WeightedTxTree.constructor` | src/mempool_limit.h:115-117 | an empty tree |
| `MempoolLimit.WeightedTxTree.WeightAt` | src/mempool_limit.cpp:46-49 | the weight of a node and all below it |
| `MempoolLimit.WeightedTxTree.TotalWeight` | src/mempool_limit.cpp:75-78 | the sum of all weights |
| `MempoolLimit.WeightedTxTree.BackPropagate` | src/mempool_limit.cpp:51-57 | adds at every ancestor and nowhere else |
| `MempoolLimit.WeightedTxTree.FindByEvictionWeight` | src/mempool_limit.cpp:59-73 | terminates at the transaction the draw lands on |
| `MempoolLimit.WeightedTxTree.Add` | src/mempool_limit.cpp:81-92 | adds a new transaction, ignores a known one, keeps every sum and the id map |
| `MempoolLimit.WeightedTxTree.Remove` | src/mempool_limit.cpp:94-120 | removes exactly the transaction and its weight, keeps every sum and the id map |
| `MempoolLimit.WeightedTxTree.MaybeDropRandom` | src/mempool_limit.cpp:122-135 | drops nothing if and only if the cost fits, otherwise the transaction a draw lands on |
| `MempoolLimit.EnsureSizeLimit` | src/txmempool.cpp:877-886 | exactly the evicted transactions and their dependents are gone; each was evicted while it was there and the cost of what was left was over the capacity; in the end it is not |
| `MempoolLimit.CostBounds` | src/mempool_limit.cpp:149-161 | transactions that cost less than 429496730 together have eviction weights that the search can narrow to int |
| `WeightNarrowing.SearchFinds` | src/mempool_limit.cpp:59-73 | within a subtree whose weight fits, the calls of the search end where the draw lands |
| `WeightNarrowing.LargestTurnsRight` | src/mempool_limit.cpp:59-73 | a draw of 2^31 - 1 turns right wherever it belongs |
| `WeightNarrowing.NarrowExactly` | src/mempool_limit.cpp:59-135 | every draw, narrowed to int, leads to the transaction it stands for if and only if the total eviction weight is below 2^31, or is 2^31 and the root has a right child |
| `SkipHeights.InvertedMeaning` | src/chain.cpp:62-63 | the lowest set bit is cleared |
| `SkipHeights.SkipHeight` | src/chain.cpp:65-74 | a lower height for every block but the first |
| `SkipHeights.EvenSkip` | src/chain.cpp:65-74 | an even height skips back by its lowest binary digit |
| `SkipHeights.OddSkips` | src/chain.cpp:65-74 | an odd height skips back by the two lowest digits of the height before it, or to 1 if that has only one |
| `SkipHeights.ParentSkipNearer` | src/chain.cpp:84-94 | where the parent's skip is better, the walk follows it next and is nearer then |
| `SkipHeights.StepsAreFew` | src/chain.cpp:70-100 | from a height of n binary digits any ancestor is reached in at most n^2 + 2n steps |
| `BlockIndex.Block.GetAncestor` | src/chain.cpp:76-100 | skips and parents lead to the block that parents alone lead to; with skips set, in at most n^2 + 2n steps for a height of n binary digits |
| `BlockIndex.Block.BuildSkip` | src/chain.cpp:107-111 | the skip is the ancestor at the skip height; with the skips before it set, all are |
| `BlockIndex.SamePrefix` | src/chain.cpp:14-24 | two paths that share a block share everything below it |
| `BlockIndex.Chain.SetTip` | src/chain.cpp:14-24 | the early exit still leaves the whole ancestor path of the tip |
| `BlockIndex.Chain.FindFork` | src/chain.cpp:54-60 | the highest block common to chain and block, or none |
| `BlockIndex.Chain.GetLocator` | src/chain.cpp:26-52 | the hashes at the locator heights of the path |
| `BlockIndex.LocatorDescends` | src/chain.cpp:26-52 | a locator starts at the block, goes strictly back and ends at the first block |
| `BlockIndex.LocatorIsShort` | src/chain.cpp:26-52 | twelve consecutive blocks, then logarithmically many |
| `BlockIndex.LocatorExactly` | src/chain.cpp:26-52 | the i-th hash is i blocks back up to the eleventh, then 11 + 2(2^(i-11) - 1) back, or the first block |
| `MedianTime.MedianMeaning` | src/chain.h:336-350 | the median is one of the last eleven times, or of all if there are fewer, with at most half of them below and fewer than half above |
| `MedianTime.MedianStep` | src/miner.cpp:103-106 | a block past the median does not move the median back, also while the window grows |
| `MedianTime.MedianNeverDecreases` | src/miner.cpp:103-106 | along any chain whose times come from UpdateTime the median time past never decreases |
| `MedianTime.GetMedianTimePast` | src/chain.h:336-350 | the loop and the sort compute the median of the last eleven times |
| `PolyMod.NextState` | src/bech32.cpp:81-93 | one round, bit by bit, is the linear step |
| `PolyMod.PolyModOf` | src/bech32.cpp:38-95 | the loop is the fold of steps |
| `PolyMod.StepLinear` | src/bech32.cpp:81-93 | a step is linear over exclusive or |
| `PolyMod.FoldLinear` | src/bech32.cpp:38-95 | so is the checksum of equally long messages |
| `PolyMod.ChecksumVerifies` | src/bech32.cpp:119-140 | the created checksum makes the message verify |
| `PolyMod.LeadingZeroDetected` | src/bech32.cpp:40-43 | a message and the same message after a zero have different checksums |
| `PolyMod.BurstDetected` | src/bech32.cpp:38-95 | messages of any length that differ only within six neighbouring symbols have different checksums |
| `Field1024.NoSmallPeriod` | src/bech32.cpp:47-51 | multiplying anything but zero by a power of the generator below the 1023rd changes it |
| `ChecksumDetects.GeneratorVanishes` | src/bech32.cpp:45-49 | the code's generator polynomial vanishes at three neighbouring powers |
| `ChecksumDetects.StepAtRoots` | src/bech32.cpp:81-93 | at these powers, a round multiplies and adds |
| `ChecksumDetects.OnlyZero` | src/bech32.cpp:47-51 | three neighbouring equations in three error values have only the zero solution |
| `ChecksumDetects.ThreeErrorsDetected` | src/bech32.cpp:47-51 | messages of any length that differ in at most three symbols within a window of 1023 have different checksums |
| `Bech32.ExpandHrpOf` | src/bech32.cpp:104-116 | as many symbols as the prefix has characters, a zero and as many again; the two symbols of a character are its byte divided by 32 and the remainder |
| `Bech32.CreateChecksum` | src/bech32.cpp:129-140 | the six symbols of the checksum |
| `Bech32.EncodeString` | src/bech32.cpp:148-160 | the loop writes the encoded string, or nothing for a value over five bits |
| `Bech32.DecodeString` | src/bech32.cpp:163-193 | the loops accept and decode exactly as specified |
| `Bech32.DecodeEncoded` | src/bech32.cpp:148-193 | decoding an encoded string gives back prefix and data if and only if the prefix is non-empty, printable and without capitals, the data five-bit and the whole within 1023 characters |
| `Bech32.EncodeDecoded` | src/bech32.cpp:148-193 | a valid string is, but for case, the one string that encodes what it decodes to |
| `Bech32.DecodeLowered` | src/bech32.cpp:163-193 | a string in one case is read as its lower-case form is |
| `Bech32.DecodeExactly` | src/bech32.cpp:148-193 | a string is read as a prefix and data if and only if these can be encoded, the string is in one case, and its lower-case form is their encoding |
| `MachineWords.WordStep` | src/bech32.cpp:81-93 | one round on numbers is the round on 32-bit words, with the code's shifts, masks and constants |
| `MachineWords.WordFold` | src/bech32.cpp:38-95 | so is the whole checksum |
| `Bech32Vectors.ShortString` | src/test/bech32_tests.cpp:30-30 | the prefix "a" without data and the string "a12uel5l" are each other's encoding and decoding |
| `Bech32Vectors.LongString` | src/test/bech32_tests.cpp:33-33 | the same of the prefix "abcdef" with all 32 symbols in order |
| `Bech32.ChangesRefused` | src/bech32.cpp:163-193 | a valid string with up to three characters after the separator changed, not only in case and not to a separator, is refused |
| `BigEndian.RebaseInverts` | src/base58.cpp:17-96 | changing the base, leading zeros kept, and changing it back is the identity |
| `BigEndian.EncodeBuffer` | src/base58.cpp:72-72 | the 138/100 buffer is always enough |
| `BigEndian.DecodeBuffer` | src/base58.cpp:29-29 | the 733/1000 buffer is always enough |
| `Base58.MulAdd` | src/base58.cpp:75-81 | the carry loop multiplies and adds |
| `Base58.TakeDigit` | src/base58.cpp:31-45 | no carry is left, so the assertion holds |
| `Base58.EncodeBase58` | src/base58.cpp:63-96 | the loops write the encoded text |
| `Base58.ReadRun` | src/base58.cpp:29-45 | the character loop, which stops at a space or fails on a foreign character |
| `Base58.DecodeBase58` | src/base58.cpp:17-61 | the loops accept and decode exactly as specified, spaces around the text included |
| `Base58.DecodeEncoded` | src/base58.cpp:17-96 | every byte string is read back |
| `Base58.EncodeDecoded` | src/base58.cpp:17-96 | readable text is, without the spaces around it, what its bytes are written as |
| `Base58.EncodeBase58Check` | src/base58.cpp:108-115 | the text of the bytes and four bytes of their hash |
| `Base58.DecodeBase58Check` | src/base58.cpp:117-132 | the loops and tests of the checked form |
| `Base58.CheckedExactly` | src/base58.cpp:108-132 | a text passes with some bytes if and only if it is, without spaces, their checked text |
| `KnownValues.AlphabetIs` | src/base58.cpp:14-15 | the digits are the decimal digits and the letters but for 0, O, I and l |
| `KnownValues.AlphabetAscends` | src/base58.cpp:14-15 | in the order of their codes |
| `KnownValues.OneByte` | src/test/data/base58_encode_decode.json:3-3 | the byte 0x61 is written as "2g" |
| `KnownValues.ThreeBytes` | src/test/data/base58_encode_decode.json:4-4 | three bytes 0x62 are written as "a3gV" |
| `KnownValues.OnlyZeros` | src/test/data/base58_encode_decode.json:13-13 | ten zero bytes are written as ten ones |
| `VarInt.ReadVarBytes` | src/serialize.h:361-391 | an integer is read back and nothing after it is touched |
| `VarInt.ReadIsVarBytes` | src/serialize.h:330-334 | whatever is read was the one encoding of the integer |
| `VarInt.OneEncoding` | src/serialize.h:330-334 | streams that give the same integer begin with the same bytes; only a stream that never ends an integer fails |
| `VarInt.VarBytesFit` | src/serialize.h:361-371 | seven bits a byte suffice, so the buffer is not overrun |
| `VarInt.ReadUintIsBytes` | src/serialize.h:378-391 | the bytes read into an unsigned type are those of the result if and only if it did not wrap around |
| `VarInt.ReadIntBytes` | src/serialize.h:361-391 | a signed integer is read back if and only if it is not negative; of a negative one seven bits are |
| `VarInt.Stream.WriteVarInt` | src/serialize.h:361-376 | the bytes are found backwards and written forwards, for negative integers as well |
| `VarInt.Stream.ReadVarInt` | src/serialize.h:378-391 | the loop reads as specified, wrapping around at the width of the type and failing at the end of the stream |
| `Amounts.AmountRoundTrip` | src/compressor.cpp:143-186 | on 64 bits, either round trip gives the amount back if and only if the first function of the two does not wrap around |
| `Amounts.WrappedIsLost` | src/compressor.cpp:143-186 | an amount whose compression wraps around is read back as another one, whatever the amount |
| `Amounts.CompressFits` | src/compressor.cpp:143-160 | compression does not wrap around if and only if the amount ends in a zero or is small enough for the factor of nine |
| `Amounts.AmountBijection` | src/compressor.cpp:134-186 | on unbounded integers compression is a bijection |
| `Amounts.DecompressFits` | src/compressor.cpp:162-186 | decompression does not wrap around if and only if the mantissa is small enough for its power of ten |
| `Amounts.RoundTripFails` | src/compressor.cpp:143-186 | neither round trip holds of 2^64 - 1 |
| `Amounts.AmountFits` | src/compressor.cpp:143-160 | compression does not wrap around on any amount up to a ninth of the range |
| `Amounts.CompressAmountOf` | src/compressor.cpp:143-160 | the loop compresses any 64-bit amount, wrapping around, and its assertion holds |
| `Amounts.DecompressAmountOf` | src/compressor.cpp:162-186 | the loop decompresses any 64-bit number, wrapping around |
| `Compressor.DecompressCompressed` | src/compressor.cpp:13-132 | each special script is restored from its tag and bytes |
| `Compressor.CompressExactly` | src/compressor.cpp:13-90 | a script has a compressed form if and only if it is, byte by byte, one of the four standard forms, and then it is this form |
| `Compressor.ReadScriptBytes` | src/compressor.h:59-90 | a script is read back if and only if it is within the size limit; otherwise it becomes unspendable; its bytes are used exactly |
| `Compressor.ReadOutBytes` | src/compressor.h:107-119 | any output with a 64-bit amount is read back as what `Stored` says, and as itself if and only if its amount, taken as unsigned, compresses without wrapping around and its script is within the size limit |
| `Compressor.ValidIsStorable` | src/compressor.h:107-119 | which is so for every amount in the money range with a script within the size limit |
| `CoinCodec.MaskByteZero` | src/coins.cpp:21-37 | a mask byte is zero exactly when its eight outputs are spent |
| `CoinCodec.ReadMaskIs` | src/coins.h:198-209 | the count of nonzero bytes tells where the mask ends |
| `CoinCodec.SomethingUnspent` | src/coins.h:164-164 | the assertion before writing holds if and only if the record is not pruned |
| `CoinCodec.ReadCoinBytes` | src/coins.h:158-219 | reading back any record of the right types uses exactly its bytes, and gives it without trailing spent outputs if and only if neither version nor height is negative and every unspent output is read back on its own |
| `CoinCodec.ReadBackIsSame` | src/coins.h:158-219 | what is read back is the record without trailing spent outputs if and only if those conditions hold |
| `CoinStream.CalcMaskSize` | src/coins.cpp:21-37 | the loops count mask bytes and nonzero ones |
| `CoinStream.SerializeScript` | src/compressor.h:59-69 | writes the script's bytes |
| `CoinStream.UnserializeScript` | src/compressor.h:71-90 | reads a script or fails |
| `CoinStream.SerializeOut` | src/compressor.h:107-112 | writes the output's bytes |
| `CoinStream.UnserializeOut` | src/compressor.h:113-119 | reads an output or fails |
| `CoinStream.Serialize` | src/coins.h:158-185 | the loops write the bytes of any record with something unspent |
| `CoinStream.Unserialize` | src/coins.h:187-219 | the loops read any stream as specified |
| `CoinStream.WriteAndRead` | src/coins.h:158-219 | written to a stream and read back, nothing is left over, and the record is the same under those conditions and no others |
| `CoinExamples.FirstBytes` | src/coins.h:42-55 | the bytes of the first example record, for every key hash |
| `CoinExamples.SecondBytes` | src/coins.h:57-75 | the bytes of the second example record, for all key hashes |
| `KnownValues.Integers` | src/serialize.h:337-342 | the bytes of 0, 1, 127, 128, 255, 256, 16383, 16384 and 2^32 are those listed; those of 16511 and 65535 are FF 7F and 82 FE 7F |
| `KnownValues.IntegersMistaken` | src/serialize.h:340-341 | the bytes that the comment lists for 16511 and 65535 are read as 32895 and 65407 |
| `KnownValues.SmallAmounts` | src/test/compress_tests.cpp:43-47 | the compressed forms of 0 and 1, and of 0.01, 1 and 50 coins |
| `KnownValues.LargeAmounts` | src/test/compress_tests.cpp:48-49 | the compressed forms of 21 and 44 million coins |
| `KnownValues.TargetsRead` | src/test/arith_uint256_tests.cpp:484-532 | compact targets and what they stand for |
| `KnownValues.TargetsWritten` | src/test/arith_uint256_tests.cpp:484-532 | the compact form that each value is written as |

## Left out

- `Select_` and `GetChance` of the address manager (src/addrman.cpp:53-73, 333-395): the choice is by floating-point chance, and it changes nothing but the random draws.
- Wrap-around of `nIdCount`, of counters held in `int` and of `CalcTreeWidth` for counts near 2^32: integers are unbounded except where a narrowing is part of the behaviour.
- The byte layout of the address manager's file: it is a sequence of typed tokens; `nLastTry` is not stored by the daemon and is not restored.
- `fQuit` of the check queue: nothing in the daemon sets it, so workers never leave their loop.
- Memory-usage accounting of the caches, and what a database does with a batch written to it.
- `UpdateCoins`, the script checks, the masternode cache and the OPoI caches: they are arbitrary functions of the selection environment.
- Priorities and fee rates are given numbers; how `double` priorities are computed is not modelled.
- The missing-input branch of the mempool scan (src/miner.cpp:211-222): it is dead for a mempool closed under parents, and leaves dangling entries otherwise.
- The clamping of the block size arguments (src/miner.cpp:150-163), the other fund outputs (src/miner.cpp:571-632), header fields and the retry after a failed validity test.
- BlockAssembly.SelectTransactions: does not say in which order transactions of equal rank are considered, because the heap does not either.
- AddrManFile.Unserialize: reads into a manager whose two maps are empty, as at start-up; the code does not clear them, and deleting an entry left over from before would use a place in the random order that is no longer its own.
- MempoolLimit.WeightedTxTree.FindByEvictionWeight: total eviction weights of 2^31 and more, with which some draws go wrong (`WeightNarrowing.NarrowExactly`), are excluded.
- MempoolLimit.WeightedTxTree.MaybeDropRandom: the same weights are excluded.
- MempoolLimit.EnsureSizeLimit: the same weights are excluded.
- The list of recently evicted transactions (src/mempool_limit.cpp:16-43): a queue with an expiry time that nothing else here depends on.
- SkipHeights.SkipHeight: bitwise and is written as arithmetic; `SkipHeights.InvertedMeaning`, `SkipHeights.EvenSkip` and `SkipHeights.OddSkips` say which bits it clears.
- SkipHeights.StepsAreFew: the constant is not the best one; the 110 steps for 2^18 blocks that src/chain.cpp:71 reports come from a simulation.
- ChecksumDetects.ThreeErrorsDetected: four errors within 89 characters, which src/bech32.cpp:49-50 says were found by selection among codes, are not treated.
- VarInt.Stream.ReadVarInt: overflow of a signed integer, which C++ leaves undefined, wraps around here.
- CoinCodec.ReadCoinBytes: the header code and the sizes of scripts must fit 32 bits.
- Base58.DecodeBase58: takes the characters before the terminating zero of the C string.
- Decrement, bitwise operators, equality with 64-bit values and conversion to text or floating point of 256-bit numbers: nothing proved here needs them.
- Sapling and Sprout trees are opaque values with a root.
- Networking, RPC, start-up, wallet, alerts, bloom filters and the other parts outside the cores above.
