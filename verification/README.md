# Verified models of the node core

A Dafny project that models the stateful structures at the core of the node and proves what they are for.
`dafny verify dfyconfig.toml` checks all of it.

- **Coin caches** (`CoinStack`, `CoinStackTheorems`, `CoinCacheContents`, `CoinsViewCache`). A stack of
  write-back caches over a database stands for one plain map from outpoints to coins per layer. The invariant
  of a layer is the flag contract of `src/coins.h`: FRESH means that the parent shows no unspent coin there, a
  clean unspent entry equals the parent's coin, only five flag states occur, and the usage counter is the
  exact sum. Every run of the hierarchy is a run of plain maps.
- **Address manager** (`AddrManState`, `AddrManInvariant`, `AddrManOps`, `AddrManEffects`, `AddrManCheck`,
  `AddrManAdding`, `AddrManSharing`, `AddrManAgreement`, `AddrManStream`, `AddrManRebucket`,
  `AddrManRoundTrip`, `AddrManRuns`, `BucketTable`, `AddrManImpl`). Id map, address map, random-order vector,
  two bucket tables and the counters agree after every operation of every run; what is taken up, evicted and
  handed out is stated exactly; so is the consistency check; writing and reading back restores everything up
  to the choice of ids, and whatever stream is accepted gives a state in agreement. Hashes, groups, networks
  and address classes are unknown functions, clocks and random numbers are inputs.
- **Check queue** (`CheckQueueProtocol`, `CheckQueueConservation`, `CheckQueue`). One master and any number of
  workers as a transition system whose steps are the critical sections, which checks they evaluate, and the
  class whose critical sections are those steps.
- **Cuckoo cache** (`CuckooState`, `CuckooTheorems`, `CuckooCache`). Eight places for each element, bounded
  displacement, lazy erasure in bit-packed flags, and ageing by epochs, for any hash function.
- **256-bit numbers** (`Powers`, `Limbs`, `ArithUint256`, `CompactBits`). Limb arithmetic against exact
  integers, the compact encoding of targets and the work that a target stands for. Accumulators have a type
  that admits 64-bit values only, so that the verifier shows that none overflows.
- **Block tree and active chain** (`BlockTree`, `ActiveChain`). Skip pointers against walking back one parent
  at a time, and the row of blocks that is the active chain.
- **Base 58 and bech32** (`Radix`, `Base58`, `Base58Texts`, `Bech32Code`, `GaloisField`, `GaloisPowers`,
  `Bech32Distance`, `Bech32`, `Bech32Cases`). The digit buffers of base 58 with the sizes that the code
  computes, and the code behind bech32 and bech32m (BIP 173 and BIP 350), of which the field with 1024
  elements shows that it detects any three errors within 1023 symbols, as the comment on the generator
  promises. Of both it is stated exactly which texts are accepted.

Classes and methods follow the code's own fields and loops; each is proved against functions on values, and
the theorems are about those functions. `Abs()` is the value of an object. `Basics` holds what several
modules share.

Where the code and its comments disagree, the model follows the code: the first entry that an insert into the
cuckoo cache displaces is at the second place of the new element (`src/cuckoocache.h:416-417` says the first),
and the consistency check of the address manager passes states in which the structures do not agree. What it
leaves out is stated exactly by `AddrManAgreement.AgreementIsPassing`; `AddrManCheck.CheckMissesNetwork` shows
one such state. Neither a run at positive times nor an accepted stream leads to it: all states that these lead
to agree. A cache that never read or set its best block writes a null hash into its parent when it is flushed
or synced, which uncovers the hash below the parent (`CoinStackTheorems.BestBlockLost`).

## Model

| member | source | states |
|---|---|---|
| `CoinStackTheorems.ReadIsLookup` | src/coins.cpp:44-68 | a lookup at any depth finds exactly the coins of the view and leaves the view of every layer as it was, although it loads entries into the caches it passes |
| `CoinStackTheorems.FetchIsLookup` | src/coins.cpp:44-59 | loading an entry keeps every layer sound: FRESH only where the parent has no unspent coin, clean unspent entries equal to the parent's coin |
| `CoinStackTheorems.AddCoinIsUpdate` | src/coins.cpp:70-108 | adding is map update for a spendable script and nothing otherwise; the layer stays sound if and only if the script is unspendable, overwriting was allowed, or no unspent coin was visible, although the code looks at its own layer only |
| `CoinStackTheorems.AddCoinThrowLosesCount` | src/coins.cpp:80-86 | the throw happens only when the caller broke that promise, and it leaves the usage counter short of the sum by exactly the heap bytes of the coin that it refused to overwrite |
| `CoinStackTheorems.SpendCoinIsRemoval` | src/coins.cpp:129-149 | spending removes the outpoint from the view, keeps lower views, hands out the coin that was visible, and succeeds for every visible coin |
| `CoinStackTheorems.UncacheIsInvisible` | src/coins.cpp:284-297 | an entry without flags is gone afterwards and one with a flag stays, nothing else is touched, no view changes and every layer stays sound |
| `CoinStackTheorems.MergeOrderIrrelevant` | src/coins.cpp:182-249 | the result of the merge loop does not depend on the order in which the hash map is walked |
| `CoinStackTheorems.WriteOrderIrrelevant` | src/txdb.cpp:129-139 | neither does what the database holds after a write |
| `CoinStackTheorems.MergeMovesViewDown` | src/coins.cpp:182-252 | merging a sound child into a sound parent never meets a misapplied FRESH flag, leaves the parent sound, and makes the parent show what the child showed |
| `CoinStackTheorems.WrittenMovesViewDown` | src/txdb.cpp:129-139 | writing a sound layer into the database makes the database show what the layer showed |
| `CoinStackTheorems.BatchWriteMovesViewDown` | src/coins.cpp:182-252 | the same for a whole stack: the lower stack stays valid, and every view below it is untouched |
| `CoinStackTheorems.ValidNeverThrows` | src/coins.cpp:217-222 | in a valid stack no layer, at any depth, can reach the misapplied-FRESH throw |
| `CoinStackTheorems.FlushKeepsView` | src/coins.cpp:254-265 | Flush leaves the top view unchanged, makes the parent's view equal to it, keeps all lower views, and leaves the cache empty with its usage at zero |
| `CoinStackTheorems.SyncKeepsView` | src/coins.cpp:267-282 | the same views for Sync and the same writing down; but a coin is cached afterwards if and only if it was cached unspent before, as the same coin without flags |
| `CoinStackTheorems.FlushBestBlock` | src/coins.cpp:172-180 | the best block seen from the top survives Flush if and only if the layer has its own hash, or the parent has none, or the parent's equals the one below it; Sync leaves the same best block as Flush |
| `CoinStackTheorems.BestBlockLost` | src/coins.cpp:172-180 | a valid stack of two caches over a database whose best block goes back from 2 to 1 when the top, which was never asked for it, is flushed or synced |
| `CoinStackTheorems.QuietIsPlain` | src/coins.cpp:44-297 | lookups, drops, flushes and syncs of any layer of the stack, however deep, only copy maps downwards |
| `CoinStackTheorems.StepIsPlain` | src/coins.cpp:44-297 | each step of the hierarchy is the matching step on plain maps, one map per layer |
| `CoinStackTheorems.RunIsPlain` | src/coins.cpp:44-297 | every run of the hierarchy, of any depth, is a run of plain maps, and every layer stays sound throughout |
| `CoinCacheContents.UncacheUndoesFetch` | src/coins.cpp:44-59 | dropping a coin that a lookup loaded brings this layer back to what it was |
| `CoinCacheContents.FetchOfNothing` | src/coins.cpp:50-56 | a lookup that finds nothing leaves the layer alone, unless the database keeps a spent record, which is remembered as fresh and so never written |
| `CoinCacheContents.SpendAfterAdd` | src/coins.cpp:70-149 | adding and then spending a coin leaves no entry at all exactly if the entry before was fresh, or overwriting was not allowed and there was no dirty entry; otherwise a dirty spent one stays, as it does whenever the parent shows a coin |
| `CoinCacheContents.SpendUndoesAdd` | src/coins.cpp:70-149 | adding a coin at a new outpoint and spending it is undone completely |
| `CoinCacheContents.MergeIgnoresClean` | src/coins.cpp:186-189 | entries that are not dirty are not merged |
| `CoinCacheContents.MergePassesDirty` | src/coins.cpp:190-247 | a dirty entry goes down with the child's coin, fresh if the lower of the two layers that know the outpoint says so; a spent entry vanishes exactly if it is fresh in that sense |
| `CoinCacheContents.CreatedThenSpent` | src/coins.cpp:182-249 | a coin created in one batch and spent in a later one leaves nothing in the parent |
| `CoinCacheContents.WrittenRecords` | src/txdb.cpp:129-139 | the database holds what the dirty entries say, at every outpoint |
| `CoinsViewCache.CoinsViewCache.FetchCoin` | src/coins.cpp:44-59 | the object's stack value changes as the function says, through all base pointers |
| `CoinsViewCache.CoinsViewCache.GetCoin` | src/coins.cpp:61-68 | finds exactly the visible unspent coin and changes no view of a valid stack |
| `CoinsViewCache.CoinsViewCache.HaveCoin` | src/coins.cpp:162-165 | answers whether the outpoint is in the view |
| `CoinsViewCache.CoinsViewCache.AccessCoin` | src/coins.cpp:153-160 | an unspent answer is the visible coin; a spent one means that nothing is visible |
| `CoinsViewCache.CoinsViewCache.AddCoin` | src/coins.cpp:70-108 | the whole new state, and exactly when it throws |
| `CoinsViewCache.CoinsViewCache.SpendCoin` | src/coins.cpp:129-149 | the whole new state, the coin moved out, and the answer, which is true for any entry that is present, spent or not |
| `CoinsViewCache.CoinsViewCache.Uncache` | src/coins.cpp:284-297 | the whole new state |
| `CoinsViewCache.CoinsViewCache.GetBestBlock` | src/coins.cpp:172-176 | the answer is the first hash from the top, and remembering it changes no view |
| `CoinsViewCache.CoinsViewCache.BatchWrite` | src/coins.cpp:182-252 | throws exactly when a FRESH entry meets an unspent one; otherwise merges all dirty entries and, when erasing, leaves nothing in the child |
| `CoinsViewCache.CoinsViewCache.MergeInto` | src/coins.cpp:186-248 | the body of the merge loop, with the usage counter kept exact even when it throws |
| `CoinsViewCache.CoinsViewCache.Flush` | src/coins.cpp:254-265 | in a valid stack neither of its throws is reached, and the view of the cache and of its base equal the old view; the cache is empty and its usage zero |
| `CoinsViewCache.CoinsViewCache.Sync` | src/coins.cpp:267-282 | the same throws and views for Sync; the cache holds exactly the coins that it held unspent, without flags |
| `CoinsViewCache.CoinsViewCache.SanityCheck` | src/coins.cpp:325-340 | its assertions hold if and only if the flags of all entries are legal and the usage counter is the exact sum; in a valid stack they hold |
| `CoinsViewCache.CoinsViewDB.BatchWrite` | src/txdb.cpp:104-162 | the database ends with the dirty entries written or erased and the new best block |
| `AddrManInvariant.CreateKeepsCore` | src/addrman.cpp:419-433 | creating an entry keeps id map, address map, random-order vector, tables and counters in agreement, up to the entry's missing reference |
| `AddrManInvariant.SwapRandomKeepsCore` | src/addrman.cpp:435-457 | swapping two places of the vector keeps agreement and moves nothing else |
| `AddrManInvariant.DeleteKeepsCore` | src/addrman.cpp:459-474 | deleting an unreferenced entry keeps agreement |
| `AddrManInvariant.ClearNewKeepsCore` | src/addrman.cpp:476-492 | clearing a slot keeps agreement, and its entry goes exactly when that was its last reference |
| `AddrManOps.StripRemovesAll` | src/addrman.cpp:498-512 | the loop over the buckets, started anywhere, removes exactly the references to the id, and its count ends at zero |
| `AddrManOps.MakeTriedKeepsCore` | src/addrman.cpp:494-551 | moving an entry to the tried table keeps agreement |
| `AddrManOps.MakeTriedEffect` | src/addrman.cpp:494-551 | the entry is tried in its own slot; an evicted entry is new again with exactly one reference in its home slot and otherwise as it was; of the others only the holder of that slot can be gone |
| `AddrManOps.InsertKeepsCore` | src/addrman.cpp:602-625 | the second half of AddSingle keeps agreement, never reuses an id, and keeps tried slots taken |
| `AddrManOps.AddSingleKeepsCore` | src/addrman.cpp:553-626 | adding an address keeps agreement |
| `AddrManOps.GoodKeepsInv` | src/addrman.cpp:628-684 | confirming an address keeps agreement and at most ten waiting collisions, each for an occupied slot |
| `AddrManOps.ResolveOneKeepsInv` | src/addrman.cpp:899-954 | handling one waiting collision keeps agreement |
| `AddrManOps.ResolveKeepsInv` | src/addrman.cpp:895-956 | handling all of them does |
| `AddrManOps.SelectTriedCollisionFinds` | src/addrman.cpp:958-984 | a waiting id that is known always finds an occupied slot, so that no entry for id -1 is ever read or created; one that is unknown stops waiting |
| `AddrManOps.OnEntryKeepsInv` | src/addrman.cpp:698-716 | changing the statistics of one entry keeps agreement, for attempts, connections and services alike |
| `AddrManOps.CollectKeepsInv` | src/addrman.cpp:811-847 | GetAddr's loop keeps agreement and only reorders the vector |
| `AddrManOps.PerformKeepsInv` | src/addrman.cpp:553-956 | every operation keeps all structures in agreement |
| `AddrManEffects.InsertEffect` | src/addrman.cpp:602-625 | the new table gains exactly the slot, or nothing; the reference count grows by one; only the holder of the slot can be gone, and only with its last reference |
| `AddrManEffects.AddSingleEffect` | src/addrman.cpp:553-626 | an address is either put into the slot that its source gives it, or no table changes and no entry comes or goes; an unroutable one changes nothing |
| `AddrManEffects.GoodEffect` | src/addrman.cpp:628-684 | an address moves to its tried slot if and only if it is known, not yet tried and need not wait; otherwise it waits if there is room; the success is recorded in any case, and no other field and no other entry changes except by the move |
| `AddrManEffects.ResolveOneEffect` | src/addrman.cpp:899-954 | an entry is moved if and only if it is known and valid and its slot is free or the holder had its chance: no success within 4 hours, and tried within these but more than 60 seconds ago, or not tried and the waiting entry's last success more than 40 minutes ago; it is given up without any other change if it is unknown, invalid or the holder succeeded within 4 hours; and otherwise it goes on waiting |
| `AddrManEffects.ResolveIsEach` | src/addrman.cpp:895-956 | the pass handles exactly the waiting ids, each once and in ascending order, whatever the earlier ones did to the tables |
| `AddrManAdding.OneDrawPasses` | src/addrman.cpp:593-596 | with r references exactly one of 2^r successive random numbers passes the test |
| `AddrManAdding.InsertDecides` | src/addrman.cpp:602-625 | a slot is taken if and only if it is free, or another entry holds it that is terrible, or has further references while the newcomer has none |
| `AddrManAdding.AddKnownDecides` | src/addrman.cpp:567-625 | a known address gains a reference if and only if the announcement is later than the entry's updated time, the entry is not tried and has fewer than eight references, the random number is a multiple of 2 to their number, and the slot is free or held by another, terrible entry; time and services are updated in any case, as stated in seconds |
| `AddrManAdding.AddUnknownDecides` | src/addrman.cpp:597-625 | an unknown address is taken up if and only if its slot is free or the holder is terrible or has another reference, with exactly the stated entry; otherwise it is forgotten at once |
| `AddrManSharing.TerribleMeans` | src/addrman.cpp:69-92 | which entries are terrible, in seconds, attempts and successes |
| `AddrManSharing.GetAddrEffect` | src/addrman.cpp:811-847 | GetAddr hands out different shareable entries, as many as there are, as were asked for, or as the percentage of all entries allows, whichever is least; all of them when no limit is reached |
| `AddrManSharing.AnyOrder` | src/addrman.cpp:823-833 | whatever order of the entries one asks for, there are random numbers with which the shareable ones come out in that order |
| `AddrManEffects.FailuresCountOnce` | src/addrman.cpp:698-716 | however many attempts fail one after the other, they count as one failure until some entry has a success again |
| `AddrManCheck.CountsAddUp` | src/addrman.cpp:1057-1058 | nNew + nTried is the size of the random-order vector |
| `AddrManCheck.InvIsConsistent` | src/addrman.cpp:1046-1149 | every state in which the structures agree passes the check |
| `AddrManAgreement.AgreementIsPassing` | src/addrman.cpp:1046-1149 | the structures agree if and only if the check passes and what it leaves out holds: a counter for the network of every entry, no stale address in the address map, only ids that were handed out, and sound waiting collisions |
| `AddrManRuns.AcceptedAgrees` | src/addrman.cpp:230-404 | every stream that is accepted, whoever wrote it, gives a state in which all structures agree; one that fails the check does not |
| `AddrManRuns.RunKeepsInv` | src/addrman.cpp:230-956 | from the empty manager with a non-null key, and from every stream that is accepted, every sequence of operations at positive times leaves them in agreement, so that the check passes |
| `AddrManCheck.CheckEntries` | src/addrman.cpp:1060-1091 | the first loop passes exactly when every entry passes, and recounts them |
| `AddrManCheck.CheckTried` | src/addrman.cpp:1098-1113 | the second loop passes exactly when every occupied tried slot is its tried entry's own and is met once |
| `AddrManCheck.CheckNew` | src/addrman.cpp:1115-1128 | the third loop passes exactly when every occupied new slot is right and no reference count is exceeded |
| `AddrManCheck.CheckCounts` | src/addrman.cpp:1137-1146 | the last loop passes exactly when the counters for the networks equal the recounted ones |
| `AddrManImpl.AddrManImpl.Create` | src/addrman.cpp:419-433 | the new state is the one that the specification functions give |
| `AddrManImpl.AddrManImpl.SwapRandom` | src/addrman.cpp:435-457 | the new state is the one that the specification functions give |
| `AddrManImpl.AddrManImpl.Delete` | src/addrman.cpp:459-474 | the new state is the one that the specification functions give |
| `AddrManImpl.AddrManImpl.ClearNew` | src/addrman.cpp:476-492 | the new state is the one that the specification functions give |
| `AddrManImpl.AddrManImpl.MakeTried` | src/addrman.cpp:494-551 | the new state, through the scan of the buckets and the eviction; no assertion of the code can fail |
| `AddrManImpl.AddrManImpl.RemoveReferences` | src/addrman.cpp:498-508 | the scan from the start bucket, modulo the number of buckets, does what the specified scan does |
| `AddrManImpl.AddrManImpl.EvictFrom` | src/addrman.cpp:518-544 | the eviction out of a tried slot |
| `AddrManImpl.AddrManImpl.AddSingle` | src/addrman.cpp:553-626 | the new state and the answer |
| `AddrManImpl.AddrManImpl.Good` | src/addrman.cpp:628-684 | the new state and the answer |
| `AddrManImpl.AddrManImpl.Attempt` | src/addrman.cpp:698-716 | an unknown address changes nothing; a known one gets the time of the attempt and one more failure exactly if it is to be counted and none was since the last success; no other entry changes and the structures stay in agreement |
| `AddrManImpl.AddrManImpl.Connected` | src/addrman.cpp:849-866 | the time of a known address moves up exactly if it is more than twenty minutes behind; nothing else changes and the structures stay in agreement |
| `AddrManImpl.AddrManImpl.SetServices` | src/addrman.cpp:868-882 | the services of a known address are replaced; nothing else changes and the structures stay in agreement |
| `AddrManImpl.AddrManImpl.ResolveCollisions` | src/addrman.cpp:895-956 | the new state is the one that the specification functions give |
| `AddrManImpl.AddrManImpl.SelectTriedCollision` | src/addrman.cpp:958-984 | the new state; the answer is a tried entry or nothing |
| `AddrManImpl.AddrManImpl.GetAddr` | src/addrman.cpp:811-847 | the new state and the ids handed out: different shareable entries, as many as the limits allow |
| `AddrManImpl.AddrManImpl.CheckAddrman` | src/addrman.cpp:1046-1149 | returns 0 if and only if the stated consistency conditions hold |
| `AddrManImpl.AddrManImpl.Serialize` | src/addrman.cpp:131-227 | the records written are the specified ones; the two assertions on the counters in the writing loops cannot fail |
| `AddrManImpl.AddrManImpl.Unserialize` | src/addrman.cpp:230-404 | for any stream, refuses it or ends in the state that the specification gives for the key in the stream, and says which; when it accepts, all structures agree |
| `AddrManStream.DeleteKeepsReadable` | src/addrman.cpp:383-393 | in every state that any stream leads to, entries can be deleted |
| `AddrManStream.ReadNewKeepsReadable` | src/addrman.cpp:287-296 | reading any new addresses keeps vector and id map inverse to each other |
| `AddrManStream.ReadTriedKeepsReadable` | src/addrman.cpp:298-319 | reading any tried addresses does too, whether or not some are lost |
| `AddrManRoundTrip.WrittenOnce` | src/addrman.cpp:190-209 | every entry is written exactly once, and the counters announce the right numbers |
| `AddrManRoundTrip.NumbersFit` | src/addrman.cpp:273-285 | the announced numbers never exceed what the reader accepts |
| `AddrManRoundTrip.EntriesWritten` | src/addrman.cpp:210-223 | reading the buckets back gives exactly one entry for each occupied slot |
| `AddrManRoundTrip.AddressesRead` | src/addrman.cpp:287-319 | all addresses are read back under their new ids, and no tried one is lost |
| `AddrManRoundTrip.RoomForOne` | src/addrman.cpp:361-370 | an entry that still waits for its slot finds it free and has room for the reference |
| `AddrManRoundTrip.PlacedIsRestored` | src/addrman.cpp:353-381 | with all references placed, both tables, the addresses and the counts are those from before |
| `AddrManRoundTrip.RestoredInv` | src/addrman.cpp:131-404 | the restored structures agree |
| `AddrManRoundTrip.RoundTrip` | src/addrman.cpp:131-404 | for every manager in agreement with valid addresses, reading what was written, with the same checksum, restores it up to the choice of ids: same entries, same slots, same reference counts, nothing lost or pruned |
| `AddrManRebucket.OutcomeMeans` | src/addrman.cpp:244-404 | how reading ends, for every stream: by the version it demands, its numbers, its completeness and the check, in this order |
| `AddrManRebucket.OldFormats` | src/addrman.cpp:264-271 | a stream of an older format reads exactly as its translation into the current one: only the bucket count of the first and the missing checksum of the first two differ |
| `AddrManRebucket.WrittenAs` | src/addrman.cpp:141-188 | what the header of a written stream says |
| `AddrManRebucket.TriedFirstCome` | src/addrman.cpp:298-319 | of the tried addresses the first valid one for each slot is kept as it was saved, the others are lost, and the counter follows |
| `AddrManRebucket.Rebucketed` | src/addrman.cpp:353-381 | when buckets cannot be restored, each slot goes to the first valid address that claims it as its home, and every address has one reference or none |
| `AddrManRebucket.PlacedWhere` | src/addrman.cpp:357-380 | where one reference of a stream goes, if anywhere, in either case |
| `AddrManRebucket.PruneExact` | src/addrman.cpp:383-393 | exactly the entries with neither a reference nor a tried slot are deleted |
| `AddrManRebucket.RebucketedRead` | src/addrman.cpp:353-393 | reading with another map of networks or number of buckets leaves of the new addresses exactly those that hold their home slot, and all tried ones |
| `CheckQueueProtocol.BatchSizeBounds` | src/checkqueue.h:107-112 | a batch is between one check and the whole queue, also when more threads are counted than exist |
| `CheckQueueConservation.BatchIsShare` | src/checkqueue.h:107-112 | a batch is the largest size that is within the limit and an even share of the queue, but one at least |
| `CheckQueueConservation.SectionFailures` | src/checkqueue.h:79-121 | a known failure is passed from a reported batch to the result and from there to the batch that is taken, of which nothing is evaluated then |
| `CheckQueueConservation.NoneTwice` | src/checkqueue.h:107-127 | at no time was a check evaluated more often than it was added |
| `CheckQueueConservation.AnswerEvaluates` | src/checkqueue.h:91-127 | when the answer is given, either all checks passed and each was evaluated as often as it was added, or one was evaluated and failed |
| `CheckQueueConservation.StepConserves` | src/checkqueue.h:68-129 | every step keeps each check in the queue, in one batch or among the reported ones, as often as it was added |
| `CheckQueueConservation.RunConserves` | src/checkqueue.h:68-129 | so does every interleaving |
| `CheckQueueProtocol.StepKeepsInv` | src/checkqueue.h:68-129 | every critical section, addition, call of Wait and evaluation keeps the invariant, for any number of workers |
| `CheckQueueProtocol.RunKeepsInv` | src/checkqueue.h:68-129 | so does every interleaving; in particular nTodo is the queued checks plus those in unreported batches |
| `CheckQueueProtocol.RunEnabled` | src/checkqueue.h:77-121 | a thread that is inside the loop and not blocked can always take its next step |
| `CheckQueueProtocol.AnswersAreRight` | src/checkqueue.h:160-164 | Wait returns true if and only if every check added since the last Wait passes, although checks are skipped after a failure |
| `CheckQueueProtocol.ReturnLeavesClean` | src/checkqueue.h:91-98 | when the master returns, the queue is empty, nothing is to do, no thread has a batch, and fAllOk is reset |
| `CheckQueueProtocol.MasterNotForgotten` | src/checkqueue.h:79-102 | while the master is blocked without a pending notification, some worker holds an unreported batch |
| `CheckQueueProtocol.NoDeadlock` | src/checkqueue.h:68-129 | while the master waits, some thread is on its way or the master has been signalled |
| `CheckQueueProtocol.RunMoves` | src/checkqueue.h:68-129 | a thread that wakes up for nothing changes nothing; every other step of a thread brings a measure of the remaining work down |
| `CheckQueueProtocol.SomeoneMoves` | src/checkqueue.h:68-129 | while the master waits for its answer, some thread can take a step that brings the measure down |
| `CheckQueueProtocol.MovesAreBounded` | src/checkqueue.h:68-129 | however the threads are scheduled, they change something only as often as the measure says until more checks are added |
| `CheckQueueProtocol.StuckIsAnswered` | src/checkqueue.h:68-129 | when no step changes anything any more, the master has its answer |
| `CheckQueue.CheckQueue.Add` | src/checkqueue.h:166-186 | the checks join the queue and are counted |
| `CheckQueue.CheckQueue.CriticalSection` | src/checkqueue.h:77-121 | the fields change as one atomic step of the protocol, and the master is notified exactly when its last work is reported |
| `CheckQueue.CheckQueue.PopBatch` | src/checkqueue.h:113-119 | the batch is the end of the queue, in reverse order |
| `CheckQueue.ExecuteBatch` | src/checkqueue.h:123-127 | the result of a batch is the flag it started with and all its checks |
| `CuckooTheorems.ContainsFindsLive` | src/cuckoocache.h:466-476 | a lookup finds every live element, and finds an element if and only if one of its eight places holds it |
| `CuckooTheorems.SettleLive` | src/cuckoocache.h:404-412 | settling into an open place adds the element and loses none |
| `CuckooTheorems.SwapLive` | src/cuckoocache.h:427-432 | exchanging the element in hand with a live one loses neither |
| `CuckooTheorems.DisplaceLive` | src/cuckoocache.h:403-436 | the displacement loop keeps every live element and the one in hand if within its turns an element comes into hand that has an open place, and otherwise loses the one in hand at the end |
| `CuckooTheorems.DisplaceDrops` | src/cuckoocache.h:403-436 | exactly then it drops that element; which elements come into hand is given by the table before the call |
| `CuckooTheorems.EpochCheckLive` | src/cuckoocache.h:285-317 | ageing lets go of exactly the entries of the old epoch |
| `CuckooTheorems.InsertLive` | src/cuckoocache.h:389-437 | after the epoch check, insert adds the element and loses none if there is room: the element is there already, or an element with an open place comes into hand within the depth limit; otherwise it loses the one in hand at the limit; every live entry stays at one of its own places |
| `CuckooTheorems.InsertDrops` | src/cuckoocache.h:389-437 | what is dropped is that element, and nothing when there is room |
| `CuckooTheorems.OpenPlaceIsRoom` | src/cuckoocache.h:403-412 | there is room when one of the element's own places is open |
| `CuckooTheorems.NextDisplaced` | src/cuckoocache.h:413-427 | displacement goes from the k-th place to the one after it modulo eight, and starts at the second place of the new element, not at its first as the comment there says |
| `CuckooTheorems.EraseMarks` | src/cuckoocache.h:462-476 | an erasing lookup sets exactly one flag if it finds the element, that of the first of its places that holds it, and changes nothing otherwise |
| `CuckooTheorems.ErasedMakesRoom` | src/cuckoocache.h:462-476 | that place is then open to every element that has it among its own: the next insert of such an element drops nothing |
| `CuckooTheorems.RunThenErase` | src/cuckoocache.h:462-476 | after any inserts and erasing lookups, one more erasing lookup takes exactly its element out of the live ones, and it can still be found |
| `CuckooTheorems.InsertLiveRecent` | src/cuckoocache.h:388-436 | the inserted element belongs to the current epoch, also if it was there before, and displaced ones keep theirs |
| `CuckooTheorems.CountIsNumber` | src/cuckoocache.h:293-296 | the scan counts the live entries of the current epoch |
| `CuckooTheorems.Countdown` | src/cuckoocache.h:285-317 | entries are counted only when the countdown is over; it then starts again at the stated number of inserts |
| `CuckooTheorems.EpochIsShare` | src/cuckoocache.h:344-345 | an epoch is 45 hundredths of the table, rounded down, but one entry at least |
| `CuckooTheorems.ErasedIsStillFound` | src/cuckoocache.h:440-456 | an erasing lookup leaves every element as findable as before |
| `CuckooTheorems.InsertBounded` | src/cuckoocache.h:285-317 | live entries of the current epoch plus the countdown stay within epoch_size + max(1, epoch_size / 16) |
| `CuckooTheorems.RunKeepsBound` | src/cuckoocache.h:336-437 | so they do over every run of inserts and erasing lookups after setup, and every live entry can be found |
| `CuckooState.FastRangeBelow` | src/util/fastrange.h:18-22 | the reduced hash is below the size of the table |
| `CuckooState.FastRangeFair` | src/util/fastrange.h:12-22 | every place stands for consecutive hash words, 2^32 / size of them rounded down or up |
| `CuckooState.LocIs` | src/cuckoocache.h:239-249 | the k-th place of an element is the one whose words include its k-th hash |
| `CuckooCache.SettingABit` | src/cuckoocache.h:92-116 | setting or clearing one bit of a byte changes that bit only |
| `CuckooCache.BitPackedFlags.Set` | src/cuckoocache.h:92-95 | exactly one flag is set, in the packed bytes |
| `CuckooCache.BitPackedFlags.Unset` | src/cuckoocache.h:103-106 | exactly one flag is cleared |
| `CuckooCache.BitPackedFlags.IsSet` | src/cuckoocache.h:113-116 | the answer is the flag |
| `CuckooCache.CuckooCache.Setup` | src/cuckoocache.h:336-349 | the new cache is empty, with 45 percent of the size, in 32-bit arithmetic, as the epoch |
| `CuckooCache.CuckooCache.EpochCheck` | src/cuckoocache.h:285-317 | the arrays and the countdown change as specified |
| `CuckooCache.CuckooCache.Insert` | src/cuckoocache.h:389-437 | the arrays change as specified, through the loop of displacements |
| `CuckooCache.CuckooCache.Contains` | src/cuckoocache.h:466-476 | the answer and the flag of the found entry are as specified |
| `ArithUint256.ArithUint256.Add` | src/arith_uint256.h:127-137 | the sum modulo 2^256; the 64-bit accumulator does not overflow, also when a number is added to itself |
| `ArithUint256.ArithUint256.Increment` | src/arith_uint256.h:165-172 | one more, modulo 2^256 |
| `ArithUint256.ArithUint256.Decrement` | src/arith_uint256.h:182-189 | one less, modulo 2^256 |
| `ArithUint256.ArithUint256.Complement` | src/arith_uint256.h:61-67 | 2^256 - 1 less the value |
| `ArithUint256.ArithUint256.Negated` | src/arith_uint256.h:69-76 | 2^256 less the value, modulo 2^256 |
| `ArithUint256.ArithUint256.Subtract` | src/arith_uint256.h:139-143 | the difference modulo 2^256 |
| `ArithUint256.ArithUint256.ShiftLeft` | src/arith_uint256.cpp:20-35 | the value times two to the shift, modulo 2^256, for every shift |
| `ArithUint256.ArithUint256.ShiftRight` | src/arith_uint256.cpp:37-52 | the quotient by two to the shift, for every shift |
| `ArithUint256.ArithUint256.MultiplyWord` | src/arith_uint256.cpp:54-64 | the product modulo 2^256, without overflow of the accumulator |
| `ArithUint256.ArithUint256.Multiply` | src/arith_uint256.cpp:66-80 | the schoolbook product modulo 2^256, without overflow of the accumulator, also for a square |
| `ArithUint256.ArithUint256.Divide` | src/arith_uint256.cpp:82-106 | the exact quotient, with the remainder below the divisor left over; a zero divisor is refused after the number was set to zero |
| `ArithUint256.ArithUint256.CompareTo` | src/arith_uint256.cpp:108-118 | negative, zero or positive as the values compare |
| `ArithUint256.ArithUint256.EqualTo` | src/arith_uint256.cpp:120-132 | equality of values |
| `ArithUint256.ArithUint256.Bits` | src/arith_uint256.cpp:178-191 | the position of the highest bit set plus one, or zero |
| `ArithUint256.ArithUint256.GetLow64` | src/arith_uint256.h:237-241 | the value modulo 2^64 |
| `ArithUint256.AlignedBound` | src/arith_uint256.cpp:88-95 | aligning the divisor with the number loses no bits |
| `ArithUint256.ClearAt` | src/arith_uint256.cpp:96-103 | the quotient's bit is not yet set, so that setting it adds its weight |
| `CompactBits.DecodeMeans` | src/arith_uint256.cpp:198-216 | overflow is flagged if and only if mantissa * 256^(size - 3) is at least 2^256; the value is that product as far as it fits, and the word is negative if and only if its sign bit is set and the number is not zero |
| `CompactBits.EncodedShape` | src/arith_uint256.cpp:218-233 | a non-zero number keeps 16 to 23 leading bits |
| `CompactBits.EncodeFits` | src/arith_uint256.cpp:234-235 | both assertions of GetCompact hold for every number |
| `CompactBits.EncodeRoundTrip` | src/arith_uint256.cpp:198-239 | decoding an encoded number flags no overflow, gives the sign back, is at most the number, and loses less than one part in 2^15 |
| `CompactBits.EncodeIsStable` | src/arith_uint256.cpp:198-239 | encoding what an encoded number decodes to gives the same word |
| `CompactBits.DecodedSurvives` | src/arith_uint256.cpp:198-239 | whatever decodes without overflow survives encoding and decoding exactly |
| `CompactBits.SetCompact` | src/arith_uint256.cpp:198-216 | the limbs and both flags are those of the decoded word |
| `CompactBits.GetCompact` | src/arith_uint256.cpp:218-239 | the word is the encoded one; truncations to 64 and 32 bits change nothing, and the three fields do not overlap |
| `CompactBits.GetBlockProof` | src/chain.cpp:131-144 | 2^256 / (target + 1), rounded down, for every usable target, otherwise 0; no division by zero and no wrap-around |
| `BlockTree.LowestOneInverted` | src/chain.cpp:79-80 | what is taken away is the lowest power of two in the number |
| `BlockTree.SkipHeightMeans` | src/chain.cpp:83-91 | from an even height the skip takes off the lowest power of two, from an odd one the two lowest of the height less one |
| `BlockTree.CBlockIndex.GetAncestor` | src/chain.cpp:93-118 | the ancestor that walking back one parent at a time reaches, or null outside the valid heights; it terminates and never overshoots |
| `BlockTree.CBlockIndex.BuildSkip` | src/chain.cpp:125-129 | the skip pointer leads to the ancestor at the skip height, and the tree stays a tree |
| `BlockTree.CBlockIndex.Attach` | src/node/blockstorage.cpp:107-112 | a block that gets its parent, its height and its skip pointer joins the tree, without changing any ancestor |
| `BlockTree.GenesisIsTree` | src/chain.cpp:125-129 | a first block is a tree |
| `BlockTree.AncestorOfAncestor` | src/chain.cpp:93-118 | ancestors of ancestors are ancestors, so that jumps compose |
| `BlockTree.LastCommonAncestor` | src/chain.cpp:165-180 | the greatest common ancestor of any two blocks, null if and only if their first blocks differ; the final assertion holds |
| `ActiveChain.CChain.ContainsAncestors` | src/chain.h:452-455 | a block is in the chain if and only if it is an ancestor of the tip |
| `ActiveChain.CChain.SetTip` | src/chain.cpp:22-30 | the chain becomes the whole path of the new tip, although the walk stops at the first block in place |
| `ActiveChain.AllSet` | src/chain.cpp:26-29 | what the old chain holds below a block in place is that block's path |
| `ActiveChain.CChain.FindFork` | src/chain.cpp:60-69 | the highest ancestor of the block in the chain, null if there is none |
| `ActiveChain.CChain.GetLocator` | src/chain.cpp:32-58 | the ancestors at the locator's heights, whichever of the two ways finds them |
| `ActiveChain.LocatorShape` | src/chain.cpp:32-58 | a locator starts with the block itself, goes down strictly and ends with the first block |
| `ActiveChain.LocatorHeightsAre` | src/chain.cpp:32-58 | entry k of a locator is k blocks below the first up to the twelfth entry, 9 + 2^(k - 10) blocks from then on, and the last is the first block |
| `Radix.MultiplyAdd` | src/base58.cpp:61-68 | multiplies the number in the buffer and adds a digit in place; a buffer that is large enough leaves no carry, and the filled length has no leading zero |
| `Radix.PowersCompare` | src/base58.cpp:52-52 | powers of two bases compare as their exponents do, from one known pair of exponents |
| `Radix.DigitsOfValue` | src/base58.cpp:77-83 | digits that do not start with zero are the digits of their value |
| `Base58.EncodeBufferSuffices` | src/base58.cpp:97-97 | 138 hundredths of the bytes, and one, are enough digits, for all lengths |
| `Base58.DecodeBufferSuffices` | src/base58.cpp:52-52 | 733 thousandths of the symbols, and one, are enough bytes, for all lengths |
| `Base58.DecodeOfEncode` | src/base58.cpp:38-133 | decoding what was encoded gives the bytes back, if they are no more than allowed |
| `Base58.EncodeOfDecode` | src/base58.cpp:38-133 | encoding what was decoded gives the text back without the white space around it |
| `Base58Texts.SymbolsAre` | src/base58.cpp:15-15 | the symbols are the digits and letters but for 0, I, O and l, in ascending order |
| `Base58Texts.SpacesAre` | src/util/strencodings.h:168-170 | which characters are white space |
| `Base58Texts.PaddedDecode` | src/base58.cpp:38-85 | white space around a text does not change the answer |
| `Base58Texts.Accepts` | src/base58.cpp:38-85 | a text decodes to given bytes if and only if it is their encoding with white space around it and they are no more than allowed |
| `Base58Texts.ChecksAccepts` | src/base58.cpp:136-169 | with a check at the end: a text decodes to given bytes if and only if it is their encoding with its check, with white space around it, and the bytes are no more than allowed, also at the end of the integer range |
| `Base58Texts.EncodeBase58Check` | src/base58.cpp:136-143 | computes the specified text, for any hash |
| `Base58Texts.DecodeBase58Check` | src/base58.cpp:145-169 | accepts and computes exactly what is specified, for any hash |
| `Base58.EncodeBase58` | src/base58.cpp:87-125 | the loops over the buffer compute the specified text; the assertion on the carry holds |
| `Base58.DecodeBase58` | src/base58.cpp:38-85 | the loops accept and compute exactly what is specified, for every text and limit; the assertion on the carry holds |
| `Bech32Code.RunLinear` | src/bech32.cpp:89-127 | the remainder of a sum is the sum of the remainders |
| `Bech32Code.StepKernel` | src/bech32.cpp:89-127 | only zero steps to zero |
| `Bech32Code.BurstDetected` | src/bech32.cpp:42-128 | any change that is confined to six consecutive symbols, a single symbol in particular, changes the remainder |
| `Bech32Code.VariantsApart` | src/bech32.cpp:33-37 | changing one of the last 91 symbols never turns the constant of one variant into that of the other |
| `Bech32Code.GroupsPacked` | src/bech32.cpp:171-175 | six symbols after a zero remainder give back the remainder that they were taken from |
| `Bech32Code.SixSymbols` | src/bech32.cpp:165-177 | exactly one choice of six symbols leads to a given remainder |
| `GaloisField.TimesAssociative` | src/bech32.cpp:56-62 | the field that the generator comes from: products of its 1024 elements do not depend on how they are grouped |
| `GaloisField.ExpAdd` | src/bech32.cpp:72-86 | powers of the primitive element multiply by adding their exponents |
| `GaloisPowers.OrderIsFull` | src/bech32.cpp:77-80 | the primitive element has order 1023: fewer steps move every element but zero |
| `Bech32Distance.GeneratorVanishes` | src/bech32.cpp:81-85 | the generator, as the code's first constant has it, vanishes at three consecutive powers, 997 to 999, of the primitive element |
| `Bech32Distance.ReduceValue` | src/bech32.cpp:115-126 | each of the five constants, and every sum of them, is the multiple of the generator's lower terms that the shifted-out symbol calls for |
| `Bech32Distance.StepValue` | src/bech32.cpp:88-127 | a turn of the loop on the packed remainder is, at the roots of the generator, multiplication by the root and addition of the symbol |
| `Bech32Distance.RunValue` | src/bech32.cpp:44-54 | the remainder has the value of the polynomial that it is the remainder of, at every root |
| `Bech32Distance.ThreeTerms` | src/bech32.cpp:84-87 | the bound on the distance of such a code: three terms that balance at three consecutive powers are zero |
| `Bech32Distance.ThreeChangesDetected` | src/bech32.cpp:47-54 | any change of up to three symbols within a window of 1023 changes the remainder, in rows of any length |
| `Bech32Distance.LeadingZerosNoticed` | src/bech32.cpp:44-47 | the implicit one in front makes any number of leading zeros below 1023 change the remainder |
| `Bech32.ChecksumVerifies` | src/bech32.cpp:151-177 | six symbols verify as an encoding if and only if they are the created checksum |
| `Bech32.DecodeOfEncode` | src/bech32.cpp:181-228 | decoding what was encoded succeeds if and only if the human-readable part is not empty and printable and the text has at most 90 characters; then it gives everything back |
| `Bech32.EncodeOfDecode` | src/bech32.cpp:181-228 | encoding what was decoded gives the text back in lower case |
| `Bech32Cases.CaseIgnored` | src/bech32.cpp:197-228 | a text of one case means what it means in lower case; a text of mixed case is refused |
| `Bech32Cases.UpperDecodes` | src/bech32.cpp:197-228 | an encoded text decodes to its inputs in upper case as well |
| `Bech32Cases.Accepts` | src/bech32.cpp:197-228 | a text decodes to given inputs if and only if it is of one case, in lower case it is their encoding, their part is not empty and printable, and it has at most 90 characters |
| `Bech32Cases.KnownBech32` | src/test/bech32_tests.cpp:17-17 | the valid text A12UEL5L of BIP 173 is bech32 with the part a and no data |
| `Bech32Cases.KnownBech32m` | src/test/bech32_tests.cpp:41-41 | the valid text A1LQFN3A of BIP 350 is bech32m with the part a and no data |
| `Bech32.OneSymbolRejected` | src/bech32.cpp:151-163 | values that verify as either variant verify as neither after a change of one symbol |
| `Bech32.OneErrorRejected` | src/bech32.cpp:197-228 | a character after the separator that is replaced by another one, other than the separator, is always noticed |
| `Bech32.ThreeSymbolsRejected` | src/bech32.cpp:151-163 | values that verify as a variant no longer do after a change of up to three symbols within 1023 |
| `Bech32.ThreeErrorsRejected` | src/bech32.cpp:197-228 | up to three characters after the separator that are replaced by others, other than the separator, never give a text of the same variant that means something else |
| `Bech32.PartChangeDetected` | src/bech32.cpp:130-149 | replacing a character of a human-readable part of at most 1021, which is two symbols, changes the remainder, whatever follows |
| `Bech32.PartErrorRejected` | src/bech32.cpp:197-228 | a character of the human-readable part that is replaced, with or without one after the separator, never gives a text of the same variant that means something else |
| `Bech32.CharRoundTrip` | src/bech32.cpp:18-31 | the character for a symbol stands for that symbol |
| `Bech32.SymbolRoundTrip` | src/bech32.cpp:18-31 | a character that stands for a symbol is that symbol's, up to its case |
| `Bech32.ComputePolyMod` | src/bech32.cpp:89-127 | the loop computes the remainder |
| `Bech32.ComputeExpandedHRP` | src/bech32.cpp:136-149 | the buffer holds the high bits, a zero and the low bits |
| `Bech32.ComputeChecksum` | src/bech32.cpp:165-177 | the loop computes the specified checksum |
| `Bech32.EncodeText` | src/bech32.cpp:181-195 | the loop computes the specified text |
| `Bech32.DecodeText` | src/bech32.cpp:197-228 | the loops accept and compute exactly what is specified, for every text |

## Left out

- `EmplaceCoinInternalDANGER`, `SetBackend`, cursors, memory resources and the reallocation of the map: the first is for keys known to be absent, the others do not touch the map.
- The heap bytes of a script are a number that comes with the script; what an allocator makes of a copy is not modelled.
- Widths of sizes and counters (`size_t` usage sums, 32-bit ids and reference counts of the address manager, `int` heights) are unbounded here, except in the limb arithmetic, the compact encoding, the epoch size of the cuckoo cache and the bech32 remainders, where they matter.
- A database write that fails half-way, partial batches and crash recovery of `src/txdb.cpp`: input and output. A null best block hash is refused by the database and is a precondition.
- `AddCoins` and `HaveInputs` (loops of the modelled operations over a transaction) would only add easy members.
- `Select_` and `GetChance`: floating-point probabilities and a loop that ends with probability one only.
- `Add_` adds several addresses; single additions in any sequence are modelled.
- `FindAddressEntry_`, `Size_` and logging of the address manager only read.
- Streams are sequences of typed records: the byte encodings of addresses, the key and the numbers, and the exceptions of the stream itself, are not modelled; a stream with fewer or more records than it announces is refused as a whole.
- AddrManImpl.AddrManImpl.Unserialize: does not say what a refused object holds, since the caller has to throw it away.
- Stop requests and starting and joining the threads of the check queue; condition variables may wake up spuriously and are otherwise modelled by blocked threads and a pending notification for the master. The checks' own side effects are not modelled: a check passes or fails.
- The memory order of the cuckoo cache's atomic flags: concurrent erasing lookups are not modelled. The depth limit, a rounded logarithm computed in floating point, is a parameter of at least one.
- `setup_bytes`, hexadecimal and floating-point conversions of the 256-bit numbers, and the bitwise operators that nothing else uses.
- `GetBlockProofEquivalentTime` combines modelled operations; `FindEarliestAtLeast` is a library binary search.
- Chain work, status, times and file positions of block index entries.
- The error locations of bech32. The hash behind the check of base 58 is an unknown function.
- AddrManImpl.AddrManImpl.CheckAddrman: says when its code is zero, not which other code it is: that depends on the order in which the hash map is walked.
- BlockTree.CBlockIndex.GetAncestor: says where it arrives, not in how many steps; `src/chain.cpp:87-89` gives a figure from simulations, and any lower height would do for a skip.
- Detection of four errors within 89 symbols (`src/bech32.cpp:53-54`): a property of this one generator that its roots do not imply and that rests on an exhaustive search over more than a hundred thousand choices of places. Detection of three errors within 1023 symbols and of any change within six consecutive ones is proved.
- `CacheMap`, `CacheMultiMap`, `compressor`, `blockencodings` and `blockfilter` are not part of this model.
