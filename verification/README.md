# Verified models of the node's core algorithms

This project models the algorithmic cores of the GravityCoin node (a Bitcoin/Zcoin descendant)
in Dafny and proves what they are for: the parallel check queue, the unspent-output cache stack
and its on-disk codec with compressed scripts, the address manager and its peers file, the rolling bloom filter, partial
Merkle trees, InstantSend locking, block assembly, multi-limb arithmetic with compact targets and
block work, the skip-list block index and the active chain, Base58, and compact block relay.

`dafny verify dfyconfig.toml` checks the whole project.

## How the model is built

- Code that updates objects or buffers in place is a class or a method on arrays, with the loops of
  the program. Each such method is proved against a function on values (for instance
  `AddrManager.Manager.Good` against `AddrMan.Good`), and the properties are proved of those functions.
- `CheckQueue` is a transition system: each critical section, each evaluation of one check, each sleep
  and each wake-up (spurious ones included) is a step, for any number of workers and any interleaving.
- Hashes are parameters (`AddrMan.Hashes`, `RollingBloom` keys) or free constructors
  (`PartialMerkle.Hash`, so that different inputs hash differently). Clocks, random numbers and the
  network are arguments. The order in which the mempool offers transactions of equal standing, the
  free-transaction priority test and the bucket-size test of the short-id map are left open: every
  outcome is allowed.
- The elliptic curve is a parameter of the script compressor; `ScriptCompressor.Determined` says that a
  valid uncompressed public key is recovered from its compressed form. The outputs that FillBlockPayments appends, the result of CheckBlock, the voter quorum per outpoint and
  the verdicts of the masternode list are arguments.
- Machine integers are written out where they can wrap: limbs of `ArithUint`, 64-bit amounts and their
  codes, variable-length integers read into 32 or 64 bits, the 16-bit offset of
  `CompactBlocks.DecodeIndexes` and the 16-bit positions and offset of `CompactBlocks.PartiallyDownloadedBlock.MapShortIds`.
- `AddrMan.Check` is the structural part of Check_, with the address index exact. `AddrManCheck.Passes` is
  Check_ itself: it adds the time stamps and the null key, and its lookup of an absent address yields 0, as
  `mapAddr[info]` does.
- What the program asserts inside an operation is a precondition or an assertion of the model, so every
  run discharges it.

## Results worth knowing before reading the table

Where the code does not do what its documentation or its use suggests, the model follows the code:

- The bound of 2N-1 flag bits for a partial Merkle tree (src/merkleblock.h:47) does not hold for three
  transactions with the last one matched; `PartialMerkle.BitBoundExact` says exactly when it holds.
- Nor does the guarantee on its encoded size (src/merkleblock.h:34): 1025 transactions that are all matched
  need 33068 bytes and not 33067. It holds up to 1000 transactions, and `MerkleSize.SizeExact` and
  `MerkleSize.LargeTreesFitIff` say when it holds beyond that (`MerkleSize.GuaranteeFails`,
  `MerkleSize.SmallTreesFit`).
- `x *= x` on multi-limb numbers yields zero, because the product is accumulated in `x` itself
  (`ArithUint.BaseUint.Multiply`, `ArithUint.BaseUint.SquareOfOne`).
- Decoding a compact number and encoding it again is the identity iff the number is canonical and its
  value is below 2^256; 0x23010000 is canonical and comes back as zero (`Compact.ReencodeIff`,
  `Compact.ReencodeFails`).
- ModifyNewCoins forgets the memory of the entry it replaces; the cache's memory counter is exact iff
  the ghost field `leaked` is zero (`CoinsCache.CoinsViewCache.ModifyNewCoins`, `CoinsCache.CoinbaseTwice`).
- Flushing a cache whose best block is null makes a parent cache fall back to what lies below it
  (`CoinsCache.CoinsViewCache.Flush`, `CoinsCache.NullFlush`).
- Add_ answers true for an unknown address even when the address is not stored; it is stored iff
  `AddrMan.Room` holds (`AddrMan.AddUnknownStores`, `AddrMan.AddUnknownLoses`).
- A peers file that is read without an error can leave a manager that fails its own Check_. It passes iff
  the two counters of the file are not negative, the key is not null, the time stamps of the entries kept are
  possible, and no entry with a slot shares its address with another entry read, except that entry 0 may
  share it with entries that are pruned (`AddrManReread.RereadIff`, `AddrManRecords.SharedAddressFails`). For
  files whose positions are not used this is a condition on the records (`AddrManRecords.RereadRecordsIff`).
- The exception is a gap in Check_: its lookup takes an absent address for id 0, so it accepts a manager that
  holds entry 0 but cannot find it by its address (`AddrManRecords.CheckMisses`, `AddrManReread.CheckIff`).
- An operation on a manager that passes Check_ leaves one that fails iff Good_ is given a time that is not
  positive, or Attempt_ a negative one, for a known address (`AddrManCheck.StepPassesIff`,
  `AddrManCheck.RunPassesIff`).
- A coins record comes back from its serialized form iff it is tidy, no version or height is negative, no
  unspent script is longer than 10000 bytes and the code of every amount is below 2^64
  (`CoinsCodec.RoundTripIff`, `CoinsCodec.NegativeVersionLost`). A longer script comes back as a lone
  OP_RETURN (`CoinsCodec.LongScriptLost`). Records made by FromTx from amounts up to MAX_MONEY and no
  negative version do come back, whatever is spent of them later (`CoinsCodec.LifeRoundTrip`).
- The code of an amount is below 2^64 iff the amount, as an unsigned word, ends in the digit 0 or is at most
  2049638230412172402. A longer code, cut to 64 bits, never leads back to its amount; 2100000000000000001 is
  lost (`Amounts.SurvivesIff`, `Amounts.FitsIff`, `Amounts.AmountLost`).
- After index 65535 the difference decoder starts again from zero. What it yields is increasing iff the
  differences and the number of steps between them add up to at most 65535
  (`CompactBlocks.DecodedIncreasingIff`, `CompactBlocks.OffsetWraps`).
- A compact block may announce up to 200000 transactions, but the map from short ids to slots has 16-bit
  values. Short ids are mapped to their own slots iff the block has at most 65536 transactions
  (`CompactBlocks.StoredIff`). Beyond that the pool's copy of transaction 65536 replaces the coinbase, and
  the block is never rebuilt (`CompactBlocks.RelayOverwrites`, `CompactBlocks.RelayIff`). A message with
  65536 prefilled transactions and a short id is accepted and never finished
  (`CompactBlocks.HangingMessage`, `CompactBlocks.EndlessIff`).
- Block assembly counts the signature operations of Sigma spends separately from all others, so the
  two kinds together can reach nearly twice the limit (`Miner.SigOpsExceed`); they cannot when the pool is
  `Miner.Moderate`, for instance when it holds one kind only (`Miner.SelectTransactions`).
- Children that wait for a Sigma spend, or for a parent added in priority mode, are not released and can
  be left out although they fit (`Miner.ChildLeftBehind`, `Miner.SelectTransactions`).
- Replaying orphan votes erases valid votes for transactions that are not known yet, although they were
  not counted (`InstantSend.Node.ProcessOrphanTxLockVotes`). The check for completed locks never holds back
  a candidate that is ready (`InstantSend.ReadyNoConflict`).
- ExtractMatches clears its list of matches but appends to the list of indices
  (`PartialMerkle.RoundTrip`).

## Model

| member | source | states |
|---|---|---|
| CheckQueue.EveryRunIsSafe | src/checkqueue.h:69-168 | in every reachable state: nTodo is queue length plus all batches in flight, every added check is in the queue, in flight or done exactly once, a sleeping master has a worker holding a batch, an idle queue has nIdle equal to nTotal, and every completed Wait returned the conjunction of its checks |
| CheckQueue.EveryRunAccountsForChecks | src/checkqueue.h:69-158 | over a whole run, the checks of completed rounds followed by those of the current round are exactly the checks pushed, in order |
| CheckQueue.WaitReturnsConjunction | src/checkqueue.h:69-144 | from any state inside Wait: every run without new checks and spurious wake-ups is bounded, and when nothing can move any more Wait has returned exactly the conjunction of the checks added since the last Wait, although checks after a failure are skipped |
| CheckQueue.NeverStuckInWait | src/checkqueue.h:69-127 | while the master is inside the loop some step is possible: no wake-up is lost |
| CheckQueue.SleepingMasterHasHelp | src/checkqueue.h:80-104 | whenever the master sleeps a worker holds a non-empty batch |
| CheckQueue.StepKeepsInv | src/checkqueue.h:69-158 | every step of every thread, spurious wake-ups and quitting included, keeps the inductive invariant |
| CheckQueue.StepConsumesWork | src/checkqueue.h:69-127 | every internal step lowers the termination measure |
| CheckQueue.BatchSize | src/checkqueue.h:105-110 | a batch is never empty, never more than is queued, and above one never more than nBatchSize |
| CheckQueue.PopBatchConserves | src/checkqueue.h:111-117 | popping a batch from the back neither loses nor duplicates a check |
| CheckQueue.MergeKeepsInv | src/checkqueue.h:78-89 | accounting for a finished batch, or joining the pool the first time, keeps the invariant |
| CheckQueue.TakeKeepsInv | src/checkqueue.h:105-119 | taking a batch keeps the invariant |
| CheckQueue.SleepKeepsInv | src/checkqueue.h:91-104 | going to sleep keeps the invariant, in particular that a sleeping master has help |
| CheckQueue.LeaveKeepsInv | src/checkqueue.h:91-100 | leaving the loop resets the round and records the right verdict |
| CheckQueue.AddKeepsInv | src/checkqueue.h:146-158 | adding checks keeps the invariant |
| Coins.CleanupLoop | src/coins.h:114-119 | the pop_back loop removes exactly the trailing spent outputs |
| Coins.SpendEffect | src/coins.cpp:36-43 | spending takes away output n and nothing else, and reports whether it was there |
| Coins.ClearUnspendable | src/coins.h:121-127 | the loop clears exactly the unspendable outputs and trims |
| Coins.CleanupCanon | src/coins.h:114-119 | cleaning up does not change what a view is compared by |
| Coins.CanonObservable | src/coins.h:135-152 | two records are the same to a view iff the same outputs are available and, if any is, height, version and coinbase flag agree and so does every output up to the last available one |
| CoinsCache.AbsorbIsCoherent | src/coins.cpp:169-212 | merging one child entry keeps the DIRTY/FRESH meaning of the parent's entry and gives the parent the child's view of it, leaving all others alone |
| CoinsCache.CoinsDB.BatchWrite | src/txdb.cpp:57-78 | dirty entries are written, pruned ones erased, everything else and a null best block leave the store as it was |
| CoinsCache.CoinsViewCache.FetchCoins | src/coins.cpp:73-89 | reading through the stack of caches changes no view, and finds an entry iff the view has one |
| CoinsCache.CoinsViewCache.GetCoins | src/coins.cpp:91-98 | the coins returned are those of the view, which does not change |
| CoinsCache.CoinsViewCache.GetBestBlock | src/coins.cpp:159-163 | the answer is the best block of the nearest cache that has one, and no view changes |
| CoinsCache.CoinsViewCache.Uncache | src/coins.cpp:221-228 | dropping a clean entry changes no view; dirty and fresh entries stay |
| CoinsCache.CoinsViewCache.ModifyCoins | src/coins.cpp:100-119 | opening an entry for modification changes no view and records the usage to be subtracted |
| CoinsCache.CoinsViewCache.ModifyNewCoins | src/coins.cpp:125-134 | the entry becomes empty in the view, all others stay; the replaced entry's memory is leaked |
| CoinsCache.CoinsModifier.Destroy | src/coins.cpp:291-303 | closing keeps every view and drops an entry that is fresh and pruned |
| CoinsCache.CoinsModifier.Assign | src/coins.h:373-386 | the view of the modified transaction becomes the new coins, all others stay |
| CoinsCache.CoinsViewCache.WriteEntry | src/coins.cpp:169-208 | one entry of BatchWrite: the parent's view of the key becomes the child's |
| CoinsCache.CoinsViewCache.BatchWrite | src/coins.cpp:169-212 | a coherent batch makes the parent's view equal to the child's and keeps the parent coherent |
| CoinsCache.CoinsViewCache.Flush | src/coins.cpp:214-219 | flushing makes the base's view equal to the cache's old view, empties the cache and changes no view |
| CoinsCache.CoinsViewCache.FlushAll | src/coins.cpp:214-219 | flushing every level makes the database hold the top view |
| CoinsCache.CoinbaseTwice | src/coins.cpp:125-134 | a coinbase that is cached and written anew leaves the memory counter above the memory in use |
| CoinsCache.NullFlush | src/coins.cpp:214-219 | a parent cache loses its best block when a child without one is flushed |
| CoinsCache.Apply | src/coins.cpp:73-228 | one operation on the cache stack does to its views what it does to a plain map, and reads return the map's value |
| CoinsCache.Run | src/coins.cpp:73-228 | every run of reads, writes, new coins, uncache and flush on a stack of caches refines the same run on a plain map from transaction ids to coins |
| AddrMan.After | src/addrman.cpp:88-521 | every sequence of operations from the empty manager passes the structural part of Check_ |
| AddrMan.StepKeepsCheck | src/addrman.cpp:197-521 | every public operation keeps the structural part of Check_ |
| AddrMan.SwapKeepsInv | src/addrman.cpp:100-118 | swapping two positions of vRandom keeps the invariant |
| AddrMan.CreateKeepsInv | src/addrman.cpp:88-98 | a created entry is in limbo; everything else is as required |
| AddrMan.DeleteKeepsInv | src/addrman.cpp:120-132 | an entry in limbo satisfies what Delete asserts, and deleting it keeps the invariant of the rest |
| AddrMan.ClearNewKeepsInv | src/addrman.cpp:134-147 | the occupant of a slot has the reference that ClearNew asserts; clearing the slot empties it and keeps the invariant while other entries are between tables |
| AddrMan.ClearNewLosesOne | src/addrman.cpp:134-147 | clearing a slot deletes its entry iff that was its last reference, and no other entry |
| AddrMan.UnlistKeepsInv | src/addrman.cpp:151-161 | removing an entry from all new buckets leaves it in limbo |
| AddrMan.UnlistDrops | src/addrman.cpp:151-161 | after the loop of MakeTried the entry has no reference left, as is asserted |
| AddrMan.EvictKeepsInv | src/addrman.cpp:168-189 | evicting a tried entry into a new bucket, possibly deleting the entry there, keeps the invariant |
| AddrMan.MakeTriedKeepsCheck | src/addrman.cpp:149-195 | the whole of MakeTried keeps the structural part of Check_ although its steps do not |
| AddrMan.GoodKeepsCheck | src/addrman.cpp:197-247 | Good_ keeps the structural part of Check_ |
| AddrMan.GoodMakesTried | src/addrman.cpp:197-247 | after Good_ on a known address the entry is in its tried slot and in no new slot |
| AddrMan.UntriedHasSlot | src/addrman.cpp:226-241 | an entry that is not tried has a new bucket, so the search of Good_ succeeds |
| AddrMan.AddKeepsCheck | src/addrman.cpp:249-315 | Add_ keeps the structural part of Check_ in all its branches |
| AddrMan.AddUnknownStores | src/addrman.cpp:286-314 | an unknown address is stored iff its slot is free or its occupant gives way |
| AddrMan.AddUnknownLoses | src/addrman.cpp:286-314 | of two addresses with the same slot, added to an empty manager, the second is not stored |
| AddrMan.GetAddrIsFair | src/addrman.cpp:464-483 | GetAddr_ returns distinct, non-terrible entries, at most the wanted number, and all of them when it returns fewer |
| AddrMan.GetAddrKeepsCheck | src/addrman.cpp:464-483 | shuffling vRandom while collecting keeps the structural part of Check_ |
| AddrMan.AttemptKeepsCheck | src/addrman.cpp:317-337 | Attempt_ keeps the structural part of Check_ |
| AddrMan.ConnectedKeepsCheck | src/addrman.cpp:485-503 | Connected_ keeps the structural part of Check_ |
| AddrMan.SetServicesKeepsCheck | src/addrman.cpp:505-521 | SetServices_ keeps the structural part of Check_ |
| AddrMan.OrderSize | src/addrman.cpp:387-393 | vRandom and mapInfo have nTried + nNew entries |
| AddrMan.RefCountMeans | src/addrman.cpp:395-422 | nRefCount is the number of new slots of an entry: none when tried, otherwise one to eight |
| AddrManCheck.PassesIff | src/addrman.cpp:386-461 | a manager whose structure is in order passes the whole of Check_ iff no time stamp is negative, every tried entry has a success, and the key is not null |
| AddrManCheck.StepPassesIff | src/addrman.cpp:197-521 | an operation on a manager that passes Check_ leaves one that passes iff the time given to Good_ for a known address is positive and that given to Attempt_ is not negative |
| AddrManCheck.RunPassesIff | src/addrman.cpp:197-521 | every state of a run from the empty manager passes the whole of Check_ iff the key is not null and every operation got such a time |
| AddrManCheck.ScansMean | src/addrman.cpp:427-456 | crossing off entries in the two scans of the bucket arrays leaves nothing over and finds no fault iff every slot holds an entry that belongs there and every entry is in as many slots as it counts |
| AddrManager.Manager.SwapRandom | src/addrman.cpp:100-118 | the in-place code computes the function |
| AddrManager.Manager.Delete | src/addrman.cpp:120-132 | called only for entries that are not tried and have no reference, the in-place code computes the function |
| AddrManager.Manager.Create | src/addrman.cpp:88-98 | the in-place code computes the function |
| AddrManager.Manager.ClearNew | src/addrman.cpp:134-147 | called only where the occupant has a reference, the in-place code on the bucket array computes the function |
| AddrManager.Manager.Unlist | src/addrman.cpp:151-161 | the loop over all buckets removes exactly the slots of the entry and leaves it without references |
| AddrManager.Manager.TakeBack | src/addrman.cpp:168-177 | the occupant of the tried slot is an entry, and the slot is emptied |
| AddrManager.Manager.PutEntry | src/addrman.cpp:183-188 | the evicted entry takes its first reference in a slot that is empty |
| AddrManager.Manager.EvictFrom | src/addrman.cpp:168-189 | the in-place eviction computes the function and meets the three assertions on its way |
| AddrManager.Manager.MakeTried | src/addrman.cpp:149-195 | the in-place code on both tables computes the function; the tried slot is empty when it is taken |
| AddrManager.Manager.FindBucket | src/addrman.cpp:226-236 | the rotated search finds a bucket of the entry iff it has one |
| AddrManager.Manager.Good | src/addrman.cpp:197-247 | the in-place code computes the function, for every random start of the search |
| AddrManager.Manager.Add | src/addrman.cpp:249-315 | the in-place code computes the function and the answer |
| AddrManager.Manager.GetAddr | src/addrman.cpp:464-483 | the in-place shuffle computes the function |
| AddrManager.Manager.CheckAll | src/addrman.cpp:386-461 | for every state, also a broken one, the method returns 0 iff the state passes; it changes nothing but mapAddr, which gains the addresses that were looked up, and those it accepts are then all indexed |
| AddrManager.Manager.CheckEntries | src/addrman.cpp:394-420 | the loop over mapInfo finds no fault iff every entry passes, and collects the tried entries and the reference counts of the others |
| AddrManager.Manager.CheckEntry | src/addrman.cpp:397-419 | one entry passes iff its stamps, count, position and looked-up id are right; the lookup enters an absent address with 0 |
| AddrManager.Manager.CheckTables | src/addrman.cpp:422-460 | counters, both scans and the key: no fault iff the tables match the entries |
| AddrManFile.RoundTrip | src/addrman.h:293-446 | reading what was written never reports corruption, loses nothing and gives the same key, entries, new table and tried table up to renaming of ids; only the two fields that are not written are reset |
| AddrManFile.RereadPassesCheck | src/addrman.h:445 | the manager that was read passes the structural part of Check_ |
| AddrManFile.WrittenLists | src/addrman.h:306-325 | the two passes over mapInfo write every entry exactly once, new ones first, as many as nNew and nTried say |
| AddrManFile.Limits | src/addrman.h:363-369 | nNew and nTried never exceed the limits that the reader enforces |
| AddrManFile.PutTriedLoads | src/addrman.h:391-410 | no tried entry finds its slot taken |
| AddrManFile.PutRefLoads | src/addrman.h:412-428 | reading the number written for a slot puts the same entry back into that slot and counts the reference |
| AddrManFile.NothingLost | src/addrman.h:430-446 | no entry is pruned after reading |
| AddrManFile.AssembleDense | src/addrman.h:371-428 | every file that does not end early, whatever its version, counters and positions, gives consecutive ids and leaves vRandom and nRandomPos inverse |
| AddrManReread.RereadIff | src/addrman.h:342-446 | a file that is read without an error leaves a manager that passes Check_ iff its counters are not negative, its key is not null, every entry kept has possible time stamps and no entry with a slot shares its address with another entry read, but entry 0 may share it with pruned ones |
| AddrManReread.CheckIff | src/addrman.h:342-446 | the manager that was read is in order, its address index included, iff its counters are not negative and no entry with a slot shares its address with another entry read |
| AddrManReread.WrittenPasses | src/addrman.h:293-446 | a manager that passes Check_ still does after it is written and read |
| AddrManReread.AssembleIs | src/addrman.h:371-428 | before pruning, everything that Check_ looks at is in order except that addresses may be shared and entries may lack a slot |
| AddrManReread.PruneIs | src/addrman.h:430-440 | pruning removes exactly the entries without a slot, and every address that one of them has |
| AddrManReread.DistinctPasses | src/addrman.h:342-446 | when all addresses in the file differ the structure is in order, however wrong the positions are, and Check_ passes iff the key is not null and the stamps of the entries kept are possible |
| AddrManRecords.RereadRecordsIff | src/addrman.h:342-446 | for files whose positions are not used, the condition on the records: a new record is kept iff no earlier one has its slot, a tried one iff no earlier tried one has; of those kept no two share an address, and none but the first shares one with a record that is not kept; kept tried records have a success |
| AddrManRecords.SharedAddressFails | src/addrman.h:342-446 | a record followed by another record twice, in different slots, is read from a file of version 0 without an error and fails Check_ |
| AddrManRecords.CheckMisses | src/addrman.cpp:411 | the same record twice is read without an error and passes Check_, although pruning the second entry took the address of the first from the index |
| RollingBloom.WipeForgetsOldest | src/bloom.cpp:259-269 | wiping by mask on the two bit planes forgets exactly the oldest generation of the abstract stamp per position |
| RollingBloom.SetStamps | src/bloom.cpp:271-278 | setting the two bits of a position stamps it with the current generation |
| RollingBloom.RollingBloomFilter.Insert | src/bloom.cpp:251-279 | the item joins the history and the generation counters roll |
| RollingBloom.RollingBloomFilter.NextGeneration | src/bloom.cpp:253-269 | starting a generation keeps every stamp of the two before it |
| RollingBloom.RollingBloomFilter.Contains | src/bloom.cpp:287-299 | true iff every hashed position is set, and always true for the last 2 * nEntriesPerGeneration + nEntriesThisGeneration items |
| RollingBloom.RollingBloomFilter.RecentIsMarked | src/bloom.cpp:251-299 | every item of the last two full generations and the current one has all its positions set |
| RollingBloom.RollingBloomFilter.Reset | src/bloom.cpp:307-315 | the history is empty and the filter well-formed |
| RollingBloom.InsertAll | src/bloom.h:105-141 | after inserting at most nElements items the first of them is still found |
| PartialMerkle.ProofIsSound | src/merkleblock.cpp:98-183 | whatever bits and hashes are supplied: if extraction yields the real root, every extracted hash is the real transaction id at the index reported with it |
| PartialMerkle.ExtractSound | src/merkleblock.cpp:98-134 | the same for every subtree |
| PartialMerkle.RoundTrip | src/merkleblock.cpp:80-183 | building, packing, unpacking and extracting yields the Merkle root and exactly the marked ids and indices, in order, for every list of distinct ids within the limit and every mask |
| PartialMerkle.ReadBack | src/merkleblock.cpp:80-134 | reading a subtree back consumes exactly its bits and hashes, returns its hash and never sets fBad |
| PartialMerkle.PackedBits | src/merkleblock.h:88-105 | packing into bytes and back gives the bits followed by fewer than eight zeros |
| PartialMerkle.PackLoop | src/merkleblock.h:100-103 | the packing loop computes Pack |
| PartialMerkle.UnpackLoop | src/merkleblock.h:95-97 | the unpacking loop computes Unpack |
| PartialMerkle.EncodingSize | src/merkleblock.h:31-39 | a subtree stores at least one hash, at most one per leaf, and at least a bit per hash |
| PartialMerkle.BitCount | src/merkleblock.h:42-47 | the number of bits is twice the hashes less one plus the number of visited only children |
| PartialMerkle.BitBoundExact | src/merkleblock.h:47 | the documented bound on flag bits holds iff no visited node has an only child |
| PartialMerkle.BitBoundFails | src/merkleblock.h:47 | for three transactions with the last one matched the bound fails |
| MerkleSize.SizeExact | src/merkleblock.h:31-48 | the size of the encoding in bytes, the bounds on the number of hashes and of visited only children, and the exact condition for the documented size guarantee |
| MerkleSize.HashBound | src/merkleblock.h:40 | a subtree stores at most one hash more than its matched leaves times its height |
| MerkleSize.OnlyBound | src/merkleblock.h:27-28 | a subtree visits at most one only child per level |
| MerkleSize.SmallTreesFit | src/merkleblock.h:34 | the size guarantee holds for up to 1000 transactions |
| MerkleSize.LargeTreesFitIff | src/merkleblock.h:34 | with three-byte counts of hashes and flag bytes it holds iff the visited only children do not fill the last byte that 2N-1 bits leave open |
| MerkleSize.GuaranteeFails | src/merkleblock.h:34 | for 1025 transactions, all matched, it fails by one byte |
| PartialMerkle.PartialMerkleTree.TraverseAndBuild | src/merkleblock.cpp:80-96 | the recursive method appends exactly the encoding of the subtree |
| PartialMerkle.PartialMerkleTree.TraverseAndExtract | src/merkleblock.cpp:98-134 | the recursive method with its counters and flag computes Extract |
| PartialMerkle.PartialMerkleTree.FindHeight | src/merkleblock.cpp:141-144 | the loop finds the height of the tree |
| PartialMerkle.PartialMerkleTree.ExtractAll | src/merkleblock.cpp:152-183 | the method with all its rejections computes ExtractMatches |
| InstantSend.NeverBothReady | src/instantx.cpp:295-327 | with at most ten voters per outpoint and six required, two candidates that share an outpoint are never both ready |
| InstantSend.ReadyNoConflict | src/instantx.cpp:385-398 | a candidate that is ready has no input locked to another transaction |
| InstantSend.LockedAreDisjoint | src/instantx.cpp:427-442 | two locked transactions share no outpoint |
| InstantSend.NoDoubleSpendLocked | src/instantx.cpp:385-442 | once a transaction is locked no conflicting one is locked in any later state |
| InstantSend.LockedStaysLocked | src/instantx.cpp:682-702 | a locked transaction stays locked in every later state |
| InstantSend.CountKeepsInv | src/instantx.cpp:1032-1080 | counting a vote of a voter that voted for no other candidate of the outpoint keeps the invariant |
| InstantSend.Node.TryToFinalizeLockCandidate | src/instantx.cpp:385-398 | keeps all safety facts; the inputs are locked iff they were, or the candidate is ready and conflicts are resolved |
| InstantSend.Node.ProcessTxLockRequest | src/instantx.cpp:51-102 | keeps all safety facts; accepted iff it spends no locked outpoint and its checks pass, then a candidate that is ready is locked and every valid orphan vote for it is counted unless the same xnode is counted for a rival on that outpoint; a refused request changes nothing |
| InstantSend.Node.CreateTxLockCandidate | src/instantx.cpp:104-128 | keeps all safety facts; the request becomes a candidate without votes iff its checks pass and it is new |
| InstantSend.Node.CastVotes | src/instantx.cpp:130-227 | keeps all safety facts; new votes are this node's own and for this candidate, and when its outputs are known and signing works the node has voted on every outpoint whose quorum it is in, here or for a competing transaction |
| InstantSend.Node.ProcessTxLockVote | src/instantx.cpp:230-339 | keeps all safety facts; for a known candidate the vote is accepted iff it is valid, not cast elsewhere and new, then it and nothing else is counted, and a candidate that became ready is locked |
| InstantSend.RecordKeepsInv | src/instantx.cpp:295-330 | entering and counting an admissible vote keeps all safety facts and counts nothing else |
| InstantSend.Node.ProcessOrphanTxLockVotes | src/instantx.cpp:341-352 | keeps all safety facts; exactly these votes are erased: those counted now, and valid ones for transactions that are no candidates unless their xnode is too fast; every valid vote for a candidate has its xnode counted on that outpoint, and nothing but such votes is counted |
| InstantSend.Run | src/instantx.cpp:51-442 | every run of requests and votes keeps the invariant and every lock |
| Miner.SelectTransactions | src/miner.cpp:263-483 | the loop terminates and keeps: no transaction twice, parents before children, only admissible and requested transactions, exact totals, no limit exceeded; it stops early only within 1000 bytes of the size limit or at the last signature operation; otherwise every transaction left out is not requested, was refused when its parents were in, or waits for a parent that is missing, limited or was added in priority mode; a moderate pool keeps all signature operations below the limit |
| Miner.Round | src/miner.cpp:263-482 | one iteration adds a transaction or uses up a candidate, and keeps the invariant and the record of why transactions are left out |
| Miner.PushKeepsInv | src/miner.cpp:416-463 | adding a transaction that passed the checks keeps all of this |
| Miner.TryAdd | src/miner.cpp:310-482 | a candidate is added iff it fits every limit of its kind, the loop stops exactly when the block is nearly full, after fifty failures or at the signature limit, and both queues and both wait sets are as given: children of ordinary transactions are released, those of limited spends are not |
| Miner.NextCandidate | src/miner.cpp:263-281 | exactly one candidate leaves the right queue |
| Miner.ReleaseChildren | src/miner.cpp:465-482 | exactly the waiting children leave the wait set that the mode selects and join its queue |
| Miner.CreateNewBlock | src/miner.cpp:137-501 | fees recorded for the block sum to zero, and coinbase outputs total subsidy plus fees, plus what the payment step adds less what it takes |
| Miner.FoundersSumToZero | src/miner.cpp:166-187 | the founder outputs take exactly what they give |
| Miner.SigOpsBound | src/miner.cpp:409-447 | the signature operations of both kinds together stay below twice the limit, and below the limit when the capped totals of the pool do |
| Miner.SigOpsAddUp | src/miner.cpp:409-447 | an ordinary transaction and a limited spend that each fit alone fit together, and their signature operations add up |
| Miner.SigOpsExceed | src/miner.cpp:409-447 | a block of two transactions passes every check with 798000 signature operations |
| Miner.LeftOutOrdinary | src/miner.cpp:263-482 | without limited spends and priority mode a transaction is left out only if it is not requested, was refused, or a parent is not in the block |
| Miner.ChildLeftBehind | src/miner.cpp:416-482 | a child drawn before its parent, a spend, waits at the end although it would fit |
| ArithUint.BaseUint.constructor | src/arith_uint256.h:52-58 | the number is b |
| ArithUint.BaseUint.Add | src/arith_uint256.h:136-146 | addition modulo 2^BITS, also of a number to itself |
| ArithUint.BaseUint.Increment | src/arith_uint256.h:174-181 | the next number modulo 2^BITS |
| ArithUint.BaseUint.Decrement | src/arith_uint256.h:191-198 | the number before modulo 2^BITS |
| ArithUint.BaseUint.Complement | src/arith_uint256.h:70-76 | 2^BITS - 1 less the number |
| ArithUint.BaseUint.Negate | src/arith_uint256.h:78-85 | the negative modulo 2^BITS |
| ArithUint.BaseUint.Subtract | src/arith_uint256.h:148-152 | subtraction modulo 2^BITS |
| ArithUint.BaseUint.CompareTo | src/arith_uint256.cpp:109-119 | the sign of the difference |
| ArithUint.BaseUint.Bits | src/arith_uint256.cpp:172-185 | zero for zero, otherwise one more than the position of the highest set bit |
| ArithUint.BaseUint.ShiftLeft | src/arith_uint256.cpp:21-36 | multiplication by 2^shift modulo 2^BITS, for every shift |
| ArithUint.BaseUint.ShiftRight | src/arith_uint256.cpp:38-53 | division by 2^shift, for every shift |
| ArithUint.BaseUint.MultiplySmall | src/arith_uint256.cpp:55-65 | multiplication by a 32-bit number modulo 2^BITS |
| ArithUint.BaseUint.Multiply | src/arith_uint256.cpp:67-81 | the product modulo 2^BITS for two different objects, zero for the same object |
| ArithUint.BaseUint.SquareOfOne | src/arith_uint256.cpp:67-81 | one squared in place is zero |
| ArithUint.BaseUint.Divide | src/arith_uint256.cpp:83-107 | the exact floor quotient for every non-zero divisor, the divisor may be the number itself; division by zero is reported |
| ArithUint.BaseUint.DivideStep | src/arith_uint256.cpp:97-104 | one round keeps dividend = quotient * divisor + remainder and halves the remainder's bound |
| ArithUint.BaseUint.GetLow64 | src/arith_uint256.h:249-253 | the number modulo 2^64 |
| ArithUint.BaseUint.SetLow | src/arith_uint256.h:89-96 | the number becomes b |
| Compact.SetCompact | src/arith_uint256.cpp:225-243 | overflow is flagged iff mantissa * 256^(exponent-3) reaches 2^256, the value is that number modulo 2^256, negative is flagged iff the sign bit is set and the value is not zero |
| Compact.GetCompact | src/arith_uint256.cpp:245-266 | the result is the compact form: a mantissa of full precision that approximates the number from below, with the sign of a non-zero negative number |
| Compact.CompactUnique | src/arith_uint256.cpp:245-266 | a number has one compact form |
| Compact.CompactTruncates | src/arith_uint256.cpp:225-266 | decoding a compact form loses less than one unit of the mantissa, at most one part in 2^15, and nothing up to three bytes |
| Compact.CompactStable | src/arith_uint256.cpp:225-266 | encoding the decoded number gives the same compact form again |
| Compact.CompactMonotone | src/arith_uint256.cpp:245-266 | compact forms are ordered as the numbers are |
| Compact.ReencodeIff | src/arith_uint256.cpp:225-266 | encoding the decoded value gives a compact number back iff it is canonical and below 2^256 |
| Compact.ReencodeFails | src/arith_uint256.cpp:225-266 | 0x23010000 is canonical, overflows, decodes to zero and does not come back |
| Compact.Reencode | src/arith_uint256.cpp:225-266 | SetCompact followed by GetCompact returns its argument iff it is canonical and below 2^256 |
| Compact.OverflowIff | src/arith_uint256.cpp:238-241 | the three size comparisons are the exact overflow condition |
| Compact.GetBlockProof | src/chain.cpp:115-128 | the work is 2^256 / (target + 1) rounded down, or zero for a target that is zero, negative or too large, although 2^256 is never represented |
| Compact.TargetBelowMax | src/chain.cpp:123-127 | target + 1 never wraps |
| Chain.InvertsLowestOne | src/chain.cpp:64-65 | exactly the lowest set bit is cleared |
| Chain.SkipGoesDown | src/chain.cpp:67-76 | the skip height is below the height |
| Chain.GetAncestor | src/chain.cpp:78-102 | the walk over skip pointers terminates and finds what the plain pprev walk finds, NULL outside the range |
| Chain.BuildSkip | src/chain.cpp:109-113 | the new block's pointer leads to its ancestor at the skip height, and the index stays sound |
| Chain.Chain.SetTip | src/chain.cpp:13-23 | the chain becomes exactly the ancestry of the tip although the loop stops at the first entry in place |
| Chain.Chain.FindFork | src/chain.cpp:53-62 | chain and ancestry agree at every height up to the result and at none above it; NULL iff they share nothing |
| Chain.Chain.GetLocator | src/chain.cpp:25-51 | entry i is the hash at distance i up to ten and 9 + 2^(i-10) beyond, cut off at genesis, and the list ends with the first entry that reaches genesis |
| Chain.LocatorShape | src/chain.cpp:25-51 | a locator starts with the block, descends strictly, ends with genesis and is logarithmically short |
| Chain.SameTipSameChain | src/chain.h:494-497 | comparing sizes and tips is comparing chains |
| Base58.EncodeBase58 | src/base58.cpp:68-106 | the text denotes the same number in base 58 and has a leading one for each leading zero byte |
| Base58.DecodeBase58 | src/base58.cpp:22-66 | succeeds iff the text is one word of the alphabet surrounded by spaces, and then gives the same number with as many leading zeros |
| Base58.EncodeThenDecode | src/base58.cpp:22-106 | decoding undoes encoding, for every byte string |
| Base58.DecodeThenEncode | src/base58.cpp:22-106 | encoding undoes decoding, for every decodable text up to surrounding spaces |
| Base58.Unique | src/base58.cpp:22-106 | number and leading zeros determine the digit string |
| Base58.EncodeBufferSuffices | src/base58.cpp:78 | 256^n <= 58^(n*138/100+1) |
| Base58.DecodeBufferSuffices | src/base58.cpp:34 | 58^n <= 256^(n*733/1000+1) |
| Base58.MultiplyBy256 | src/base58.cpp:81-95 | the carry loop over the digits in use multiplies and adds, and its carry ends at zero |
| Base58.MultiplyBy58 | src/base58.cpp:41-48 | the carry loop multiplies and adds, and its carry ends at zero |
| Amounts.CompressAmount | src/compressor.cpp:142-159 | the compressed amount modulo 2^64, and without wrapping up to MAX_MONEY |
| Amounts.DecompressAmount | src/compressor.cpp:161-185 | the decompressed amount modulo 2^64 |
| Amounts.DecompressCompress | src/compressor.cpp:142-185 | decompression undoes compression |
| Amounts.CompressDecompress | src/compressor.cpp:142-185 | compression undoes decompression: amounts and codes correspond one to one |
| Amounts.CompressBound | src/compressor.cpp:142-159 | a code is at most nine times its amount |
| Amounts.SurvivesIff | src/compressor.cpp:142-185 | an amount, also a negative one, survives compression in 64 bits iff it is a 64-bit number whose unsigned word ends in 0 or is at most 2049638230412172402 |
| Amounts.FitsIff | src/compressor.cpp:142-159 | these are the words whose code is below 2^64 |
| Amounts.LargeCode | src/compressor.cpp:142-185 | a code of 2^64 or more, cut to 64 bits, never decompresses to its amount modulo 2^64 |
| Amounts.MoneySurvives | src/compressor.cpp:142-185 | every amount up to MAX_MONEY survives |
| Amounts.AmountLost | src/compressor.cpp:142-185 | 2100000000000000001 does not survive |
| Amounts.VarIntRoundTrip | src/serialize.h:383-412 | reading a variable-length integer into a word of any size consumes exactly what was written and gives it back modulo the word size, or its low seven bits if it was negative |
| Amounts.ReadWraps | src/serialize.h:400-412 | on every stream, wrapping at each step is wrapping once at the end |
| Amounts.VarIntBytes | src/serialize.h:383-398 | the two loops write the digits in order |
| Amounts.VarIntRead | src/serialize.h:400-412 | the loop reads ReadVarInt |
| ScriptCompressor.SpecialComesBack | src/compressor.cpp:12-131 | every special form is as long as its tag says and decompresses to its script, also an uncompressed public key |
| ScriptCompressor.ScriptRoundTrip | src/compressor.h:66-97 | reading a written script, whatever follows it, consumes exactly that and gives the script back, or a lone OP_RETURN if it is longer than 10000 bytes |
| ScriptCompressor.ScriptSize | src/compressor.h:58-64 | the size is the number of bytes written |
| CoinsCodec.RoundTrip | src/coins.h:180-240 | reading what was written, whatever follows it, consumes exactly that and gives the record without trailing spent outputs, with the amounts, scripts, version and height that their encodings keep |
| CoinsCodec.RoundTripIff | src/coins.h:180-240 | the record comes back unchanged iff it is tidy, the code of every amount fits into 64 bits, no unspent script is longer than 10000 bytes and neither version nor height is negative |
| CoinsCodec.MoneyRoundTrip | src/coins.h:180-240 | tidy records with amounts up to MAX_MONEY, scripts up to 10000 bytes and no negative version or height come back unchanged |
| CoinsCodec.NegativeVersionLost | src/coins.h:188 | a negative version is read back as its low seven bits |
| CoinsCodec.LongScriptLost | src/compressor.h:89-92 | a script of 10001 bytes is read back as a lone OP_RETURN |
| CoinsCodec.FromTxLasts | src/coins.h:87-93 | what FromTx makes of a transaction with amounts up to MAX_MONEY and no negative version meets the condition of the round trip, whatever its scripts |
| CoinsCodec.SpendLasts | src/coins.cpp:36-43 | spending keeps that condition |
| CoinsCodec.LifeRoundTrip | src/coins.h:87-240 | after FromTx and any spends a record that is not pruned comes back unchanged |
| CoinsCodec.Serialize | src/coins.h:180-206 | the loops write Encode, for every record that is not pruned and all amounts |
| CoinsCodec.Unserialize | src/coins.h:209-240 | the loops read Decode, with 32-bit and 64-bit wrap-around on malformed streams, and fail where the stream ends early |
| CoinsCodec.GetSerializeSize | src/coins.h:156-177 | the size is the number of bytes written |
| CoinsCodec.CalcMaskSize | src/coins.cpp:18-34 | the number of mask bytes up to the last non-zero one, and how many are not zero |
| CoinsCodec.ReadMaskBack | src/coins.h:219-229 | the reader stops right after the last non-zero mask byte and has the flags of all outputs up to there |
| CoinsCodec.HeaderFields | src/coins.h:186-218 | the header code gives back the three flags and the number of non-zero bytes, also when it is written as N-1 |
| CoinsCodec.NeedsMask | src/coins.h:185 | a record that is not pruned has one of the first two outputs or a non-zero mask byte |
| CompactBlocks.IndexesRoundTrip | src/blockencodings.h:37-68 | strictly increasing indexes survive difference coding |
| CompactBlocks.IndexesReencode | src/blockencodings.h:37-68 | an increasing decoded list encodes to what was read |
| CompactBlocks.DecodedIncreasingIff | src/blockencodings.h:55-61 | decoding differences gives an increasing list iff the offset, the differences and the steps between them add up to at most 65535 |
| CompactBlocks.OffsetWraps | src/blockencodings.h:55-61 | 65535 followed by a zero difference decodes to 65535, 0, which is not increasing |
| CompactBlocks.AddOffsets | src/blockencodings.h:55-61 | the in-place loop computes the decoded list or fails |
| CompactBlocks.PartiallyDownloadedBlock.PlacePrefilled | src/blockencodings.cpp:58-76 | every message: accepted iff each prefilled transaction is present and in range, no index is out of range, and exactly the slots named are filled |
| CompactBlocks.PartiallyDownloadedBlock.MapShortIds | src/blockencodings.cpp:82-104 | the i-th short id is mapped to the i-th free slot modulo 65536; success means that no two short ids are equal; the search never ends iff 65536 transactions are prefilled and a short id is given |
| CompactBlocks.StoredIff | src/blockencodings.cpp:82-87 | the 16-bit positions are the free slots iff the block has at most 65536 transactions |
| CompactBlocks.EndlessIff | src/blockencodings.cpp:83-86 | the 16-bit offset reaches every free slot unless 65536 transactions are prefilled, and then none |
| CompactBlocks.HangingMessage | src/blockencodings.cpp:50-87 | a message that is accepted and never finished |
| CompactBlocks.PartiallyDownloadedBlock.ScanPool | src/blockencodings.cpp:106-132 | the in-place loop computes the scan of the first k pool transactions and stops early only when every short id is matched |
| CompactBlocks.ScanMatches | src/blockencodings.cpp:106-132 | with one slot per short id, a slot holds the pool transaction that matches its short id if exactly one does |
| CompactBlocks.PartiallyDownloadedBlock.InitData | src/blockencodings.cpp:50-137 | every message: invalid iff it is not acceptable, endless iff 65536 transactions are prefilled and a short id is given; otherwise the slots and mempool_count are those of the scan, and for at most 65536 transactions each free slot holds the only match of its short id |
| CompactBlocks.PartiallyDownloadedBlock.FillBlock | src/blockencodings.cpp:145-172 | free slots take the missing transactions in order; invalid iff there are too few or too many |
| CompactBlocks.FillIff | src/blockencodings.cpp:147-161 | the result is a given block iff the available transactions agree with it and the missing ones are exactly the rest |
| CompactBlocks.CompactRoundTrip | src/blockencodings.cpp:20-161 | for a block of at most 65536 transactions: it is rebuilt iff no other pool transaction is the only match of one of its short ids and the missing transactions are supplied |
| CompactBlocks.RelayIff | src/blockencodings.cpp:20-137 | the scan leaves only transactions of the block for every honest pool iff the block has at most 65536 transactions |
| CompactBlocks.RelayOverwrites | src/blockencodings.cpp:82-132 | in a longer block the pool copy of transaction 65536 takes the slot of the coinbase, and no missing transactions rebuild the block |
| CompactBlocks.Relay | src/blockencodings.cpp:20-172 | a block of at most 65536 transactions sent in compact form to an honest pool and completed is the block itself; relaying never hangs |
| CompactBlocks.CompactPlaceable | src/blockencodings.cpp:20-30 | the compact form of a block is well-formed |

## Left out

- CompactBlocks: the short-id hash is an arbitrary function, and serialization of short ids and transactions is not modelled.
- AddrManFile.RoundTrip: works on values rather than on a byte stream; a stream that ends early is an error whose half-read manager is not modelled, nor is a manager that is not empty before reading.
- CoinsCodec.RoundTrip: for records whose header code and script sizes fit into 32 bits, as the 32-bit counters presuppose; fewer than 2^32 - 12 outputs suffice for the first (`CoinsCodec.FewOutputs`). Curve arithmetic is a parameter.
- Chain.BuildSkip: pprev and nHeight are set when a block is created and never change; loading the block index from disk in another order is not modelled.
- Chain.Chain.GetLocator: the step is unbounded; overflow of a 32-bit step beyond two billion blocks is not modelled.
- Miner.SelectTransactions: priorities, scores and the free-transaction test are open choices.
- Miner.SigOpsBound: that the pool is moderate is sufficient; which other pools stay below the limit is a knapsack question that depends on the order of selection.
- AddrManReread.RereadIff: where the positions in the file are used, the condition is on the entries as they are read, since which of them get a slot depends on positions and hashes together; `AddrManRecords.RereadRecordsIff` is the condition on the file when they are not, and `AddrManReread.DistinctPasses` a sufficient one for every file.
- Miner.CreateNewBlock: header fields, the block version, TestBlockValidity and the coinbase script are left out; addPackageTxs and addPriorityTxs are not reached.
- InstantSend.Run: covers runs without CheckAndRemove, because expiry erases locks by outpoint; orphan-vote rate limits, relaying and signature checks are left out.
- CheckQueue.EveryRunIsSafe: thread interruption and 32-bit wrap of nTodo are not modelled; fQuit, which nothing in the repository sets, may be set at any time.
- CoinsCache.CoinsViewCache.BatchWrite: iterates over a snapshot of the child's map; erasing child entries while iterating, which only frees memory earlier, is not modelled.
- RollingBloom.RollingBloomFilter.constructor: the filter size and the number of hash functions are arguments instead of the floating-point formula, so false-positive rates are left out.
- PartialMerkle.ProofIsSound: hashing is a free constructor, so collisions are excluded by construction.
- ArithUint: decimal and hexadecimal text, getdouble, postfix operators and the bitwise operators.
- AddrMan: GetChance and Select_, which only draw random entries with floating-point odds.
- AddrManager.Manager.CheckAll: which of the negative codes is returned is not specified, only when 0 is; time stamps are unbounded integers.
- Locks other than the queue's mutex: each public operation is atomic.
- Startup, RPC, wallet, networking, script evaluation, elliptic curves, mixing and xnode activation.
