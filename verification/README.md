# Hemis node: verified models

This project models the parts of the Hemis node where a mistake would be silent and costly, and proves
what those parts promise.  Each part has values that say what a structure *means*, the structure as the
source keeps it, and the proof that every operation on the second is the intended one on the first.

| files | what they model |
|---|---|
| `CoinsModel`, `CoinsProofs`, `CoinsCache` | the unspent-output view: a tower of write-back caches with DIRTY and FRESH flags over a database, for coins, nullifiers and anchors. The tower behaves as a stack of plain maps in every run |
| `AddrManModel`, `AddrManSteps`, `AddrManLaws`, `AddrMan` | the address manager: five mutually redundant structures and two bucket tables with cascading eviction. The invariant of `Check_` survives every operation, the operations are garbage-collected table updates, and those are what the rules in times, counts and slots say |
| `AddrManFile`, `AddrManDisk`, `AddrManLoad` | writing and loading the address manager, a lossy format that loses no entry, and what any file loads into |
| `Mempool`, `BlockAssembler` | package selection for a block with incrementally updated ancestor totals |
| `CheckQueue` | the script-check queue as a state machine over one master and any number of workers |
| `DbTransaction` | the in-memory database transaction and its merging iterator |
| `CuckooCache`, `RollingBloom` | the signature cache and the rolling filter of recent items |
| `Bech32`, `Bech32Polynomial`, `Base58` | the two address encodings (Bech32 as in section "Bech32" of BIP 173), and the Bech32 checksum as a polynomial remainder over GF(32) |
| `SkipHeights`, `Chain` | the block tree with skip pointers and how fast they are, the active chain and block locators |
| `ArithUint`, `Compact` | multi-word arithmetic and the compact difficulty form |
| `Payments` | gamemaster payments: votes, the producer's outputs and the validator's check |
| `Options`, `Powers` | shared definitions |

Structures that the source updates in place are classes here, with loops where the source has loops; each
method is proved against a function or relation on values. Random numbers, clocks, hash functions and answers
from other parts of the node are parameters.

Readings of the source worth knowing:

- Hashes of anchors are symbolic: equal roots are equal trees.
- Where the comment on displacement in `src/cuckoocache.h:392-401` says that the first swap uses the first slot, the code
  uses the second, and so does the model. 45 * size is computed in 32 bits there, so it wraps for very large tables.
- `src/addrman.cpp:592-595`, the branch for a collision that is none any more, is never taken: a pending collision is
  always about an occupied slot.
- `src/addrman.h:568-590` resets everything but the pending collisions, as `Clear` here does.
- Adding a coin with overwrite = false needs "not visible" of its caller. `MisusedAddReappears` shows what happens
  otherwise, and `AddCoinIsUpdate` when exactly the flags stay right.
- `notify_one` wakes a thread that waits, if there is one; a thread that was notified no longer waits.
- The comment at `src/chain.cpp:82-84` gives a measured 110 moves for 2^18 blocks; what is proved is a bound of 18^2.
- From v6 on, paying a gamemaster in a proof-of-stake block clears the coinbase first, so value is conserved exactly if the
  coinbase was worth nothing. `ClearedCoinbase` and `OtherCoinbaseOutput` show the totals that do not come out.
- The address manager keeps its invariant at any time. `Check_` also demands times that a clock at or below zero can spoil;
  `GoodTimes`, `AttemptTimes` and `ResolveOneTimes` say when exactly, and `SuccessAtZero` shows it.

## Model

| member | source | states |
|---|---|---|
| `CoinsProofs.GetCoinIsRead` | src/coins.cpp:84-92 | reading a coin through any number of caches changes no layer's visible coins, nullifiers, anchors or hashes, keeps the flag invariant, and gives the coin the plain view holds |
| `CoinsProofs.FetchCoinIsRead` | src/coins.cpp:66-82 | pulling an entry up changes nothing visible and keeps the flag invariant; the entry pulled up is clean, and FRESH exactly when it is spent |
| `CoinsProofs.HaveCoinIsRead` | src/coins.cpp:161-165 | the answer is yes exactly for the visible coins, whatever spent entries the caches remember, and asking changes nothing visible |
| `CoinsProofs.GetNullifierIsRead` | src/coins.cpp:446-458 | caching the answer about a nullifier changes nothing visible |
| `CoinsProofs.GetAnchorIsRead` | src/coins.cpp:422-444 | caching an anchor changes nothing visible, and the tree returned is the one the view names by that root |
| `CoinsProofs.GetBestBlockIsRead` | src/coins.cpp:173-178 | remembering the best block of the base changes nothing visible |
| `CoinsProofs.GetBestAnchorIsRead` | src/coins.cpp:561-565 | remembering the best anchor of the base changes nothing visible |
| `CoinsProofs.UncacheIsRead` | src/coins.cpp:323-330 | exactly an entry without flags is dropped, and nothing visible changes |
| `CoinsProofs.AddCoinIsUpdate` | src/coins.cpp:94-114 | AddCoin throws exactly when it may not overwrite and its own entry is unspent; otherwise the view gains exactly that coin, and the flag invariant survives exactly when overwriting, already cached, or not visible below |
| `CoinsProofs.AddCoinAllowed` | src/coins.cpp:94-114 | a caller that overwrites, or adds a coin that is not visible, never meets the exception and keeps the invariant |
| `CoinsProofs.SpendCoinIsRemoval` | src/coins.cpp:133-147 | spending removes exactly that coin from the view of the top layer and no other; the entry goes exactly if it was FRESH and is otherwise left spent and dirty |
| `CoinsProofs.AddCoinsIsPlain` | src/coins.cpp:116-131 | all outputs of a transaction, less the banned ones, enter the view; with check = true nothing is required of the view, with check = false the outputs must not be visible |
| `CoinsProofs.SetNullifiersIsMark` | src/coins.cpp:550-559 | marking nullifiers spent or unspent is that update of the visible set |
| `CoinsProofs.PushAnchorIsInsert` | src/coins.cpp:460-500 | pushing an anchor makes its tree visible and best, and is a no-op for the current best one |
| `CoinsProofs.PopAnchorIsRemoval` | src/coins.cpp:502-548 | the assertion fails exactly when the current best anchor is not visible; otherwise that anchor disappears and the new root is best |
| `CoinsProofs.MergeCoinsCorrect` | src/coins.cpp:246-298 | writing a child's coins into a parent never meets the "FRESH flag misapplied" exception, re-establishes the flags between parent and grandparent and shows what the child showed |
| `CoinsProofs.MergeCoinsFlags` | src/coins.cpp:246-298 | a dirty coin arrives dirty, FRESH only if the parent has no entry to say otherwise, and leaves no trace when it is spent and nothing below knows it |
| `CoinsProofs.MergeNullifiersCorrect` | src/coins.cpp:218-238 | the same for nullifiers |
| `CoinsProofs.MergeAnchorsCorrect` | src/coins.cpp:185-216 | the same for anchors |
| `CoinsProofs.FlushIntoCache` | src/coins.cpp:309-321 | after a flush parent and child show the child's coins, nullifiers and anchors, the grandparent is untouched and the invariant holds; each best hash reaches the parent if and only if the child had read or set it, or the parent had nothing of its own |
| `CoinsProofs.FlushThrowsIff` | src/coins.cpp:240-307 | whatever the flags, a flush throws exactly when the best block is unset above a database or a FRESH dirty coin meets an unspent one |
| `CoinsProofs.WriteDbCoins` | src/txdb.cpp:77-144 | the database shows the flushed coins over what it had |
| `CoinsProofs.WriteDbAnchors` | src/sapling/sapling_txdb.cpp:56-77 | the database shows the flushed anchors over what it had, and always the empty root |
| `CoinsProofs.FlushIntoDb` | src/txdb.cpp:77-144 | the flush succeeds exactly when a best block is known, and then the database shows the flushed view, exactly if the empty root was visible in it |
| `CoinsProofs.FlushIsPlain` | src/coins.cpp:309-321 | under the stated conditions a flush is, on the stack of views, copying the top view down |
| `CoinsProofs.StepRefines` | src/coins.cpp:66-330 | every operation acts on the stack of visible views as the plain operation does and keeps the invariant |
| `CoinsProofs.RunRefines` | src/coins.cpp:66-330 | every run of operations that meet their callers' obligations, over any tower of caches, with layers pushed, flushed and discarded, throws nowhere and shows what the plain maps show |
| `CoinsProofs.MisusedAddReappears` | src/coins.cpp:105-112 | adding with overwrite = false over a coin that only a lower layer holds, and then spending it, leaves the old coin visible |
| `CoinsCache.CoinsViewCache.FetchCoin` | src/coins.cpp:66-82 | leaves the objects of all layers as the value model says and returns its entry |
| `CoinsCache.CoinsViewCache.GetCoin` | src/coins.cpp:84-92 | the same for the coin |
| `CoinsCache.CoinsViewCache.HaveCoin` | src/coins.cpp:161-165 | the same for the answer |
| `CoinsCache.CoinsViewCache.AddCoin` | src/coins.cpp:94-114 | throws and updates as the value model does |
| `CoinsCache.CoinsViewCache.SpendCoin` | src/coins.cpp:133-147 | updates as the value model does |
| `CoinsCache.CoinsViewCache.Uncache` | src/coins.cpp:323-330 | updates as the value model does |
| `CoinsCache.CoinsViewCache.GetNullifier` | src/coins.cpp:446-458 | updates and answers as the value model does |
| `CoinsCache.CoinsViewCache.SetNullifiers` | src/coins.cpp:550-559 | the loop has the effect of the value model |
| `CoinsCache.CoinsViewCache.GetAnchor` | src/coins.cpp:422-444 | updates and answers as the value model does |
| `CoinsCache.CoinsViewCache.GetBestBlock` | src/coins.cpp:173-178 | updates and answers as the value model does |
| `CoinsCache.CoinsViewCache.GetBestAnchor` | src/coins.cpp:561-565 | updates and answers as the value model does |
| `CoinsCache.CoinsViewCache.PushAnchor` | src/coins.cpp:460-500 | updates as the value model does |
| `CoinsCache.CoinsViewCache.PopAnchor` | src/coins.cpp:502-548 | fails and updates as the value model does |
| `CoinsCache.CoinsViewCache.WriteCoins` | src/coins.cpp:246-298 | taking the entries in any order gives the merge of the value model, or the exception exactly when that has one |
| `CoinsCache.CoinsViewCache.WriteNullifiers` | src/coins.cpp:218-238 | any order gives the merge of the value model |
| `CoinsCache.CoinsViewCache.WriteAnchors` | src/coins.cpp:185-216 | any order gives the merge of the value model |
| `CoinsCache.CoinsViewCache.BatchWrite` | src/coins.cpp:240-307 | the parent becomes the merge of the value model |
| `CoinsCache.CoinsViewCache.Flush` | src/coins.cpp:309-321 | child and base become what the value model says, through any number of layers |
| `CoinsCache.CoinsViewCache.AddCoins` | src/coins.cpp:116-131 | the loop over the outputs has the effect of the value model |
| `CoinsCache.CoinsViewDB.WriteCoins` | src/txdb.cpp:107-131 | taking the entries in any order erases the dirty spent coins, writes the dirty unspent ones and touches no other |
| `CoinsCache.CoinsViewDB.WriteNullifiers` | src/sapling/sapling_txdb.cpp:37-54 | any order erases or enters exactly the dirty nullifiers |
| `CoinsCache.CoinsViewDB.WriteAnchors` | src/sapling/sapling_txdb.cpp:56-77 | any order erases or writes exactly the dirty anchors, and never writes the empty root |
| `CoinsCache.CoinsViewDB.BatchWrite` | src/txdb.cpp:77-144 | the three loops and the two hashes leave the database that WriteDbCoins and WriteDbAnchors speak of, or the assertion on the best block fails |
| `AddrManModel.InvPassesCheck` | src/addrman.cpp:400-474 | every state that satisfies the invariant passes every condition of Check_ on structure, and those on times exactly if the tables have right times |
| `AddrManModel.GoodTimes` | src/addrman.cpp:204-256 | Good_ keeps the times that Check_ demands exactly if the address does not match, the time is positive, or it is 0 and the entry, not tried, only becomes a pending collision |
| `AddrManModel.SuccessAtZero` | src/addrman.cpp:223-256 | a success reported at time 0 promotes an entry that Check_ then refuses |
| `AddrManModel.AttemptTimes` | src/addrman.cpp:331-351 | Attempt_ keeps the times right exactly if the time is not negative or no entry matches |
| `AddrManModel.AddKnownTimes` | src/addrman.cpp:272-300 | Add_ of a known address keeps the times right, whatever the clock shows |
| `AddrManModel.AddUnknownTimes` | src/addrman.cpp:300-327 | so does Add_ of an unknown one |
| `AddrManModel.ResolveOneTimes` | src/addrman.cpp:549-602 | settling a collision keeps the times right exactly if the clock is positive or the entry is not promoted |
| `AddrManModel.ResolveTimes` | src/addrman.cpp:547-604 | a whole pass over the pending collisions keeps the times right under a positive clock |
| `AddrManModel.CountsFit` | src/addrman.h:465-471 | the counters never exceed what the tables can hold |
| `AddrManModel.EntriesAreReferenced` | src/addrman.cpp:400-474 | the entries are exactly those that some slot refers to; tried slots hold exactly the tried entries and new slots the others |
| `AddrManModel.CollectedIs` | src/addrman.cpp:138-151 | an operation that leaves given tables, forgets entries only and restores the invariant has done exactly garbage collection |
| `AddrManModel.CollisionsLater` | src/addrman.cpp:547-631 | a pending collision stays about an occupied tried slot, because tried slots stay filled, ids are not reused and ids keep their addresses |
| `AddrManModel.NewDrop` | src/addrman.cpp:138-151 | the holder of a new slot has a positive reference count, and dropping the reference keeps counts and slots in step |
| `AddrManModel.RandomSwap` | src/addrman.cpp:104-122 | swapping two places with their back pointers keeps vRandom and the positions inverse to each other |
| `AddrManLaws.TriedContend` | src/addrman.cpp:17-42 | two addresses contend for a tried slot exactly if their keyed hashes agree modulo 256 and their position hashes in that bucket modulo 64 |
| `AddrManLaws.NewContend` | src/addrman.cpp:27-42 | the same for new slots, with 1024 buckets selected by address and source |
| `AddrManLaws.TerribleMeans` | src/addrman.cpp:44-62 | terrible exactly if not tried within a minute, and from more than ten minutes ahead, not seen for thirty days, never successful in three attempts, or failed ten times with no success for a week |
| `AddrManLaws.AttemptMeans` | src/addrman.cpp:331-351 | the entry with that address and port notes the try; its failures go up by one exactly if they count and none was counted since the last success anywhere; nothing else changes |
| `AddrManLaws.SeenMeans` | src/addrman.cpp:272-280 | only time and services change: services are joined, and the time moves, by more than an hour or a day and never below 0, under the conditions stated |
| `AddrManLaws.FreshMeans` | src/addrman.cpp:300-305 | a new entry has the penalised time and no history |
| `AddrManLaws.CollectMeans` | src/addrman.cpp:138-151 | an entry survives, unchanged, exactly if a slot refers to it |
| `AddrManLaws.MakeTriedMeans` | src/addrman.cpp:153-202 | the entry holds its tried slot and no new one, whoever held that slot is in its own new slot, and no other slot changes |
| `AddrManLaws.GoodMeans` | src/addrman.cpp:204-256 | success time, last try and attempts are set; a tried entry stays, one that needs a test waits unless ten do, any other moves |
| `AddrManLaws.ReferMeans` | src/addrman.cpp:307-327 | the slot is given if it is free, its own, held by a terrible entry, or held by one with another slot while this one has none |
| `AddrManLaws.AddUnknownMeans` | src/addrman.cpp:300-327 | an unknown address is entered with exactly that reference under the same conditions, and not at all otherwise |
| `AddrManLaws.AddKnownMeans` | src/addrman.cpp:272-327 | a known address is refreshed, and referred to again exactly if its announced time is newer, it is not tried, has not eight references and is lucky |
| `AddrManLaws.ResolveMeans` | src/addrman.cpp:549-602 | in times and slots: a holder that succeeded within four hours keeps its slot; one tried at most a minute ago keeps it for now; one tried earlier in the last four hours loses it; one not tried for four hours loses it exactly once the pending entry is forty minutes old |
| `AddrManLaws.ResolvePass` | src/addrman.cpp:547-604 | a whole pass at one time is those rules for the pending ids in ascending order |
| `AddrManSteps.CreatedInv` | src/addrman.cpp:92-102 | a created entry breaks nothing but that it has no reference |
| `AddrManSteps.DeletedInv` | src/addrman.cpp:124-136 | deleting an entry without references keeps the invariant |
| `AddrManSteps.TriedOutInv` | src/addrman.cpp:174-184 | unmarking a tried entry leaves it counted nowhere and without references, and nothing else disturbed |
| `AddrManSteps.TriedInInv` | src/addrman.cpp:197-201 | entering an entry in its own empty tried slot completes the invariant |
| `AddrMan.AddrMan.constructor` | src/addrman.h:568-595 | a fresh manager is empty and valid for every operation |
| `AddrMan.AddrMan.SwapRandom` | src/addrman.cpp:104-122 | positions and vector stay inverse to each other and nothing else changes |
| `AddrMan.AddrMan.Delete` | src/addrman.cpp:124-136 | the entry goes from every structure; its assertions hold at every call in the project |
| `AddrMan.AddrMan.ClearNew` | src/addrman.cpp:138-151 | the slot is empty afterwards, only its holder may go, and the invariant holds |
| `AddrMan.AddrMan.RemoveFromNew` | src/addrman.cpp:155-168 | counting around the buckets finds and drops every reference, so that the assertion on the count holds |
| `AddrMan.AddrMan.MakeRoom` | src/addrman.cpp:174-197 | the holder of the tried slot is back in its own new slot, over whoever was there, and the tried slot is empty |
| `AddrMan.AddrMan.EnterTried` | src/addrman.cpp:197-201 | an entry counted nowhere takes its own empty tried slot, and the invariant is complete again |
| `AddrMan.AddrMan.MakeTried` | src/addrman.cpp:153-202 | all assertions hold, the invariant is kept, no tried slot empties, and the tables become what moving the entry and collecting garbage gives |
| `AddrMan.AddrMan.Find` | src/addrman.cpp:79-90 | the entry with the network address, if there is one |
| `AddrMan.AddrMan.Create` | src/addrman.cpp:92-102 | the new entry gets an unused id and the invariant holds but for its missing reference |
| `AddrMan.AddrMan.GoodEntry` | src/addrman.cpp:216-256 | the effect on tables and pending collisions for a known entry, at any time |
| `AddrMan.AddrMan.Good_` | src/addrman.cpp:204-256 | at any time keeps the invariant and that pending collisions are about occupied slots; unknown addresses change nothing, known ones have exactly the effect on tables and pending collisions that the garbage-collected model says |
| `AddrMan.AddrMan.ReferEntry` | src/addrman.cpp:307-327 | the entry is referred to from the selected slot unless somebody worth keeping holds it, and unreferenced entries go |
| `AddrMan.Roll` | src/addrman.cpp:294-299 | with n references the draw is below 2^n, and luck is drawing 0 |
| `AddrMan.AddrMan.AddToKnown` | src/addrman.cpp:272-300 | the known-address half of Add_: time and services, then a further reference under the conditions of the source |
| `AddrMan.AddrMan.AddToUnknown` | src/addrman.cpp:300-327 | the unknown-address half of Add_ |
| `AddrMan.AddrMan.Add_` | src/addrman.cpp:258-329 | keeps the invariant; true exactly for a routable unknown address; the tables become what the model says for known and unknown addresses, with the clock read twice |
| `AddrMan.AddrMan.Attempt_` | src/addrman.cpp:331-351 | at any time changes the statistics of exactly the matching entry and keeps the invariant |
| `AddrMan.AddrMan.GetAddr_` | src/addrman.cpp:477-507 | leaves the tables alone and returns distinct addresses that are wanted and not terrible, at most the limit, and all of them if fewer |
| `AddrMan.AddrLimitMeans` | src/addrman.cpp:479-485 | the limit is the largest number within the percentage and the maximum, each counting only if it is not zero |
| `AddrMan.AddrMan.ResolveEntry` | src/addrman.cpp:549-602 | one pending collision is settled, kept or promoted by the rules of the model, whatever the clock shows at each look; with one time for all looks, by the rules of ResolveMeans stated on the slots before and after |
| `AddrMan.AddrMan.SettleEntry` | src/addrman.cpp:549-602 | one turn: the same, and the id stays pending exactly if it is not settled |
| `AddrMan.AddrMan.ResolveCollisions_` | src/addrman.cpp:547-604 | settling all pending collisions in ascending order, whatever the clock shows at each look, keeps the invariant and leaves the tables and the collisions of the model, of which ResolvePass speaks |
| `AddrMan.AddrMan.SelectTriedCollision_` | src/addrman.cpp:606-631 | the slot it looks up is never empty, so the entry it returns exists and is the holder of that slot |
| `AddrManDisk.WriteEntries` | src/addrman.h:384-403 | the new or the tried entries are written in ascending id order with matching indices; the assertion on the count holds before each, and all that are counted are written |
| `AddrManDisk.WriteBucket` | src/addrman.h:404-417 | one bucket lists the indices of its holders |
| `AddrManDisk.Serialize` | src/addrman.h:363-425 | what is written is the file of the value model |
| `AddrManDisk.Clear` | src/addrman.h:568-590 | everything but the pending collisions is reset |
| `AddrManDisk.LoadNewEntries` | src/addrman.h:473-481 | the loop builds the state of the value model from any list |
| `AddrManDisk.LoadTriedEntries` | src/addrman.h:483-502 | an entry whose slot is taken is dropped and the count corrected |
| `AddrManDisk.ReadBuckets` | src/addrman.h:504-517 | each valid index ends with the last bucket that lists it |
| `AddrManDisk.PlaceEntries` | src/addrman.h:528-548 | recorded bucket, else own bucket, else no reference |
| `AddrManDisk.PruneEntries` | src/addrman.h:550-560 | exactly the entries without reference are deleted, whose assertions hold for any file |
| `AddrManDisk.Unserialize` | src/addrman.h:428-566 | refuses exactly the files the source refuses, leaving no entry and the counts that were read, and otherwise gives the state of the value model |
| `AddrManDisk.WrittenIsAccepted` | src/addrman.h:465-471 | what a manager writes passes every test of Unserialize |
| `AddrManDisk.Reload` | src/addrman.h:362-566 | Serialize then Unserialize, into another manager or the same, under the same key and asmap: accepted, invariant, nNew, nTried and right times kept, every tried entry back in its slot and every new entry in one slot of its own |
| `AddrManFile.LastBucketIs` | src/addrman.h:504-517 | the recorded bucket of an entry is the highest-numbered one that lists it |
| `AddrManFile.HomeIsHighest` | src/addrman.h:528-548 | the slot chosen for a written entry is the one it held in its highest-numbered bucket |
| `AddrManFile.WrittenIsGood` | src/addrman.h:363-425 | a written file has distinct network addresses and distinct tried slots |
| `AddrManFile.LoadedIs` | src/addrman.h:428-566 | loading a written file drops and prunes nothing |
| `AddrManFile.ReloadKeepsEntries` | src/addrman.h:362-566 | for every state that satisfies the invariant, writing and loading under the same asmap satisfies the invariant again, keeps nNew and nTried, keeps the times right, returns every tried entry to its slot and every new entry to exactly one reference, in the slot of its highest-numbered bucket, each with its address, services, source, time, last success and attempts |
| `AddrManLoad.AnyFileLoads` | src/addrman.h:428-566 | any file with distinct network addresses loads into a state that satisfies the invariant: each tried slot is held by the first record that has it, every new entry is a record of the file, a new record is missing only if its own slot is held, and buckets are made anew for another format, bucket count or asmap |
| `AddrManLoad.RebucketKeeps` | src/addrman.h:362-566 | so a manager written under one key or asmap loads under any other |
| `Mempool.CountGrows` | src/blockassembler.h:89-96 | a transaction has a larger ancestor count than each of its ancestors |
| `BlockAssembler.NoUnderflow` | src/blockassembler.cpp:314-336 | whatever is subtracted from a cached total is still part of it |
| `BlockAssembler.UpdateRestoresTracking` | src/blockassembler.cpp:314-336 | after a package enters the block the cached totals are again exact for entries that never failed and never less than the true sums for the others |
| `BlockAssembler.PackageCost` | src/blockassembler.cpp:429-436 | the total consulted for a candidate is never below the cost of what it brings in, and equal for an entry that is not in the map and never failed |
| `BlockAssembler.ComesEarlier` | src/blockassembler.h:89-96 | sorted by ancestor count, ancestors come first |
| `BlockAssembler.AncestorsBefore` | src/blockassembler.cpp:355-364 | every ancestor of a sorted entry is in the block or before it |
| `BlockAssembler.Assembler.ResetBlock` | src/blockassembler.cpp:145-156 | an empty block with the reserved cost satisfies the block invariant |
| `BlockAssembler.Assembler.OnlyUnconfirmed` | src/blockassembler.cpp:262-273 | exactly the entries not in the block remain |
| `BlockAssembler.Assembler.TestPackageFinality` | src/blockassembler.cpp:286-293 | true exactly if all are final |
| `BlockAssembler.Assembler.AddToBlock` | src/blockassembler.cpp:295-312 | appending keeps the list without duplicates, in ancestor order, and its cost counted |
| `BlockAssembler.Assembler.SortForBlock` | src/blockassembler.cpp:355-364 | a permutation of the package in ancestor-count order |
| `BlockAssembler.Assembler.AddPackage` | src/blockassembler.cpp:471-492 | the whole package enters in order; the assertion that an entry is not in the block yet holds |
| `BlockAssembler.Assembler.UpdateDescendants` | src/blockassembler.cpp:318-336 | one added entry is accounted for in every descendant, without underflow |
| `BlockAssembler.Assembler.UpdatePackagesForAdded` | src/blockassembler.cpp:314-336 | every descendant accounts for exactly the added ancestors |
| `BlockAssembler.Assembler.EnterPackage` | src/blockassembler.cpp:467-495 | the package enters, its cost is added to the counters and the cached totals mean what they did |
| `BlockAssembler.Assembler.TryCandidate` | src/blockassembler.cpp:443-495 | the package enters exactly if it is under both limits and all of it is final; then the whole of it does, and otherwise nothing changes but the failed candidate's entry |
| `BlockAssembler.Assembler.NextCandidate` | src/blockassembler.cpp:392-436 | the candidate is live and its package total never below its true cost |
| `BlockAssembler.Assembler.Consider` | src/blockassembler.cpp:443-495 | a candidate is added, or its refusal is recorded with the block, the counters and the package at that moment |
| `BlockAssembler.Assembler.Turn` | src/blockassembler.cpp:390-495 | one turn skips, stops for a fee below the minimum, adds or refuses |
| `BlockAssembler.NothingRefused` | src/blockassembler.cpp:275-293 | if everything is final and together within both limits, no refusal is possible |
| `BlockAssembler.Assembler.AddPackageTxs` | src/blockassembler.cpp:376-497 | terminates; the block has no duplicates, every transaction after all its mempool ancestors, all final, and is strictly under the size and sigop limits unless empty; unless it stopped for a fee below the minimum, every listed transaction is in the block or was refused for size, sigops or finality of its package at a moment of the run, and if all are final and everything fits, all are in the block |
| `CheckQueue.BatchSize` | src/checkqueue.h:105 | between 1 and the queue length |
| `CheckQueue.BatchIsLargest` | src/checkqueue.h:105 | the largest number within the batch size and an equal share of the queue, but at least 1 |
| `CheckQueue.BatchIsBackOfQueue` | src/checkqueue.h:106-114 | a batch is the end of the queue, last check first, and exactly that leaves the queue |
| `CheckQueue.AddWakes` | src/checkqueue.h:140-153 | two or more checks leave no worker asleep, one check wakes one sleeper if there is any, and nobody else is touched |
| `CheckQueue.InitInv` | src/checkqueue.h:126 | a new queue satisfies the invariant |
| `CheckQueue.NextInv` | src/checkqueue.h:64-153 | every step of any thread keeps the invariant: nTodo counts queue and uncommitted batches, failures are remembered, idle and total counts are right |
| `CheckQueue.EveryRun` | src/checkqueue.h:64-153 | in every interleaving from a new queue each Wait returned true exactly when every check added since the previous Wait is true, nTodo is the queue length plus the uncommitted batches, the queue is idle between Waits, and no wake-up of the master is lost |
| `CheckQueue.IdleBetweenWaits` | src/checkqueue.h:159-206 | IsIdle holds after Wait and before the next Add, so the next controller's assertion succeeds |
| `CheckQueue.WaitingMasterHasWorker` | src/checkqueue.h:71-122 | an un-notified waiting master implies a worker with an uncommitted batch |
| `CheckQueue.EveryRunStirs` | src/checkqueue.h:64-153 | in every run, if checks are queued and a worker sleeps, some thread is working or notified: no wake-up of a worker is lost |
| `CheckQueue.IdleMeans` | src/checkqueue.h:159-163 | in every state of a run, idle means nothing queued, nobody working and no failure on record |
| `CheckQueue.LastCommitNotifies` | src/checkqueue.h:75-81 | the commit of the last batch notifies the waiting master |
| `CheckQueue.WaitNeverStuck` | src/checkqueue.h:64-122 | while Wait runs some thread has a proper step |
| `CheckQueue.RankDecreases` | src/checkqueue.h:64-122 | every proper step while Wait runs lowers a rank or ends it |
| `CheckQueue.WaitTerminates` | src/checkqueue.h:64-122 | without spurious wake-ups no run stays in Wait longer than its initial rank |
| `DbTransaction.LessMeans` | src/dbwrapper.h:540-548 | keys are ordered by the first byte that differs, a proper prefix coming first |
| `DbTransaction.CostOfWrite` | src/dbwrapper.h:596-610 | the adjustment on a write keeps memoryUsage the exact sum |
| `DbTransaction.CostOfErase` | src/dbwrapper.h:663-673 | the adjustment on an erase keeps memoryUsage the exact sum |
| `DbTransaction.DBTransaction.Write` | src/dbwrapper.h:596-610 | the overlay gains the pair, the key is pending as written only; memoryUsage is exactly the bytes of what is pending, hence not negative |
| `DbTransaction.DBTransaction.Read` | src/dbwrapper.h:618-636 | the overlay's value |
| `DbTransaction.DBTransaction.Exists` | src/dbwrapper.h:644-655 | whether the overlay has the key |
| `DbTransaction.DBTransaction.Erase` | src/dbwrapper.h:663-673 | the overlay loses the key, the key is pending as deleted only; memoryUsage is exactly the bytes of what is pending, hence not negative |
| `DbTransaction.DBTransaction.Clear` | src/dbwrapper.h:675-680 | nothing pending |
| `DbTransaction.DBTransaction.Commit` | src/dbwrapper.h:682-691 | the target becomes itself with the pending changes; a target equal to the parent becomes the overlay |
| `DbTransaction.DBTransactionIterator.SkipDeletedAndOverwritten` | src/dbwrapper.h:504-513 | the parent cursor lands on a live key and passes none |
| `DbTransaction.DBTransactionIterator.SeekToFirst` | src/dbwrapper.h:414-420 | everything is ahead |
| `DbTransaction.DBTransactionIterator.Seek` | src/dbwrapper.h:428-434 | exactly the overlay keys from the start key on are ahead |
| `DbTransaction.DBTransactionIterator.GetKey` | src/dbwrapper.h:478-488 | the current key is the least one ahead |
| `DbTransaction.DBTransactionIterator.GetValue` | src/dbwrapper.h:490-501 | the value Read gives for it |
| `DbTransaction.DBTransactionIterator.Next` | src/dbwrapper.h:441-455 | consumes exactly the least key ahead |
| `DbTransaction.Enumerate` | src/dbwrapper.h:414-528 | a full walk gives exactly the overlay keys from the start key on, strictly increasing in byte order, each with the value Read gives |
| `CuckooCache.PutLive` | src/cuckoocache.h:376-391 | writing a slot loses nothing if it was collectable, else exactly its holder |
| `CuckooCache.Cache.constructor` | src/cuckoocache.h:315-329 | eight slots per element within the table, nothing live |
| `CuckooCache.Cache.EpochCheck` | src/cuckoocache.h:264-296 | either nothing changes or exactly the old epoch becomes collectable and the recent one old; the counter until the next scan is exact, and there is room for the recent entries until then |
| `CuckooCache.PutPlaced` | src/cuckoocache.h:376-405 | writing a slot keeps every element in one of its own slots and in no two, and the value that unused slots hold live in the first of its slots only |
| `CuckooCache.PutRecentLive` | src/cuckoocache.h:376-391 | which elements of the recent epoch are live after a slot is written |
| `CuckooCache.Cache.Contains` | src/cuckoocache.h:443-453 | true exactly if one of the eight slots holds the element, which for all but the value of unused slots is exactly if it is stored; erasing makes exactly that one not live |
| `CuckooCache.Cache.InsertNew` | src/cuckoocache.h:382-415 | with a collectable slot the element goes into the first of them and nothing else changes; without, it takes the second of its slots and each displaced element goes on in turn; something is lost only when every element in hand met eight live slots, and then it is the last one in hand |
| `CuckooCache.Cache.Turn` | src/cuckoocache.h:382-411 | one turn places the element in hand in its first collectable slot, or swaps it for the one in the slot after the last one used |
| `CuckooCache.Cache.Insert` | src/cuckoocache.h:368-416 | for every element, also the value that unused slots hold, the live set left by the epoch check gains the element and loses at most one; an element that is there is renewed in place, one with a collectable slot goes into the first of them with nothing lost, and an element that was not lost is found afterwards; live entries of the recent epoch never exceed epoch_size + max(1, epoch_size/16) |
| `RollingBloom.WipedCell` | src/bloom.cpp:283-291 | the word operations wipe exactly the cells of the reused generation |
| `RollingBloom.WithCellAt` | src/bloom.cpp:297-302 | the word operations set exactly one cell |
| `RollingBloom.FastMod` | src/bloom.cpp:271-273 | the floor of x * n / 2^32, which is below n |
| `RollingBloom.RollingBloomFilter.CellOf` | src/bloom.cpp:296-302 | the pair of words is the one that holds position h * size / 2^32, the bit is h modulo 64 |
| `RollingBloom.RollingBloomFilter.constructor` | src/bloom.cpp:235-260 | an empty filter; two generations hold nElements, rounded up to an even number, and the words hold two bits for each filter bit, rounded up to 64 |
| `RollingBloom.RollingBloomFilter.Reset` | src/bloom.cpp:332-340 | an empty filter under a new tweak, in generation 1 and with all words zero |
| `RollingBloom.RollingBloomFilter.Rotate` | src/bloom.cpp:277-292 | the cells of the reused generation number, and only they, are forgotten, so none holds it; the last two generations stay |
| `RollingBloom.RollingBloomFilter.Insert` | src/bloom.cpp:275-304 | the key joins the window, overwriting bits loses nobody in it, and no cell is set but by keys of the window |
| `RollingBloom.RollingBloomFilter.Contains` | src/bloom.cpp:312-324 | true exactly if each cell of the key is a cell of one of the last 2 * nEntriesPerGeneration + nEntriesThisGeneration insertions, so never false for those |
| `RollingBloom.RollingBloomFilter.CellMeans` | src/bloom.cpp:253-257 | a cell is set, and its generation is that of the latest, exactly if keys of the window have it |
| `RollingBloom.RollingBloomFilter.WindowSize` | src/bloom.cpp:241 | the window holds at least the last two and at most three generations of insertions |
| `Bech32.PolyMod` | src/bech32.cpp:33-90 | the loop computes the step-by-step remainder |
| `Bech32.StepLinear` | src/bech32.cpp:76-87 | one step is linear over xor |
| `Bech32.StepInjective` | src/bech32.cpp:76-87 | multiplying by x modulo the generator loses nothing on thirty bits |
| `Bech32.FoldLinear` | src/bech32.cpp:33-90 | PolyMod is linear: the remainder of a difference is the difference of remainders |
| `Bech32Polynomial.StepIsTimesX` | src/bech32.cpp:61-87 | one step multiplies by x modulo the generator over GF(32) and adds the symbol: each coefficient moves up, and the one that leaves comes back times the coefficient of the generator |
| `Bech32Polynomial.Constants` | src/bech32.cpp:82-87 | the five constants are x^6 modulo the generator times 1, a, a^2, a^3 and a^4 in GF(32) |
| `Bech32Polynomial.FoldIsRemainder` | src/bech32.cpp:33-90 | PolyMod is polynomial division: there is a quotient with which dividend = quotient * generator + result |
| `Bech32Polynomial.DivisionUnique` | src/bech32.cpp:40-45 | quotient and remainder by the generator are unique |
| `Bech32Polynomial.VerifiesIffRemainderOne` | src/bech32.cpp:113-121 | a checksum verifies exactly when the polynomial of a leading 1, the expanded human-readable part and the data leaves remainder 1 |
| `Bech32Polynomial.VectorDecodes` | src/test/bech32_tests.cpp:28 | the test vector A12UEL5L decodes to the human-readable part a without data |
| `Bech32.FoldPacks` | src/bech32.cpp:123-135 | from zero, six symbols are just packed |
| `Bech32.FoldUnpacks` | src/bech32.cpp:123-135 | every thirty bits are six packed symbols |
| `Bech32.ChecksumIsTheOne` | src/bech32.cpp:113-135 | exactly one choice of six symbols makes the remainder 1, the one CreateChecksum makes |
| `Bech32.ExpandHRP` | src/bech32.cpp:98-111 | high bits, zero, low bits |
| `Bech32.CreateChecksum` | src/bech32.cpp:123-135 | the six symbols of the model |
| `Bech32.VerifyChecksum` | src/bech32.cpp:113-121 | whether the remainder is 1 |
| `Bech32.ChecksumVerifies` | src/bech32.cpp:113-135 | with its checksum everything verifies, with any other six symbols nothing does |
| `Bech32.CharFacts` | src/bech32.cpp:15-28 | the two tables are inverse on the symbols, whose characters are printable, lower case and never the separator |
| `Bech32.RevLowerFacts` | src/bech32.cpp:15-28 | every character with a value is, in lower case, the character of that value |
| `Bech32.Encode` | src/bech32.cpp:143-155 | the string of the model, empty for values over five bits |
| `Bech32.Decode` | src/bech32.cpp:158-188 | accepts exactly the strings of the declarative definition and returns their parts |
| `Bech32.DecodeEncoded` | src/bech32.cpp:143-188 | decoding an encoding gives back every nonempty printable human-readable part without capitals and every five-bit data within 1023 characters |
| `Bech32.EncodeDecoded` | src/bech32.cpp:143-188 | an accepted string is, in lower case, the encoding of what it decodes to |
| `Bech32.AcceptedIsEncoded` | src/bech32.cpp:143-188 | the accepted strings without capitals are exactly the encodings of what can be encoded |
| `Bech32.OneSymbolShows` | src/bech32.cpp:33-90 | two inputs that differ in one symbol never have the same remainder, at any length |
| `Bech32.BurstShows` | src/bech32.cpp:33-90 | two inputs that differ, but only within six consecutive symbols, never have the same remainder, at any length |
| `Bech32.BurstRejected` | src/bech32.cpp:158-188 | replacing up to six consecutive data symbols of an accepted string, with any change of case elsewhere, gives a string that is rejected |
| `Bech32.OneErrorRejected` | src/bech32.cpp:158-188 | replacing one data symbol of an accepted string by a different one gives a string that is rejected |
| `Base58.BytesFit` | src/base58.cpp:82-84 | n bytes always fit in n*138/100+1 base-58 digits |
| `Base58.SymbolsFit` | src/base58.cpp:36-38 | n base-58 digits always fit in n*733/1000+1 bytes |
| `Base58.NoCarry` | src/base58.cpp:85-99 | the carry assertions hold, even when the loop runs into the end of the buffer |
| `Base58.MulAdd` | src/base58.cpp:45-54 | one pass makes the buffer's number b*mul+ch with no leading zero in the used part |
| `Base58.EncodeBase58` | src/base58.cpp:73-111 | leading zero bytes as ones, then the base-58 digits of the number |
| `Base58.DecodeBase58` | src/base58.cpp:23-71 | accepts exactly the strings of the declarative definition, with spaces around, within the length limit |
| `Base58.PrefixIsShorter` | src/base58.cpp:53-56 | giving up early on length refuses no string that the final length would allow |
| `Base58.LetterDigit` | src/base58.cpp:20-21 | letters and digits are inverse |
| `Base58.AlphabetIs` | src/base58.cpp:20-21 | the alphabet is the digits and letters without 0, O, I and l, in the order of their codes |
| `Base58.DecodeEncoded` | src/base58.cpp:23-111 | decoding an encoding gives back every byte string within the limit |
| `Base58.EncodeDecoded` | src/base58.cpp:23-111 | encoding what was decoded gives back every accepted string without the spaces around it |
| `Base58.NothingToTrim` | src/base58.cpp:23-71 | a string without spaces is its own trimmed form |
| `SkipHeights.GetSkipHeight` | src/chain.cpp:77-86 | the skip height of a positive height is strictly lower |
| `SkipHeights.InvertClearsOne` | src/chain.cpp:74-75 | exactly one bit is cleared |
| `SkipHeights.InvertLow` | src/chain.cpp:74-75 | and it is below everything else: higher bits stay |
| `SkipHeights.MovesBound` | src/chain.cpp:77-111 | from a height below 2^j, whatever the target, the walk with skip pointers takes at most j^2 moves |
| `SkipHeights.MovesUpper` | src/chain.cpp:88-111 | leaving the upper half of an aligned block takes at most twice as many moves as the offset has ones, and two more |
| `Chain.Move` | src/chain.cpp:96-108 | one move, along pskip or to the parent, stays on the way to the ancestor; the assertion on pprev holds |
| `Chain.GetAncestor` | src/chain.cpp:88-111 | null outside the block's heights, else the block that walking the parents reaches, after at most j^2 moves from a height below 2^j |
| `Chain.BuildSkip` | src/chain.cpp:118-122 | a block linked to its parent extends the tree with right skip pointers |
| `Chain.LastCommonAncestor` | src/chain.cpp:335-353 | the highest block that is an ancestor of both, not null in a tree with one genesis; the assertion holds |
| `Chain.Chain.SetTip` | src/chain.cpp:14-25 | the chain becomes the whole path to the tip, although it stops at the first block already there |
| `Chain.Chain.FindFork` | src/chain.cpp:56-65 | the highest ancestor that is in the chain |
| `Chain.Chain.GetLocator` | src/chain.cpp:27-54 | entry k is the ancestor a fixed distance below the start, by chain index or skip list alike, down to height 0 |
| `Chain.LocatorShape` | src/chain.cpp:27-54 | a locator starts at the block, goes strictly down through ancestors to genesis and has at most 12 + floor(log2 height) entries |
| `Chain.LocatorGaps` | src/chain.cpp:27-54 | the first eleven gaps between heights are 1 and each later one is twice the one before, up to the last, which ends at genesis |
| `ArithUint.RowFits` | src/arith_uint256.cpp:82 | carry, word and product of two words never exceed 64 bits |
| `ArithUint.BaseUint.Add` | src/arith_uint256.h:137-147 | sum modulo 2^BITS, also when both operands are one object, in an accumulator that never exceeds 64 bits |
| `ArithUint.BaseUint.Complement` | src/arith_uint256.h:71-77 | value and complement add up to 2^BITS - 1 |
| `ArithUint.BaseUint.Increment` | src/arith_uint256.h:175-182 | successor modulo 2^BITS |
| `ArithUint.BaseUint.Decrement` | src/arith_uint256.h:192-199 | predecessor modulo 2^BITS |
| `ArithUint.BaseUint.Negate` | src/arith_uint256.h:79-86 | additive inverse modulo 2^BITS |
| `ArithUint.BaseUint.Subtract` | src/arith_uint256.h:149-153 | difference modulo 2^BITS |
| `ArithUint.BaseUint.MultiplyWord` | src/arith_uint256.cpp:63-73 | product with a word modulo 2^BITS, in an accumulator that never exceeds 64 bits |
| `ArithUint.BaseUint.AddRow` | src/arith_uint256.cpp:79-86 | one row adds its part of the product up to the modulus, in an accumulator that never exceeds 64 bits |
| `ArithUint.BaseUint.Multiply` | src/arith_uint256.cpp:75-89 | product modulo 2^BITS |
| `ArithUint.BaseUint.ShiftLeft` | src/arith_uint256.cpp:29-44 | product with 2^shift modulo 2^BITS, for every shift |
| `ArithUint.BaseUint.ShiftRight` | src/arith_uint256.cpp:46-61 | floor quotient by 2^shift, for every shift |
| `ArithUint.BaseUint.CompareTo` | src/arith_uint256.cpp:117-127 | the sign of the difference of the values |
| `ArithUint.BaseUint.Bits` | src/arith_uint256.cpp:214-227 | the bit length of the value |
| `ArithUint.BaseUint.DivideStep` | src/arith_uint256.cpp:105-112 | one turn keeps dividend = remainder + quotient * divisor and halves the bound on the remainder |
| `ArithUint.BaseUint.Align` | src/arith_uint256.cpp:103-104 | the shifted divisor loses no bit, and twice it exceeds the dividend |
| `ArithUint.BaseUint.DivideFrom` | src/arith_uint256.cpp:105-113 | the loop leaves the floor quotient, from any aligned start |
| `ArithUint.BaseUint.Divide` | src/arith_uint256.cpp:91-115 | floor quotient; refused exactly for a zero divisor, leaving zero |
| `ArithUint.OrDisjoint` | src/arith_uint256.cpp:37-42 | or of words without common bits is addition |
| `Compact.OverflowExact` | src/arith_uint256.cpp:287-290 | the overflow flag is set exactly when mantissa * 256^(size-3) reaches 2^256 |
| `Compact.SetCompact` | src/arith_uint256.cpp:274-292 | the value modulo 2^256 and both flags |
| `Compact.GetCompact` | src/arith_uint256.cpp:294-315 | size and leading bytes of the value; its assertions hold |
| `Compact.CompactMonotone` | src/arith_uint256.cpp:294-315 | GetCompact keeps the order |
| `Compact.CompactBack` | src/arith_uint256.cpp:274-315 | SetCompact(GetCompact(x)) is x with only its low bytes cleared, without flags |
| `Compact.SignBack` | src/arith_uint256.cpp:274-315 | the sign comes back exactly for numbers other than zero, and the number is the same with either sign |
| `Payments.BlockPayees.AddPayee` | src/gamemaster-payments.h:104-117 | exactly this payee gains the votes, and each payee is listed once |
| `Payments.BlockPayees.GetPayee` | src/gamemaster-payments.h:119-132 | the first of the payees with most votes, none only if all are negative |
| `Payments.BlockPayees.IsTransactionValid` | src/gamemaster-payments.cpp:582-625 | accepted exactly if nobody has six votes or somebody who has is paid the required amount |
| `Payments.WinnerAccepted` | src/gamemaster-payments.cpp:582-625 | paying the payee with most votes is always accepted, because it has six votes whenever anybody has |
| `Payments.SharesTotal` | src/gamemaster-payments.cpp:305-320 | the shares of gamemaster and operator add up to the payment exactly if the operator's is not more, which holds up to 100%; otherwise to the operator's |
| `Payments.OversizedShare` | src/gamemaster-payments.cpp:309-318 | an operator share of 200% is worth twice the payment |
| `Payments.SharesPaid` | src/gamemaster-payments.cpp:305-320 | the operator's script is paid nOperatorReward hundredths of a percent if it is set, the owner's the rest, and no other script anything |
| `Payments.RightPayees` | src/gamemaster-payments.cpp:301-350 | a deterministic gamemaster's two scripts are paid so; otherwise one output of the whole payment goes to the first payee with most votes, or to the current gamemaster if there is none |
| `Payments.AcceptsMeans` | src/gamemaster-payments.cpp:656-688 | for a deterministic gamemaster, accepted is exactly what has an output with each positive part to its own script |
| `Payments.GamemasterPayments.GetGamemasterTxOuts` | src/gamemaster-payments.cpp:301-350 | the outputs for the deterministic or the voted gamemaster, as RightPayees says, or none if there is nobody to pay |
| `Payments.RightOutsAccepted` | src/gamemaster-payments.cpp:656-688 | any transaction with these outputs passes the check against the same votes and list |
| `Payments.SubtractFromCoinstake` | src/gamemaster-payments.cpp:352-370 | takes the payment from the stake outputs, an equal part from each and the dust from the last one, and touches no other output |
| `Payments.GamemasterPayments.PlaceOuts` | src/gamemaster-payments.cpp:381-407 | the outputs end up after the stake, alone in the coinbase or after the coinbase's own; what they are worth is taken from the stake outputs or the first coinbase output, and no other output changes |
| `Payments.GamemasterPayments.FillBlockPayee` | src/gamemaster-payments.cpp:372-408 | the transaction that pays is always accepted; which outputs pay, by how much, and which scripts the added outputs pay, is stated; a coinstake block keeps its total exactly if nobody is paid, v6 is not active or the coinbase was worth nothing; a mined block with a payee totals the block value exactly if the coinbase outputs after the first are worth nothing |
| `Payments.GamemasterPayments.ClearedCoinbase` | src/gamemaster-payments.cpp:384-404 | from v6 on, a coinbase worth 5 is lost |
| `Payments.GamemasterPayments.OtherCoinbaseOutput` | src/gamemaster-payments.cpp:405-407 | a second coinbase output worth 5 is paid beyond the block value |
| `Payments.GamemasterPayments.IsTransactionValid` | src/gamemaster-payments.cpp:656-688 | whether the payment is accepted, for both kinds of gamemaster, as AcceptsMeans and BlockPayees.IsTransactionValid say |

## Left out

- CoinsCache.CoinsViewDB.BatchWrite: the batch is applied at once; partial batches and the marker for a replay after a crash are not modelled.
- AddrMan.AddrMan.Add_: times are not reduced to 32 bits.
- AddrManDisk.Clear: the key is not replaced by a fresh random one.
- AddrManModel.ResolveTimes: one way only, since a later promotion can move an entry with a wrong time out of the tried table again; the exact condition is stated per collision by ResolveOneTimes.
- AddrManDisk.Unserialize: a file is its parsed lists; truncated streams and negative counts are not modelled, and the key is the same on both sides.
- BlockAssembler.Assembler.AddPackageTxs: for mempools without shielded transactions, which can leave a package half added (src/blockassembler.cpp:477-488); the order of candidates is arbitrary, and so is the minimum fee as a function of the size.
- BlockAssembler.Assembler.TestPackageFinality: finality is a given property of a transaction; sigop counts are not reduced to 32 bits.
- CheckQueue.EveryRun: no Add while Wait runs, as the controller ensures; a check is its outcome.
- CuckooCache.Cache.Insert: the packing of flags into bytes is not modelled.
- RollingBloom.RollingBloomFilter.constructor: the number of bits comes from floating-point formulas and is a parameter.
- DbTransaction.DBTransaction.Commit: values are byte strings, and the batching of the underlying store is not modelled.
- Compact.GetCompact: combining fields that share no bits is written as addition.
- Chain.Chain.GetLocator: the entries are the blocks, not their hashes, and the stride does not wrap at 32 bits.
- Payments.GamemasterPayments.FillBlockPayee: for blocks that are no superblocks, with payments enabled and amounts that do not overflow 64 bits.
- The floating-point fee-rate order of mempool entries.
- Memory accounting of the coin caches, cursors, `SetBackend`, `GetValueIn`, `GetTotalAmount`, `PruneInvalidEntries`.
- `Select_`, `GetChance`, `Connected_`, `SetServices_` and the bucket hashes of the address manager.
- `CBloomFilter`, hexadecimal and floating-point conversions of big numbers, Base58Check, `FindEarliestAtLeast`.
- Budget payments, vote messages, one vote per gamemaster and height, the block-hash cache.
- Consensus validation, wallet, network protocol, RPC, key storage, cryptography and databases.
