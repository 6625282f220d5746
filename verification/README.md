# Verification of the chain core

A Dafny model of the parts of this blockchain node that keep several pieces of state in
agreement, with proofs of what they promise. Each module follows one component of the
program: its fields, branches, error cases and loops.

- `Transactions`, `Lists`, `Accounts`, `Arrivals`, `Lookup`, `Noncer`, `Pool`: the transaction pool.
  Pending and queued lists by nonce, the table of all transactions, virtual nonces, promotion,
  demotion, the two truncations, admission, and the background runs for new chain heads.
  `Accounts` says what each operation does to one sender and `Arrivals` what becomes of offered
  transactions, as functions; `Pool` shows that the loops over all senders and batches do
  exactly that, and what any sequence of operations keeps.
- `SortedMap`, `TxLists`, `PricedList`, `Heaps`: the lists behind it, with their heap index, cache
  and caps, and the two price heaps. `Admission` puts pool and price heaps together,
  `Discards` tells from the heaps what a full pool drops, and `PoolCases` has runs of such a
  pool that end badly.
- `ReorgSchedulers`: the loop that merges requests and launches the background runs.
  `Background` puts it together with the pool, and `ResetWalks` finds the transactions that a
  reset puts back and resets the pool with them.
- `Headers`, `HeaderChains`, `HashCaches`: header insertion, rewinding, and the two short cuts for
  finding ancestors.
- `BlockChains`: fork choice, reorganisation, the number index and the transaction lookup.
- `ChainIndexers`: section indexing while the chain moves under it.
- `Feeds`: event delivery on one shared array, with channels leaving and joining in the middle
  of it.
- `Gas`: buying, using and refunding gas, fees, and the gas pool of a block.
- `Rounds`, `Acks`: confirm points, rounds, sealing turns, and the acknowledgements of a block.
- `Reservoir`: the decaying sample reservoir with its heap in an array.
- `DerivationPaths`: printing and parsing wallet paths.

How things are represented: a transaction is identified by its content, and the hash of a
header is the header itself, so hashing has no collisions and parent links cannot form a
cycle. Databases are maps and batches are applied at once. Randomness, clocks, callbacks,
backends and the virtual machine are parameters or free choices. Concurrency is modelled by
steps: whatever holds a lock is one step, and steps interleave in any order. Integers are
unbounded unless the 64-bit or 32-bit limit is part of the behaviour.

## Where the code falls short of a property

Each has its exact condition and a concrete case.

- A header batch that wins can leave the number index wrong: when it extends the head and
  starts with a known header, or when all of it is known and its last header is not canonical
  (`HeaderChain.WriteHeaders`, `UncoveredBatch`).
- A single new block below the old head leaves the numbers above it in the index; the
  transaction lookup is exact all the same (`BlockChain.Reorg`, `UncoveredBlock`).
- The virtual nonce falls below the chain nonce exactly when a transaction put back at a new
  head makes the pool drop a pending one that this head has used up. Until the next head the
  sender then has nothing pending, whatever it queues (`Admission.RunBackground`, `Sunk`). It
  cannot happen while the slots in use and those put back are within capacity (`NoneSwamped`).
- A run for a new head does not promote a queued transaction right behind pending ones that
  reach past the new chain nonce. Where limits are reached this is so exactly if the pending
  ones are not cut and the queue not cut altogether (`Pool.TxPool.RunReorg`, `RunStrands`,
  `RunLeaves`, `Stranded`).
- Blocks are called confirm points that are not, for epochs of 65 to 127 blocks, and the
  first block is not for epochs of one block (`ConfirmPointsAgreeIff`, `ConfirmPointsDisagree`).
- A zero hash above the head counts as canonical for the ancestor lookup (`GetAncestor`,
  `ZeroHashAncestor`).
- The reservoir always takes the newcomer, even below everything it holds (`Update`,
  `LowerNewcomer`).
- An indexer that has given up its checkpoint does not verify the sections it indexes again
  below it (`Sections`, `Unverified`).
- Acknowledgements are never compared with the parent they are meant for: a quorum for
  other blocks does as well unless the digest of an agreeing one is the parent hash
  (`AnyBlockHash`, `SiblingAccepted`). There it is refused, although the message logged says
  that the hashes are not equal (core/blockchain.go:3312). The model follows the code.
- The comment on truncating the queue speaks of the oldest transactions, but the code starts
  with the senders heard of last (core/tx_pool.go:1416-1440). That is the same exactly if
  nothing or everything remote has to go, or all heartbeats are the same (`TruncateQueue`,
  `NewestDropped`).
- A remote transaction can take the pool over its capacity: one that left and came back before
  its old entry was found has two entries, and the slots of both are counted. The pool ends
  within capacity exactly if what leaves it, each counted once, takes the slots needed
  (`Admission.Add`, `Overfull`). Where one order decides among the listed transactions the
  heaps before tell which leave, and which of them twice (`CapacityFromStock`, `DroppedIff`).

## Model

| member | source | states |
|---|---|---|
| `Pool.TxPool.Run` | core/tx_pool.go:331-403 | over any sequence of submissions, price changes, evictions, promotions and head changes, every transaction is in exactly one list and in the table, and none of a local sender counts as remote; while no new head lowers a nonce, each sender's pending nonces are exactly those from its chain nonce up to its virtual nonce with the queue at or above it, and the virtual nonce is below the chain nonce exactly for the senders recorded at the last head change |
| `Pool.TxPool.Apply` | core/tx_pool.go:842-906 | each single operation keeps lists and table in agreement and takes settled senders to settled senders unless it lowers their nonce; only a head change moves a virtual nonce below the chain nonce or back, below it exactly for senders of whom a pending transaction used up by the new head is dropped for one put back |
| `Pool.TxPool.RunReorg` | core/tx_pool.go:1095-1145 | one background run with the answers of the heaps given: each sender is served and cut exactly as its duty, its queue limit and the common level of the cut senders say, this level no lower than the limits need; settled senders end settled and both global limits hold; a virtual nonce ends below the chain nonce exactly if it was before and the head stays, or if a used up pending transaction of the sender is dropped for one put back; nothing executable of any other sender that is served stays queued unless it is overlooked, and after a reset exactly then, if its pending ones are not cut and its queue not cut altogether |
| `Pool.TxPool.Reset` | core/tx_pool.go:1239-1254 | switching heads and putting transactions back leaves in the table and with each sender exactly what answering them one by one at the new head leaves, and records the senders whose virtual nonce sinks |
| `Pool.TxPool.PromoteExecutables` | core/tx_pool.go:1266-1327 | exactly which queued transactions of each sender become pending, stay queued or leave the pool |
| `Pool.TxPool.PromoteAccount` | core/tx_pool.go:1271-1325 | one sender's promotion: stale and unpayable ones leave, the run of ready nonces becomes pending, the rest is capped unless the sender is local |
| `Pool.TxPool.PromoteTx` | core/tx_pool.go:764-794 | a promoted transaction replaces the pending one of its nonce only if it outbids it; the loser leaves the table; the virtual nonce moves past it |
| `Pool.TxPool.PromoteDirty` | core/tx_pool.go:1095-1125 | after promoting a settled dirty sender whose virtual nonce is not below its chain nonce, none of its queued transactions is executable |
| `Pool.TxPool.DemoteUnexecutables` | core/tx_pool.go:1468-1519 | every sender's lists become exactly what re-checking them at the new head means |
| `Pool.TxPool.DemoteAccount` | core/tx_pool.go:1470-1517 | stale and unpayable pending transactions leave the pool, and those behind them or behind a front gap go back to the queue |
| `Pool.TxPool.TruncatePending` | core/tx_pool.go:1332-1414 | all remote senders end at one common level not below the guaranteed slots, local ones are untouched, the total is within the limit or the level is the guarantee, and cutting stops as soon as it may |
| `Pool.TxPool.Equalise` | core/tx_pool.go:1350-1386 | after each round all offenders are at equal length, until the limit holds or every spammer is an offender |
| `Pool.TxPool.CutOffenders` | core/tx_pool.go:1361-1385 | the loop over the offenders takes them to a common lower level, never below the threshold |
| `Pool.TxPool.TruncateQueue` | core/tx_pool.go:1417-1459 | the queue ends within its limit or with local senders only, loses only the highest nonces of a sender and no more than needed, and a remote sender loses something only once all remote senders with a later heartbeat have lost everything; it is the oldest heartbeat first exactly if the queue was within its limit, or everything remote has to go, or all remote senders with a queue have the same heartbeat |
| `Pool.TxPool.OldestFirstIff` | core/tx_pool.go:1416-1440 | cutting the latest heartbeat first is cutting the oldest first just where the order makes no difference, which is told by the queues, the limit and the heartbeats before |
| `PoolCases.NewestDropped` | core/tx_pool.go:1416-1440 | two remote senders with one queued transaction each, together one above the limit: that of the older heartbeat stays and the newer one is dropped, which is not the oldest first |
| `Pool.TxPool.ReduceQueue` | core/tx_pool.go:1436-1457 | a sender loses all its queued transactions or exactly the highest ones needed |
| `Pool.TxPool.AddTx` | core/tx_pool.go:619-706 | the answer to a submission, the table and every sender's lists afterwards, as functions of the pooled transactions, the pool's settings and the answer of the price heaps: the first error, or what is dropped and which rivals are replaced; nothing changes on an early error |
| `Pool.TxPool.Insert` | core/tx_pool.go:663-705 | filing a transaction replaces the pending or queued one of its nonce if and only if it outbids it |
| `Pool.TxPool.EnqueueTx` | core/tx_pool.go:711-746 | the queue and the table after queueing, with the replaced transaction gone from both |
| `Pool.TxPool.RemoveTx` | core/tx_pool.go:944-990 | the transaction leaves its list and the table, what followed it in pending is queued again and the virtual nonce falls to it |
| `Pool.TxPool.AddTxs` | core/tx_pool.go:894-906 | the answers to a batch, the table and every sender's lists are those of answering its transactions one by one, and the dirty senders are those with a transaction added that replaced none |
| `Arrivals.BatchKeeps` | core/tx_pool.go:894-906 | whatever is offered, dropped or replaced, a settled sender stays settled and a settling one settling |
| `Arrivals.BatchSinks` | core/tx_pool.go:894-906 | a batch makes a virtual nonce sink below the chain nonce exactly if it makes the pool drop a transaction of the sender that is pending below the chain nonce |
| `Arrivals.PutBack` | core/tx_pool.go:1246-1254 | a settled sender at a new head, after transactions are put back, is poised for promotion: still without a gap, and its virtual nonce at the chain nonce unless a used up pending transaction of it was dropped for one put back, and sunken if so |
| `Arrivals.WithinCapacity` | core/tx_pool.go:639-662 | where enough distinct pooled transactions are dropped for a newcomer the pool ends within capacity |
| `Arrivals.CapacityIff` | core/tx_pool.go:637-662 | the pool ends within capacity exactly if the transactions that leave it for a newcomer, each counted once, take the slots needed |
| `Arrivals.BatchFits` | core/tx_pool.go:637-662 | a batch whose slots fit beside those in use makes the pool drop nothing, whatever the heaps would answer |
| `Arrivals.LocalsAsideAll` | core/tx_pool.go:631 | a batch from the node itself is answered the same, leaves the same and drops the same, whoever is local |
| `Pool.TxPool.NoneSwamped` | core/tx_pool.go:1246-1254 | no virtual nonce sinks at a head if the slots in use and those of the transactions put back are within capacity |
| `Pool.TxPool.NoneSwampedByNone` | core/tx_pool.go:1246-1254 | nor if the transactions are put back without dropping others |
| `PoolCases.Sunk` | core/tx_pool.go:1246-1254 | a pool with its heaps, built by additions and a promotion: a new head uses up the first of two pending transactions and one of another sender is put back; the answer of the heaps is to drop the first as the cheapest, the virtual nonce ends below the chain nonce and the second, payable and next, in the queue |
| `ResetWalks.FindReinjected` | core/tx_pool.go:1177-1236 | the reset is given up exactly if the old head is gone and the new one not below it, or if the two chains do not meet before a block is missing; else the transactions put back are those of the old chain above the point where the chains part that the new one does not have above it, and none for heads too far apart or one on top of the other |
| `ResetWalks.NeverHopeless` | core/tx_pool.go:1208-1236 | where every stored block has its parent stored, a reset with its old head stored is not given up |
| `ResetWalks.ResetBetween` | core/tx_pool.go:1174-1254 | the walk and the pool together: nothing changes if the walk is given up or the state is missing; else the pool has the state of the new head, and each sender what offering the transactions of the walk one by one leaves, each with what the heaps have to answer as the one before it left them |
| `ResetWalks.LostAltogether` | core/tx_pool.go:1177-1236 | where no transaction is twice on the old chain, exactly those are put back that are on the old chain and not on the new one |
| `ResetWalks.TxDifference` | core/types/transaction.go:456-471 | the transactions of one list that are not in the other, in their order |
| `Pool.TxPool.SetGasPrice` | core/tx_pool.go:436-453 | a higher price floor drops exactly the remote transactions whose tip is below it |
| `Pool.TxPool.EvictExpired` | core/tx_pool.go:374-390 | exactly the queues of expired remote senders are emptied and nothing else changes |
| `Pool.TxPool.UpdateNonces` | core/tx_pool.go:1140-1144 | every sender with pending transactions gets the virtual nonce above its highest one |
| `Pool.TxPool.MarkLocal` | core/tx_pool.go:693-698 | a sender becomes local and no remote transaction of a local sender is left |
| `Accounts.PromotedSettling` | core/tx_pool.go:1266-1327 | promotion leaves no gap in pending |
| `Accounts.DemotedSettling` | core/tx_pool.go:1468-1519 | demotion leaves no gap in pending |
| `Accounts.WoundConcludes` | core/tx_pool.go:1140-1144 | a run that lost none of what an account about to be settled had ends, once the virtual nonces are set, with the account settled and on its side of the chain nonce |
| `Accounts.HeadChange` | core/tx_pool.go:1246-1249 | a head that lowers no nonce leaves pending without a gap above the chain nonce |
| `Accounts.RunSettles` | core/tx_pool.go:1095-1145 | serving a sender and ending the run settles it, keeps its virtual nonce on its side of the chain nonce and leaves nothing executable queued that is not overlooked |
| `Accounts.RecheckIdle` | core/tx_pool.go:1108-1136 | promoting from the chain nonce and re-checking leaves nothing executable queued unless it is overlooked, whatever the queue limit |
| `Accounts.RunStrands` | core/tx_pool.go:1108-1136 | without limits in the way, a sender keeps an executable transaction in its queue through a run for a head if and only if it is overlooked: promotion starts where a transaction is pending already, all pending ones stay payable, and a payable queued one continues them |
| `Accounts.RunLeaves` | core/tx_pool.go:1108-1144 | the same with limits: it keeps one exactly if it is overlooked, its pending transactions from the chain nonce on are not cut, and something is left in its queue |
| `Accounts.RanOnce` | core/tx_pool.go:1095-1145 | what a run makes of a sender is determined by what promotion finds, the terms of the run and how many queued transactions the cut of the queue spares |
| `PoolCases.Stranded` | core/tx_pool.go:1108-1136 | a pool whose head changes by a transaction of another sender while the second transaction of a sender is queued behind the first, payable and next: the run leaves both where they were |
| `Lookup.TxLookup.Add` | core/tx_pool.go:1717-1729 | the slot counter stays exact just when the transaction was not listed before |
| `Lookup.TxLookup.Remove` | core/tx_pool.go:1732-1749 | removal keeps locals and remotes disjoint and the slot counter exact, also for unknown transactions |
| `Lookup.TxLookup.RemoteToLocals` | core/tx_pool.go:1753-1766 | exactly the remote transactions of the given senders migrate, and slots and contents stay |
| `Lookup.TxLookup.RemotesBelowTip` | core/tx_pool.go:1769-1778 | the remote transactions with a tip below the threshold, each once |
| `Noncer.TxNoncer.Get` | core/tx_noncer.go:45-55 | reading caches the chain nonce without changing any account's nonce |
| `Noncer.TxNoncer.SetIfLower` | core/tx_noncer.go:68-79 | an account's nonce becomes the lower of the two and no other changes |
| `Noncer.TxNoncer.Set` | core/tx_noncer.go:59-64 | an account's nonce is overwritten and no other changes |
| `SortedMap.TxSortedMap.Put` | core/tx_list.go:73-79 | overwriting insertion keeps the heap index a permutation of the keys and drops the cache |
| `SortedMap.TxSortedMap.Forward` | core/tx_list.go:84-98 | everything below the threshold is removed and returned in nonce order, and a cache stays the sorted contents |
| `SortedMap.TxSortedMap.Filter` | core/tx_list.go:105-139 | exactly the rejected transactions go, each is reported once, and index and cache stay right |
| `SortedMap.TxSortedMap.Cap` | core/tx_list.go:143-164 | the lowest nonces stay, the others are returned highest first, index and cache cut with them |
| `SortedMap.TxSortedMap.Remove` | core/tx_list.go:168-185 | one nonce goes from map, index and cache, and it is reported whether it was there |
| `SortedMap.TxSortedMap.Ready` | core/tx_list.go:194-209 | the maximal run of consecutive nonces from the lowest is removed and returned, if that is at or below the start |
| `SortedMap.TxSortedMap.Flatten` | core/tx_list.go:216-237 | the cached or computed result is the contents in strictly increasing nonce order |
| `SortedMap.TxSortedMap.LastElement` | core/tx_list.go:241-244 | the transaction of the highest nonce |
| `SortedMap.SortedIndexIsFlat` | core/tx_list.go:216-226 | a sorted permutation of the keys lists the contents in strictly increasing nonce order, each once |
| `SortedMap.FlatUnique` | core/tx_list.go:216-226 | there is only one nonce order of given contents, so cached and recomputed ones agree |
| `TxLists.TxList.Add` | core/tx_list.go:279-312 | a replacement needs both fee cap and tip above the old ones and at least the bump; the caps still bound the contents |
| `TxLists.TxList.Filter` | core/tx_list.go:330-359 | the caps short cut removes exactly what a full scan would; a strict list keeps the payable nonces below the lowest unpayable one, and both removed groups are reported |
| `TxLists.TxList.Remove` | core/tx_list.go:370-381 | a strict list loses and reports everything above the removed nonce |
| `TxLists.NothingAbove` | core/tx_list.go:331-334 | caps within the limits mean that nothing is above them, so nothing need be scanned |
| `TxLists.PrefixBelow` | core/tx_list.go:346-356 | cutting above the lowest unpayable nonce leaves exactly the payable front part |
| `PricedList.TxPricedList.Discard` | core/tx_list.go:557-593 | ends, keeps every entry of a pooled transaction in the heaps or the result, fails exactly if not forced and short of slots and then loses none, drops no more than needed and the cheapest, in that order: nothing still urgent is cheaper than what left the urgent heap, nothing that floated before cheaper than what is dropped, nothing that floats now cheaper in both orders than a dropped one that was urgent; no transaction twice if none is listed twice |
| `PricedList.TxPricedList.TakeCheapest` | core/tx_list.go:559-584 | the popping loop: conserved live entries, one stale count off per stale entry, the same choice of the cheapest, as few as take the slots, and all if there are not enough |
| `PricedList.TxPricedList.Reheap` | core/tx_list.go:596-618 | both heaps are valid, hold each remote transaction once, and the floating one the cheapest fifth in urgent order |
| `PricedList.TxPricedList.Underpriced` | core/tx_list.go:523-551 | true if and only if some pooled transaction is listed and none of them, in either heap, is cheaper; stale entries do not matter |
| `PricedList.TxPricedList.Removed` | core/tx_list.go:511-519 | the stale count grows, and exactly above a quarter the heaps are rebuilt: each remote transaction once, the cheapest fifth floating |
| `PricedList.TxPricedList.SetBaseFee` | core/tx_list.go:622-625 | the heaps are rebuilt for the new base fee |
| `PricedList.TxPricedList.Put` | core/tx_list.go:500-506 | a remote transaction gets one urgent entry, a local one none |
| `PricedList.BeforeIsOrder` | core/tx_list.go:429-453 | the price comparison with its tie on nonces is a strict weak order |
| `PricedList.ConservedSlots` | core/tx_list.go:557-593 | what is dropped and what is left have the slots of what was listed |
| `Admission.Add` | core/tx_pool.go:619-706 | pool and heaps together: the answer, the table and each sender are those of an offer with the room that the heaps, asked exactly for an otherwise valid transaction in a full pool, have to answer; the heaps then list what they left and the newcomer; every remote transaction stays listed and no local sender loses one; the pool ends within capacity exactly if those that leave, each counted once, take the slots needed, which holds if no transaction is listed twice, unless a local one is taken that all remote ones cannot make room for |
| `Discards.DroppedIff` | core/tx_list.go:557-593 | where one order decides among the listed, more than k entries of a transaction are dropped exactly if the entries before it and k of its own do not free the slots needed; for k one, both entries of a transaction listed twice |
| `Discards.CapacityFromStock` | core/tx_pool.go:637-662 | then whether the pool ends within capacity is decided by the heaps before the call: exactly if the transactions that have to go, each counted once, and the one replaced take the slots needed |
| `PoolCases.Overfull` | core/tx_pool.go:637-662 | a remote transaction taken into a full pool that ends over capacity: one that left and came back is listed twice, and the answer of the heaps is to drop both entries for the slots of one |
| `Admission.FindRoom` | core/tx_pool.go:637-662 | the answer of the heaps to a full pool: underpriced exactly if remote while something is listed and nothing of it pays less, room exactly if local or enough is listed, and then as few as take the slots, or all: no entry that stays and was not urgent is cheaper by fee cap than a dropped one, none that stays is cheaper in both orders than a dropped one that did not float, and the same between those dropped earlier and later; what the heaps still list |
| `Admission.Run` | core/tx_pool.go:331-453 | over any sequence of submissions, price changes, evictions, head changes with transactions put back, stale counts and rebuilds, every remote transaction of the pool is listed in the heaps and can be evicted, and none is of a local sender |
| `Admission.RunBackground` | core/tx_pool.go:1095-1145 | a background run whose reinjected transactions go through the heaps: each is told what the heaps have to answer as the one before it left them, and with these answers everyone ends as a run of the pool makes them end; every remote transaction stays listed and both limits hold |
| `Admission.AddAll` | core/tx_pool.go:842-906 | a batch through the heaps: the table and each sender are those of offering it one by one, each transaction with what the heaps have to answer as the one before it left them, from the heaps at the start to those at the end |
| `Heaps.UpHeap` | metrics/sample.go:583-592 | sifting a too small element up restores a heap of the same elements |
| `Heaps.DownHeap` | metrics/sample.go:594-610 | sifting a too large element down restores a heap of the same elements |
| `Heaps.TopIsLeast` | metrics/sample.go:564-573 | nothing in a heap is below its first element |
| `Reservoir.SampleHeap.Push` | metrics/sample.go:557-562 | the sample joins in place and the heap stays ordered |
| `Reservoir.SampleHeap.Pop` | metrics/sample.go:564-573 | a sample of lowest priority leaves and the heap stays ordered |
| `Reservoir.SampleHeap.SiftUp` | metrics/sample.go:583-592 | the loop on the array does what sifting up means and leaves the rest of the array alone |
| `Reservoir.SampleHeap.SiftDown` | metrics/sample.go:594-610 | the loop on the array does what sifting down means and leaves the rest of the array alone |
| `Reservoir.SampleHeap.Rescale` | metrics/sample.go:175-185 | pushing into the array that is being read loses and duplicates no sample: each ends scaled in its old place |
| `Reservoir.PushInPlace` | metrics/sample.go:175-185 | pushing the next sample of a scaled heap moves nothing |
| `Reservoir.ExpDecaySample.Update` | metrics/sample.go:164-186 | a full reservoir drops a sample of lowest priority for the newcomer; it holds the highest priorities exactly if the newcomer is not below the dropped one; a draw of zero makes the priority infinite |
| `Reservoir.LowerNewcomer` | metrics/sample.go:164-174 | a full reservoir that drops a sample for one of lower priority |
| `Reservoir.ExpDecaySample.UpdateAll` | metrics/sample.go:164-186 | over any run of updates the reservoir is an ordered heap within its size |
| `Reservoir.KeptMembers` | metrics/sample.go:167-174 | when the samples kept are the highest ones |
| `HeaderChains.HeaderChain.WriteHeaders` | core/headerchain.go:149-301 | stored headers stay closed under parents with totals equal to the sum of difficulties; which batch wins; and the number index stays the gapless ancestor chain of the head if and only if the batch loses or is covered |
| `HeaderChains.Sift` | core/headerchain.go:167-200 | the new headers are exactly those from the first unknown one on, with their totals |
| `HeaderChains.HeaderChain.NewIndex` | core/headerchain.go:236-276 | the rewritten index is the chain of the last header if and only if the whole batch gets assigned |
| `HeaderChains.HeaderChain.WalkBack` | core/headerchain.go:248-262 | walking back to the first canonical ancestor makes the index right up to the start |
| `HeaderChains.HeaderChain.SetHead` | core/headerchain.go:563-640 | the head moves to an ancestor at the lowest of the target and the reported floors, all levels above are wiped on all forks, and all invariants stay |
| `HeaderChains.HeaderChain.Leftovers` | core/headerchain.go:605-611 | counting up to the first empty level finds every stored header above |
| `HeaderChains.HeaderChain.Run` | core/headerchain.go:149-301 | any run of insertions and rewinds keeps headers, totals and index right as long as winning batches are covered |
| `HeaderChains.UncoveredBatch` | core/headerchain.go:232-285 | a concrete batch of a known header that moves the head but not the index |
| `HeaderChains.HeaderChain.GetAncestor` | core/headerchain.go:425-457 | the jump along the index gives what following parent links gives, or the zero hash exactly when the canonical chain is not met within the allowed steps; how many steps are used up |
| `HeaderChains.ZeroHashAncestor` | core/headerchain.go:437-442 | a zero hash above the head for which the lookup jumps to a canonical header although parent links lead nowhere |
| `HeaderChains.HeaderChain.CanonicalWalk` | core/headerchain.go:437-442 | from a canonical header on, the index is what parent links lead to |
| `HashCaches.HashCache.Get` | core/evm.go:85-116 | whatever was asked before, the answer is the hash that parent links lead to, or zero where headers run out or the number is not below the origin |
| `HashCaches.HashCache.GetAll` | core/evm.go:85-116 | any sequence of queries is answered like single ones |
| `HashCaches.HashOfAncestor` | core/evm.go:85-116 | with all headers stored the answer is the ancestor |
| `BlockChains.BlockChain.Reorg` | core/blockchain.go:2391-2535 | after it, and the new head written, the transaction lookup has exactly the transactions of the new chain with their numbers, and the index is that chain if and only if the block is covered |
| `BlockChains.BlockChain.SwapBranches` | core/blockchain.go:2507-2533 | the index with the new branch written and everything above the head gone, and the lookup with the new branch written and what only the old one had gone |
| `BlockChains.BlockChain.SetCanonical` | core/blockchain.go:1846-1860 | reorganising if needed and writing the head: lookup always exact, index exact if and only if covered |
| `BlockChains.BlockChain.Insert` | core/blockchain.go:1831-1860 | the fork choice, and what it does to blocks, head, index and lookup |
| `BlockChains.BlockChain.Run` | core/blockchain.go:1831-1860 | any run of insertions keeps index and lookup exact as long as winning blocks are covered |
| `BlockChains.FindFork` | core/blockchain.go:2446-2489 | the common ancestor is the highest one, with both branches above it; it is found exactly if the two chains meet before a block is missing, and the error names a chain that lacks one |
| `BlockChains.BlockChain.WriteBranch` | core/blockchain.go:2507-2517 | the new branch is assigned from the bottom up to below its head |
| `BlockChains.BlockChain.WriteHeadBlock` | core/blockchain.go:1043-1070 | number, transactions and head markers of a new head |
| `BlockChains.BlockChain.ClearAbove` | core/blockchain.go:2525-2533 | everything above the current head leaves the index |
| `BlockChains.LookedAfter` | core/blockchain.go:2519-2524 | deleting what only the old branch had and rewriting the new one turns one exact lookup into the other |
| `BlockChains.ExactAfter` | core/blockchain.go:2507-2533 | the rewritten index is exact if and only if at least two blocks were added or the old head is not above the new one |
| `BlockChains.UncoveredBlock` | core/blockchain.go:2507-2535 | a concrete heavy block below the old head that leaves a stale number in the index |
| `ChainIndexers.ChainIndexer.Run` | core/chain_indexer.go:243-382 | in every interleaving of chain moves, notices, queries, backend failures and section processing each stored section head is one section of parent links above the one before |
| `ChainIndexers.ChainIndexer.AllCanonical` | core/chain_indexer.go:422-429 | one comparison of the last section head settles that all section heads are on the canonical chain |
| `ChainIndexers.ChainIndexer.Sections` | core/chain_indexer.go:434-440 | after the verification all section heads from the base on are canonical if and only if there are more sections than below the checkpoint, or none, or the head returned is canonical; below the checkpoint nothing is verified |
| `ChainIndexers.Unverified` | core/chain_indexer.go:422-440 | an indexer that has given up its checkpoint, indexed sections below it again and returns the head of one that the chain has left |
| `ChainIndexers.UndisturbedStands` | core/chain_indexer.go:388-417 | a section comes through if the chain stays as it is and the backend takes it |
| `ChainIndexers.ChainIndexer.VerifyLastHead` | core/chain_indexer.go:422-429 | drops exactly the last sections whose heads are not canonical, not below the checkpoint |
| `ChainIndexers.ChainIndexer.NewHead` | core/chain_indexer.go:243-300 | known and stored sections after a notice, with the checkpoint as the limit |
| `ChainIndexers.ChainIndexer.Begin` | core/chain_indexer.go:317-337 | the section taken up is the one after the verified ones |
| `ChainIndexers.ChainIndexer.Refuse` | core/chain_indexer.go:391-395 | a failed reset throws the whole index away |
| `ChainIndexers.ChainIndexer.ProcessSection` | core/chain_indexer.go:388-417 | succeeds if and only if every header read continues the one before and the backend takes them; the result is one section of links above the start |
| `ChainIndexers.ChainIndexer.Finish` | core/chain_indexer.go:338-368 | a section is stored if and only if it came through and the one before it still stands |
| `ChainIndexers.ChainIndexer.SetValidSections` | core/chain_indexer.go:479-491 | the section heads from the new count on are removed |
| `ChainIndexers.LinksUpAncestor` | core/chain_indexer.go:388-417 | following links up from a canonical header stays canonical |
| `ReorgSchedulers.Scheduler.Run` | core/tx_pool.go:1025-1092 | at most one run is active, and a channel closed before shutdown was closed by a run that covers every request waiting for it |
| `Background.FinishActive` | core/tx_pool.go:1025-1145 | when the channel of a run closes, nothing executable is queued of a sender whose promotion was asked for by someone waiting for that channel, provided that the sender was settled, its virtual nonce is not below the chain nonce and, in a run that resets the pool, it is not overlooked |
| `ReorgSchedulers.Scheduler.OnReset` | core/tx_pool.go:1051-1059 | a reset is merged into the next run, whose channel is not closed yet |
| `ReorgSchedulers.Scheduler.OnPromote` | core/tx_pool.go:1061-1069 | dirty accounts are merged into the next run |
| `ReorgSchedulers.Scheduler.Launch` | core/tx_pool.go:1037-1048 | a due run starts exactly when none is active, with all pending requests; an idle loop owes no run |
| `ReorgSchedulers.Scheduler.OnShutdown` | core/tx_pool.go:1083-1089 | after shutdown no run is active and every requester is released |
| `ReorgSchedulers.MergedResets` | core/tx_pool.go:1051-1059 | merged resets go from the old head of the first to the new head of the last |
| `ReorgSchedulers.MergedOnly` | core/tx_pool.go:1051-1069 | a merged job has nothing that was not requested |
| `ReorgSchedulers.MergedCovers` | core/tx_pool.go:1051-1069 | a merged job covers each of its requests |
| `Feeds.Feed.Send` | event/feed.go:128-190 | each channel subscribed at the start and not removed is served exactly once, a removed one at most once, the count is the number of deliveries, and it ends; channels that join in the middle of it are not served and stay subscribed unless they leave |
| `Feeds.Feed.Select` | event/feed.go:169-181 | one select step serves an active channel or removes a subscribed one, and the subscribed and active cases together shrink |
| `Feeds.Feed.FastPath` | event/feed.go:155-165 | non-blocking deliveries keep the split into an active front and a served rest |
| `Feeds.Feed.Delete` | event/feed.go:223-225 | closing the gap in the shared array |
| `Feeds.Feed.Deactivate` | event/feed.go:228-232 | swapping a served case behind the active ones |
| `Feeds.Feed.Remove` | event/feed.go:103-124 | unsubscribing takes one entry of the channel out of the inbox or else of the cases |
| `Feeds.Feed.Subscribe` | event/feed.go:72-92 | a new channel waits in the inbox and does not join the cases of a value being sent |
| `Feeds.SplitServed` | event/feed.go:228-232 | serving keeps the split |
| `Feeds.SplitRemoved` | event/feed.go:171-177 | removing keeps the split, and shrinks the active front exactly if the case was in it |
| `Feeds.FindFirst` | event/feed.go:213-220 | the first place of a case or its absence |
| `Gas.Process` | core/state_processor.go:61-123 | after every transaction gas pool and used gas make up the limit, receipts add up, and with a conserving machine the balances lose exactly the used gas times the base fee |
| `Gas.StateTransition.TransitionDb` | core/state_transition.go:262-330 | which error a message meets first, the gas it uses after the capped refund, and the exact balances: what is gone beside the work of the machine is used gas times base fee |
| `Gas.StateTransition.BuyGas` | core/state_transition.go:189-208 | the balance must cover the fee cap, so the debit never exceeds it; nothing changes on an error |
| `Gas.StateTransition.PreCheck` | core/state_transition.go:210-247 | nonce and fee errors in order, then the purchase |
| `Gas.StateTransition.RefundGas` | core/state_transition.go:332-347 | the refund is capped by the quotient, gas and money return, and the pool never overflows |
| `Gas.IntrinsicGas` | core/state_transition.go:115-153 | an error exactly if the data cost exceeds 64 bits, otherwise the cost, with the access list added in 64-bit arithmetic |
| `Gas.PriceSplits` | core/types/transaction.go:618-638 | the effective price is the tip of the block producer and the base fee |
| `Gas.GasPool.AddGas` | core/gaspool.go:29-35 | fails exactly on overflow of 64 bits |
| `Gas.GasPool.SubGas` | core/gaspool.go:39-45 | fails exactly if there is too little gas |
| `Rounds.RoundOfLastPoint` | common/types.go:684-715 | the round of a block's last confirm point is the number of epochs before the block |
| `Rounds.ConfirmPointsAgreeIff` | common/types.go:697-731 | a block is called a confirm point exactly when it is its own current confirm point, for all blocks, if and only if the epoch has 2 to 64 or at least 128 blocks |
| `Rounds.ConfirmPointsDisagree` | common/types.go:697-731 | for every other epoch length a block on which the two disagree |
| `Rounds.SealedInRound` | core/blockchain.go:2824-2831 | of the blocks of a round each validator seals the epoch length divided by their number, rounded down, or one more for the first ones |
| `Rounds.Validators.Get` | core/blockchain.go:2767-2793 | cached or not, the validators of a block are those elected last up to the round of its last confirm point |
| `Acks.CheckAcks` | core/blockchain.go:3289-3372 | accepts a block if and only if its acknowledgements, digest, count list, producer and quorum are in order |
| `Acks.CountAcks` | core/blockchain.go:3301-3322 | accepts exactly legal acknowledgements by distinct validators and counts both kinds |
| `Acks.CheckIsValidator` | core/blockchain.go:2848-2856 | membership in the list of validators |
| `Acks.CheckAckNumMin` | core/blockchain.go:3375-3381 | in spite of the rounded division the acknowledgements must be strictly more than a third of the validators, if there are several |
| `Acks.Quorum` | core/blockchain.go:3289-3381 | with several validators, more than a third of them distinct have given the wanted kind, the header says how many, and none the other kind |
| `Acks.AnyBlockHash` | core/blockchain.go:3289-3372 | a block accepted with some acknowledgements is accepted with the same ones for any other blocks exactly if no digest of an agreeing one is the parent hash |
| `Acks.SiblingAccepted` | core/blockchain.go:3289-3372 | with digests free of collisions, a block that is accepted with the agreement of two of three validators to a sibling of its parent |
| `DerivationPaths.RoundTrip` | accounts/hd.go:68-136 | parsing a printed path of 32-bit components returns it, hardened marks included |
| `DerivationPaths.Stable` | accounts/hd.go:68-136 | whatever parses is unchanged by printing and parsing again |
| `DerivationPaths.ParseDerivationPath` | accounts/hd.go:68-118 | the loop gives the path of the pieces or the first error |
| `DerivationPaths.PrintDerivationPath` | accounts/hd.go:122-136 | the loop gives the printed form |
| `DerivationPaths.ComponentRoundTrip` | accounts/hd.go:92-136 | a printed component is parsed back |
| `HeaderChains.ExactPiled` | core/headerchain.go:272-276 | on top of the head the index is right if and only if no known header comes first |
| `HeaderChains.HeaderChain.KnownExact` | core/headerchain.go:240-270 | where nothing is new the index is right if and only if the batch was canonical before |
| `BlockChains.CoveredIff` | core/blockchain.go:2446-2533 | at least two blocks are added exactly when the parent of the new head is not canonical |

## Left out

- Pool: the lists are held by value, so that aliasing between pool and lists is not captured; the list classes are proved on their own against the same functions
- Pool.TxPool.Run: lifetimes are reduced to a set of expired senders, and the order of senders in a loop is arbitrary where the code leaves it to its maps
- Pool.TxPool.RunReorg: the answers of the heaps are given here; `Admission.RunBackground` has the heaps themselves. How many queued transactions the cut of the queue spares each sender is told by `TruncateQueue` only
- Discards.CapacityFromStock: not for heaps in which the base fee reverses the order of fee caps, a floating entry is dearer than an urgent one, or two transactions stand at the same place; there the shape of the heaps decides
- Pool.TxPool.TruncateQueue: the heartbeats are given; how submissions and promotions renew them is not modelled
- Pool.TxPool.AddTx: the checks on the sender, on size, type and business rules, and on intrinsic gas are three flags, in their places among the others
- Pool.TxPool.Reset: the state of the new head is given, and the transactions to put back are found by a walk proved apart
- ResetWalks.ResetBetween: the case without a new head, which only tests use, is not modelled; the new head must be stored where the old one is
- Pool.TxPool.PromoteTx: the addition of one to a nonce does not wrap at 64 bits
- Admission.Add: does not count stale entries itself; in a run they may be counted, and the heaps rebuilt, after any step but not in the middle of an addition
- PricedList.TxPricedList.Removed: that the stale count is the number of stale entries is not claimed; removed local transactions are counted too
- HeaderChains.HeaderChain.WriteHeaders: the caches are taken to be transparent; headers of an aborted batch that stay in them are not modelled
- HeaderChains.HeaderChain.SetHead: the freezer and the deletion of block bodies are not modelled
- BlockChains.BlockChain.Reorg: logs and events are not modelled, and no transaction may be on one chain twice, as account nonces guarantee
- ChainIndexers.ChainIndexer.Run: child indexers are not modelled and no checkpoint is added later on
- ReorgSchedulers.Scheduler.Run: queued events are one list, not sorted by sender and nonce
- Feeds.Feed.Send: the types of channels are not modelled
- Gas.Process: hard-fork state changes, block rewards and the disabling of base fees for calls are not modelled
- Acks.CheckAcks: signature recovery and the digest are parameters; the parent must be stored
- Reservoir.ExpDecaySample.Update: floating point is real arithmetic, with an infinite priority for a draw of zero
- DerivationPaths.Parse: strings are sequences of Unicode characters, with no invalid encodings
- journalling, statistics, subscriptions, metrics other than the reservoir, the miner, the console and the network layers: only easy members
- core/tx_validate.go beyond nonce, balance, gas limit and fees: most of what it reads is not part of this model
