# A verified model of chain selection, peer bookkeeping and notifications

This project models, in Dafny, the state machines at the heart of a Bitcoin full node, and proves what
they keep over all runs:

* the block tree and the best chain: skip pointers, past median time, chain views, connecting and
  disconnecting blocks against the set of unspent outputs and the spend journal, reorganization,
  invalidating and reconsidering blocks, dropping stale side-chain bodies, and the hot and cold tier of
  block storage with its witness buffer (`BlockNodes`, `SkipHops`, `MedianTime`, `ChainView`,
  `BlockTree`, `Utxo`, `Ledger`, `Outputs`, `ChainSpec`, `Selection`, `BlockChain`, `Trials`,
  `Invalidate`, `Reconsider`, `WorkLaw`, `Operations`, `Scenarios`, `WitnessTier`);
* the orphan pool, the answers to getblocks requests and the interval lookup (`OrphanPool`, `Locate`);
* the address manager with its two tables of buckets, and its file (`AddrTables`, `AddrManager`,
  `AddrFile`);
* the cache behind getcfcheckpt, and the tables of connected peers under their lifecycle goroutines
  (`CheckpointCache`, `Peers`);
* the two queueing loops and the registrations of the websocket server (`Queues`, `Registrations`).

Objects that the program updates in place are classes; each method is specified by a function of the
old state, and the laws are lemmas about those functions or invariants (`Valid`) that every method
keeps. Walks over Go maps are loops that pick any element. Goroutines are steps of a machine, and a run
is any sequence of enabled steps. Clocks, random draws, database failures and checks that depend on code
outside the model are parameters.

## How the parts are read

* A block node is a value: genesis, or a header on top of a parent with a skip pointer. Height and
  cumulative work are derived from the branch. Hashes are numbers, and a hash stands for one header and
  one parent (`Commits`, `AllCommit`, `World`).
* `BlockChain.Valid` says that the index is one tree, both chain views are branches of it, the best
  chain is stored, blocks marked valid can be replayed, and that unspent outputs, spend journal and
  snapshot are the replay (`LedgerOf`) of the best chain. Consensus checks beyond spending and BIP 30
  are an arbitrary predicate of the block and the unspent outputs.
* `AddrTables.Inv` is the agreement of index, buckets, reference counts and counters.
* The values of map comprehensions are functions with a precondition (`FlaggedAt`, `EntryOf`, ...), so that no
  proof rests on what a map is outside its domain.

## Where the source and its comments part

* blockchain/blockindex.go:187-189 gives 330 steps as the bound from height 2^29. It is exact for that
  height (`SkipHops.FromPowerOfTwo`), and `SkipHops.LowerButFarther` shows a lower height that needs 356.
* blockchain/chain.go:848-851 says that a failed index rewrite leaves witness-relative indexes intact.
  The index manager stops at the first failing index, and what was written before stays in the
  transaction (`WitnessTier.TornRewriteExample`); `WitnessTier.AgreementKept` gives the exact condition.
* A block whose header was invalidated by hand extends the tip all the same when its body arrives, since
  blockchain/accept.go:31 looks at the parent only. `Scenarios.MarkedTip` is such a run, and
  `Selection.StillClean` says that no other arrival marks an unmarked best chain.
* Unwinding in InvalidateBlock skips blocks that are known to be invalid already, so the detach list has
  a gap and the reorganization fails (blockchain/chain.go:2157-2177). `Invalidate.Unwind` gives the exact
  condition and where the chain is left, and `Scenarios.InvalidateFails` is a run that gets there.
* When no tip is left that is not known to be invalid, blockchain/chain.go:2215 passes a nil tip to
  getReorganizeNodes, which reads its parent at line 524. The model has the error `NoTip` there.
  `Invalidate.NoTipExactly` gives the exact condition before the call, and `Scenarios.NoTipLeft` is a run
  that gets there.
* blockchain/chain.go:1326-1328 says that the result of connectBestChain tells whether the block ended up
  on the main chain. For a heavier branch that is known to be invalid the lists are empty, reorganizing
  nothing succeeds, and the result is true. `ConnectBestChain` has the exact condition
  (`Selection.FalseMain`), and `Scenarios.ReportedMain` is a run that gets there.
* Only the block that arrives is compared with the tip, not what is stored above it. With dropped bodies
  that breaks the law of most work, exactly in the case `Selection.Overtaken`; `Scenarios.DeliveredAgain`
  is a run that gets there, and `BlockChain.Run` proves the law for all runs that deliver no body twice.
* blockchain/chain.go:2187-2189 says that after an invalidation a side branch becomes the best chain if it
  has more work. A tip of equal work is enough, since the current tip comes last in the list:
  `Invalidate.StaysExactly` gives the exact condition before the call, and `Scenarios.TieMoves` is a run
  that gets there. And a side branch with more work can be left behind, since only tips are looked at:
  `WorkLaw.InvalidationLaw` gives the exact condition, and `Scenarios.HeavierLeft` is a run that gets
  there. Reconsidering tries one tip only: `WorkLaw.ReconsiderationLaw` and `Scenarios.NotRestored`.
* blockchain/chain.go:301-303 says that the number of orphans is limited. The orphan cached for eviction may
  have left the pool, and then nothing is evicted and the pool ends one over the limit
  (blockchain/chain.go:320-324). `OrphanPool.Pool.AddOrphanBlock` gives the exact condition, the invariant
  bounds the excess by one, and `OrphanPool.Overfilled` is a run that gets there.
* addrmgr/addrmanager.go:115-117 gives 64 as the maximum size of a new bucket. The comparison at line 229 lets
  65 in: `AddrManager.OverSize` gives the exact condition, `AddrManager.Overfull` is a run that gets there, and
  the invariant keeps every bucket at 65 or less.
* addrmgr/addrmanager.go:242-243 says that an expiry takes the oldest address if there are no bad ones. It
  takes one of the oldest in any case: `AddrManager.TakesGood` and the run `AddrManager.GoodExpired`.

## Model

| member | source | states |
|---|---|---|
| BlockNodes.Ancestor | blockchain/blockindex.go:205-229 | The walk over skip pointers ends at the very node that stepping from parent to parent reaches, for every height in range, and at nothing for heights out of range; it takes exactly `Hops` steps. |
| BlockNodes.NewBlockNode | blockchain/blockindex.go:119-135 | A new node has the height and the work of its parent, plus one and plus its own work, and keeps every skip pointer of its branch equal to the true ancestor at the skip height. |
| BlockNodes.WorkIsSum | blockchain/blockindex.go:122-132 | The cumulative work of a node is the sum of the work of every block from genesis to it. |
| BlockNodes.WorkAbove | blockchain/blockindex.go:122-132 | Above an ancestor it is the work of that ancestor plus the sum of the works of the blocks above. |
| BlockNodes.IsAncestor | blockchain/blockindex.go:286-305 | True exactly for strict ancestors. |
| SkipHops.InvertIsAnd | blockchain/blockindex.go:180-182 | Clearing the lowest one bit is the bitwise and of n and n-1. |
| SkipHops.FromPowerOfTwo | blockchain/blockindex.go:185-190 | From height 2^k every walk to a height above 0 takes at most `WorstPow(k)` steps, the walk to height 1 takes exactly that many; for k = 29 the bound is 330, as the comment in the source says. |
| SkipHops.WorstClosed | blockchain/blockindex.go:185-190 | Closed form of that bound: it is quadratic in k. |
| SkipHops.LowerButFarther | blockchain/blockindex.go:185-190 | The bound for 2^29 is not a bound for all lower heights: one height below 2^29 needs 356 steps. |
| SkipHops.FromAny | blockchain/blockindex.go:205-229 | A bound for every start and every target below 2^L. |
| SkipHops.HopsQuadratic | blockchain/blockindex.go:205-229 | Between any two heights below 2^L the walk takes at most 3L(L+4)/8 steps. |
| MedianTime.CalcPastMedianTime | blockchain/blockindex.go:320-353 | The loop over parents with its fixed-size buffer computes the element at half the length of the sorted window, also for the short windows near genesis. |
| MedianTime.SortLaws | blockchain/blockindex.go:338-345 | The sort yields a sorted permutation. |
| MedianTime.WindowAt | blockchain/blockindex.go:325-335 | The window holds the timestamps of the block and of its nearest ancestors, up to the window size. |
| MedianTime.MedianSplits | blockchain/blockindex.go:338-353 | The median by counting, without the sort: at most half of the timestamps are below it and more than half are not above it, so of an even number it is the upper middle one. |
| MedianTime.MedianMonotone | blockchain/blockindex.go:316-353 | If every block is later than the past median time of its parent, past median time never decreases along a branch, for any window size (BIP 113). |
| MedianTime.LaterThanEveryMedian | blockchain/blockindex.go:316-353 | Under the same rule a block is later than the past median time of each of its ancestors. |
| ChainView.SetTip | blockchain/chainview.go:116-148 | Rewriting entries downwards until one is already right leaves exactly the branch of the new tip, from any earlier view. |
| ChainView.FindFork | blockchain/chainview.go:292-322 | The result is the highest node common to the branch and the view, and nothing exactly when they have different roots. |
| ChainView.ContainsIsBranch | blockchain/chainview.go:227-229 | A view contains a node exactly when the node is an ancestor of its tip. |
| ChainView.NextIs | blockchain/chainview.go:250-256 | The node after a node is its one child in the view; a node off the view has none. |
| BlockTree.InactiveTips | blockchain/blockindex.go:466-499 | Exactly the childless nodes off the best chain. |
| BlockTree.TipAbove | blockchain/blockindex.go:466-499 | Above every node off the best chain there is an inactive tip. |
| Utxo.UndoBlock | blockchain/utxoviewpoint.go:358-578 | Disconnecting a block with the journal of its own connection restores the unspent outputs if and only if no output the block created was unspent already; otherwise exactly those outputs are missing. |
| Utxo.NothingLost | blockchain/utxoviewpoint.go:450-578 | Under the rule of BIP 30 nothing is lost, so undoing is exact. |
| Outputs.LedgerHolds | blockchain/utxoviewpoint.go:289-418 | The unspent outputs of a replay, against an independent reading of the branch as one list of transactions: exactly the spendable outputs that some transaction creates and no later one spends, each with the amount, script, height and coinbase flag of the output created. |
| Outputs.LedgerJournalNames | blockchain/utxoviewpoint.go:358-418 | Entry by entry, the spend journal of a block records the output that the input at that position names, as it was created in the block or before it. |
| Outputs.HistoryBlock | blockchain/utxoviewpoint.go:406-418 | Every transaction of that list is one of a block of the branch above genesis, at that block's height, and is its coinbase exactly when marked so. |
| Outputs.BlockConnectsExactly | blockchain/validate.go:1159-1290 | A block connects, with distinct transactions and no overwrite, if and only if its transaction ids differ, it creates nothing that is still unspent, and every input names, only once, an output created before that no transaction spent since. |
| Outputs.ReplaysExactly | blockchain/chain.go:1281-1318 | A branch can be replayed if and only if every block of it fits in that sense and passes the rules on the unspent outputs before it. |
| Ledger.LedgerFields | blockchain/chain.go:581-737 | Replaying a branch gives the snapshot of its last block, the sum of its transaction counts, and a journal record for exactly its non-genesis blocks, with one entry per spent output. |
| Ledger.TotalIsSum | blockchain/chain.go:612-624 | The total is the sum of the lengths of all blocks of the branch, each its coinbase and its other transactions. |
| Ledger.LedgerUndo | blockchain/chain.go:898-1025 | Undoing the last block of a replay, with its own journal record, gives the replay of its parent. |
| Ledger.LedgerJournal | blockchain/chain.go:1118-1121 | The journal record of a block does not change while blocks are connected above it. |
| BlockChain.BlockChain.constructor | blockchain/chain.go:2533-2642 | A chain of genesis alone satisfies the invariant: the ledger is the replay of the best chain. |
| BlockChain.BlockChain.ConnectBlock | blockchain/chain.go:581-737 | Succeeds exactly when the block extends the tip and one journal entry is given per spent output, and fails without effect otherwise; then, if its transactions were connected before the call, the state is the replay of the longer chain. Nothing is dropped without a witness buffer, at or below its height, or at a height that is no multiple of the retarget interval; otherwise exactly the stale bodies are gone. |
| BlockChain.BlockChain.ConnectChecked | blockchain/chain.go:1110-1135 | A block that passes its checks on top of the tip: connecting its transactions gives the number of entries that connecting the block asks for, so that it always succeeds, and the state is the replay of the longer chain, whose outputs and journal entries `Outputs` fixes. |
| BlockChain.BlockChain.CommitConnect | blockchain/chain.go:617-705 | The committed state is the replay up to the block, and exactly the stale bodies are gone. |
| BlockChain.BlockChain.DisconnectBlock | blockchain/chain.go:898-1025 | Succeeds exactly on the tip, and leaves the replay of the parent. |
| BlockChain.BlockChain.LoadDetached | blockchain/chain.go:1191-1250 | Undoing the detached blocks on a view reaches the unspent outputs of the fork point. |
| BlockChain.BlockChain.CheckAttached | blockchain/chain.go:1252-1318 | Stops at the first block that is not stored or cannot be replayed; blocks before it are marked valid, the block itself failed, the rest get an invalid ancestor. |
| BlockChain.BlockChain.VerifyReorganizationValidity | blockchain/chain.go:1158-1319 | Changes nothing but marks; passes exactly when the detach list starts at the tip and every block to attach is stored and can be replayed. |
| BlockChain.BlockChain.DetachAll | blockchain/chain.go:1066-1101 | Succeeds if and only if the list is the top of the best chain without gaps, and then ends at the parent of its last block; otherwise exactly the blocks before the gap are disconnected, and the first block after it is not the tip. |
| BlockChain.BlockChain.AttachAll | blockchain/chain.go:1110-1135 | Ends with the last block as tip, dropping only stale bodies and none that is still to be attached. |
| BlockChain.BlockChain.ReorganizeChain | blockchain/chain.go:1051-1149 | A reorganization that passes ends with the requested tip. One with blocks to attach that fails changes neither chain nor ledger and leaves only its verdict in the marks; one with nothing to attach fails exactly for a list with a gap, and is left disconnected down to the gap. Nothing known to be invalid stops being so. |
| BlockChain.BlockChain.GetReorganizeNodes | blockchain/chain.go:517-563 | Either no status changes and the attach list holds exactly the blocks of the branch that are off the best chain, none known to be invalid, or both lists are empty and a known-invalid block of the branch is named, with the blocks above it marked. |
| BlockChain.BlockChain.ExtendTip | blockchain/chain.go:1348-1423 | Connects the block exactly when its branch can be replayed, whatever its marks; otherwise marks it and changes nothing else. |
| BlockChain.BlockChain.ConnectBestChain | blockchain/chain.go:1335-1469 | The block becomes the tip if and only if it extends the tip and can be replayed, or its branch has strictly more work, none of it off the best chain is known to be invalid, all of that is stored, and it can be replayed: so ties keep the first-seen tip and the tip never loses work. Otherwise chain and ledger stay, no block of the best chain gets a mark, and the block has no more work than the tip, or its branch is marked or misses a body. Marks that were true stay true. The boolean result is true exactly for the new tip and for a heavier branch that is known to be invalid. |
| BlockChain.BlockChain.SwitchTo | blockchain/chain.go:1446-1468 | The branch becomes the best chain if and only if no block of it off the best chain, nor its parent, is known to be invalid, all those blocks are stored, and it can be replayed. |
| BlockChain.BlockChain.StoreBlock | blockchain/accept.go:48-84 | Reuses the node of a known header instead of replacing it, and adds exactly one body; the node keeps its marks and gets the data mark, a new one has the data and header marks only, and no other status changes. |
| BlockChain.BlockChain.MaybeAcceptBlock | blockchain/accept.go:25-104 | Rejected blocks change nothing. An accepted one becomes the tip exactly under the condition above, taken after its body is stored. If no complete unmarked branch had more work than the tip, none has afterwards if and only if no stored descendant was waiting for this body with more work (`Overtaken`); an unmarked best chain stays unmarked if and only if the block is not a marked one that extends it; true marks stay true. The bodies that are left are stated. |
| BlockChain.BlockChain.MaybeAcceptBlockHeader | blockchain/accept.go:123-236 | A header is accepted exactly when its parent is known and unmarked, it is unmarked itself, and it passes its checks or is on the best header chain already; a rejected one changes nothing, an accepted one adds at most its node. The tip of the best header chain has at least the work of every accepted header and never loses work; the result says whether the header is on that chain. The laws of the best chain survive. |
| BlockChain.BlockChain.MoveBestHeader | blockchain/accept.go:176-236 | The best header chain moves exactly when the header extends it or has more work. |
| BlockChain.BlockChain.ProcessBlock | blockchain/process.go:148-250 | A block is an orphan exactly when it passes the first checks, is not stored, and its parent is not stored. A block that is not admitted changes nothing; an admitted one has exactly the effect of block acceptance, with the same conditions for the new tip, the law of most work and the marks. |
| BlockChain.Run | blockchain/chain.go:1335-1469 | Over every run of blocks and headers, valid or not: the ledger is the replay of the best chain, the tips never lose work, and no index entry is replaced; true marks stay true, and then the best chain has none; and if there is no witness buffer, so that no body is dropped, or if no body is delivered twice nor one that was stored before, no complete unmarked branch has more work than the tip. (A run with a buffer that delivers a block twice is not covered by this last law, even if it drops nothing; the step by step condition of `ProcessBlock` covers it.) |
| BlockChain.BlockChain.DropBranch | blockchain/chain.go:865-892 | Walking down from one inactive tip deletes exactly the bodies at or below the drop height on the way to the best chain. |
| BlockChain.BlockChain.DropStaleSideChainBodies | blockchain/chain.go:865-892 | Deletes exactly the bodies of stored blocks off the best chain, at or below the drop height, that lead to an inactive tip no higher than the tip; data bits are cleared exactly there and the tree of headers stays. |
| BlockChain.BlockChain.MaybeDropStaleSideChains | blockchain/chain.go:786-795 | A drop is due only with a witness buffer and once per retarget interval. |
| ChainSpec.StaleOffView | blockchain/chain.go:861-892 | A drop touches neither the best chain nor any block above the drop height, such as the block being connected or blocks still to be attached. |
| ChainSpec.AttachIs | blockchain/chain.go:534-560 | The blocks above the fork point are exactly those off the best chain. |
| ChainSpec.FailedAtMeans | blockchain/chain.go:1281-1312 | The marks after a verification that fails at one block, node by node and bit by bit: valid below it, failed at it, an invalid ancestor above it, and nothing else. |
| Selection.StillNoneBetter | blockchain/chain.go:1423-1469 | Once a new block is decided on, no complete unmarked branch is better than the tip, unless a stored descendant waited for the block. |
| Selection.BetterWaited | blockchain/chain.go:1446-1468 | If one waited with more work, it is better than the tip afterwards: only the new block is considered, not what is built on it. |
| Selection.NoneWaits | blockchain/process.go:219-240 | If every block was stored after its parent, nothing waits for a block that was never stored before. |
| Selection.StillClean | blockchain/chain.go:1348-1423 | An unmarked best chain gets a mark exactly when a block that is known to be invalid extends it. |
| Selection.TruthfulTip | blockchain/chain.go:1281-1312 | If only blocks that cannot be replayed are known to be invalid, none is on a branch that can be replayed, such as the best chain. |
| Selection.BestIsHeaviest | blockchain/chain.go:1335-1469 | With true marks and the law of most work, no complete branch that can be replayed has more work than the tip: the marks drop out of the statement. |
| Selection.HeavierAbove | blockchain/chain.go:1431-1434 | Of two branches one has more work exactly when its blocks above a common block sum to more. |
| Selection.TakesOverAbove | blockchain/chain.go:1423-1469 | The condition for a side branch to take over, with the comparison of work written out as the two sums over the blocks above the fork point. |
| Selection.WithBodyMeans | blockchain/accept.go:56-84 | The status map after a body is stored, node by node and bit by bit. |
| Selection.Stopped | blockchain/chain.go:1252-1318 | A verification that stops leaves true marks true, marks no block of the best chain, and leaves the branch marked or with a body missing. |
| Trials.StopUnique | blockchain/chain.go:1252-1318 | The lowest block to attach that is not stored or cannot be replayed is unique, so that the error of a trial is fixed by the state before. |
| Trials.StoppedJudged | blockchain/chain.go:1252-1318 | A verification that stops reports what is wrong with that block, and takes the freedom of marks exactly from what is built on it, if it is stored. |
| Trials.UnattachableJudged | blockchain/chain.go:524-551 | Trying a branch that is known to be invalid leaves the same branches free of marks. |
| Invalidate.InvalidatedMeans | blockchain/chain.go:2113-2150 | Invalidation, node by node and bit by bit: the block is marked failed and not valid; a descendant on any branch that was not known to be invalid gets the ancestor mark and loses the valid mark; nothing else changes. |
| Invalidate.UnwoundMeans | blockchain/chain.go:2152-2171 | The same for the marks of an invalidation on the best chain, which reach the blocks up to the tip only. |
| Invalidate.MarkWalk | blockchain/chain.go:2129-2139 | Marks exactly the blocks between a tip and the block, and lists those that were not marked before, highest first. |
| Invalidate.KeptAll | blockchain/chain.go:2157-2171 | That list is the whole branch above the block exactly when nothing there was known to be invalid. |
| Invalidate.StopsAtMarked | blockchain/chain.go:1066-1101 | Detaching such a list stops at the highest block it leaves out. |
| Invalidate.ReachedAll | blockchain/blockindex.go:466-499 | The walks from the inactive tips cover every descendant of a block off the best chain. |
| Invalidate.MarkDescendants | blockchain/chain.go:2119-2140 | Marks every descendant, on every branch, of a block off the best chain. |
| Invalidate.Unwind | blockchain/chain.go:2152-2177 | Unwinding the best chain to the parent of the block works if and only if no block above it was known to be invalid before; otherwise it fails with an assertion error and the best chain ends at the highest such block. |
| Invalidate.PickTip | blockchain/chain.go:2190-2207 | The first of the tips of most work among those not known to be invalid, if there is any. |
| Invalidate.BestValidTip | blockchain/chain.go:2183-2207 | A tip of most work among those not known to be invalid, if there is any; it is the tip of the best chain if and only if that one is not known to be invalid and every other one has strictly less work, since it comes last. |
| Invalidate.SwitchToBest | blockchain/chain.go:2183-2222 | The invalid block stays off the best chain; the tip stays exactly under the condition above; another chosen tip takes over exactly when its branch has no known-invalid block, is stored and can be replayed, and otherwise the error and the freedom of marks afterwards are fixed by the block at which the trial stops. |
| Invalidate.CandidatesAre | blockchain/chain.go:2183-2194 | The tips to choose from after the unwinding, in terms of the marks before the call: the parent of the block and the inactive tips, as far as they were not known to be invalid. |
| Invalidate.NoTipExactly | blockchain/chain.go:2183-2215 | After the unwinding there is no tip to choose if and only if the parent of the block and every inactive tip were known to be invalid before. |
| Invalidate.StaysExactly | blockchain/chain.go:2183-2212 | The chain stays at the parent of the block if and only if the parent was not known to be invalid before and has strictly more work than every inactive tip that was not. |
| Invalidate.InvalidateActive | blockchain/chain.go:2152-2222 | If no block above was known to be invalid, the block and the best chain above it become so, the block is off the best chain when there is no error, and the outcome above follows. Otherwise it fails, these marks are the only status changes, and the best chain ends at the highest block that was marked before. |
| Invalidate.InvalidateBlock | blockchain/chain.go:2077-2223 | Unknown, genesis, already invalid and too deep blocks change nothing; off the best chain the result is exactly the invalidation of the block and its descendants; on it, the outcome above, in each case. |
| Reconsider.Snapshot | blockchain/chain.go:2253-2296 | A tip above the block is found whenever one exists, and the saved marks are exactly those of the block and its descendants. |
| Reconsider.ClearBranch | blockchain/chain.go:2304-2314 | The result is `Reconsidered`, which `ReconsideredMeans` spells out. |
| Reconsider.ReconsideredMeans | blockchain/chain.go:2304-2314 | Reconsideration, node by node and bit by bit: both invalidity marks of the block and the ancestor mark of every descendant on any branch are cleared; nothing else changes. |
| Reconsider.UndoesInvalidation | blockchain/chain.go:2113-2314 | Clearing after invalidating gives back every verdict if and only if the block was not known to be invalid before, and no descendant had an ancestor mark without one of its own. |
| Reconsider.ClearedUndoable | blockchain/chain.go:2253-2314 | Whatever was cleared can be put back from the saved marks, for any tree and any number of tips. |
| Reconsider.RestoreInvalid | blockchain/chain.go:2298-2302 | Setting the saved marks restores the status map exactly. |
| Reconsider.ReachedByTips | blockchain/chain.go:2247-2296 | The walks from all tips cover every descendant, and some tip is the block or above it, so the case of no tip to reconsider never arises. |
| Reconsider.RejectCold | blockchain/chain.go:2359-2395 | Finds whether a block to attach is stored without witness data. |
| Reconsider.VerifyAndSwitch | blockchain/chain.go:2336-2354 | Switches to the tip exactly when every block to attach is stored and the branch can be replayed; otherwise only the marks tell. |
| Reconsider.TryTip | blockchain/chain.go:2316-2354 | Refuses exactly when the branch is attachable and a block to attach is cold, and then the status map is the given earlier one. |
| Reconsider.ReconsiderBlock | blockchain/chain.go:2228-2355 | A refusal for missing witness data changes nothing at all, not even a status bit; it happens exactly when the tip has more work, no block to attach is known to be invalid, and one of them is cold. For any other known block not marked valid the marks are cleared as `ReconsideredMeans` says, and the tip is switched to exactly when it has more work and its branch holds up. |
| WorkLaw.InvalidatedLaw | blockchain/chain.go:2113-2150 | Invalidating a block off the best chain keeps the law of most work. |
| WorkLaw.InvalidationLaw | blockchain/chain.go:2183-2222 | After invalidating a block of the best chain the law of most work holds if and only if no complete unmarked block is passed over: one with more work than the chosen tip all of whose tips are known to be invalid, or, when the chosen tip fails, one with more work than the parent that is not built on the block that failed. Dropped bodies only help. |
| WorkLaw.ReconsiderationLaw | blockchain/chain.go:2304-2354 | If the law of most work held before, it holds after a reconsideration if and only if no complete block at or above the reconsidered one, other than those the one tried tip convicts, has more work than the tip afterwards. |
| Operations.StateIsReplay | blockchain/chain.go:581-737 | Any valid state, against independent readings of its best chain: the unspent outputs are exactly those created and not spent since, with their amounts and heights; the totals are the sums over the blocks; the past median time is that of eleven blocks; and the journal has a record for exactly the non-genesis best-chain blocks, one entry per spent output. |
| Operations.RunCommands | blockchain/chain.go:1335-1469 | Every run that mixes arrivals, invalidations, reconsiderations and body drops keeps that, never replaces an index entry, and never lets the best header chain lose work. |
| Scenarios.MarkedTip | blockchain/accept.go:66-95 | A run: a block invalidated by its header extends the tip when its body arrives, and the best chain is marked. |
| Scenarios.InvalidateFails | blockchain/chain.go:2157-2177 | Continued: invalidating the block below fails, and leaves it marked on the best chain. |
| Scenarios.NoTipLeft | blockchain/chain.go:2183-2215 | Continued with a second branch: an invalidation after which no tip is left to choose. |
| Scenarios.ReportedMain | blockchain/chain.go:1454-1468 | A run in which a block is reported to be on the main chain and is not. |
| Scenarios.TieMoves | blockchain/chain.go:2183-2222 | A run in which invalidation gives up the parent for an inactive tip of equal work. |
| Scenarios.HeavierLeft | blockchain/chain.go:2183-2212 | A run in which invalidation leaves a complete side branch of more work behind, because the only tip above it is a header known to be invalid. |
| Scenarios.NotRestored | blockchain/chain.go:2304-2335 | A run in which invalidating a block and reconsidering it does not restore the chain. |
| Scenarios.DeliveredAgain | blockchain/chain.go:865-892 | A run with a witness buffer: a side-chain body is dropped, its branch gets more work, and when the body is delivered again the complete heavier branch is not considered. |
| Scenarios.HeavierWins | blockchain/chain.go:1423-1469 | A run in which a single side block of more work replaces two lighter blocks. |
| Scenarios.Restored | blockchain/chain.go:2228-2355 | A run in which invalidating the lower of two blocks unwinds the chain to genesis, and reconsidering it brings both back. |
| WitnessTier.AgreementKept | blockchain/chain.go:834-859 | Age-out keeps cold blocks and stripped index offsets in agreement if and only if no rewrite of index entries fails after at least one of them was written. |
| WitnessTier.TornRewriteExample | blockchain/chain.go:848-851 | A concrete case in which a failed rewrite leaves the block hot with its first entry stripped, unlike the comment in the source. |
| WitnessTier.AgesExactly | blockchain/chain.go:742-770 | At most one block turns cold, exactly the witness buffer below the connected block, and it does so unless age-out was skipped. |
| WitnessTier.AgedOutMeans | blockchain/chain.go:742-859 | Age-out, block by block and entry by entry: what is cold and which entries are stripped afterwards, for every combination of faults. |
| WitnessTier.FailsExactly | blockchain/chain.go:742-859 | The faults that fail the transaction, as an exact condition. |
| WitnessTier.RewriteTxOffsets | blockchain/indexers/manager.go:543-556 | Rewrites entries up to the first failure and leaves the rest. |
| WitnessTier.TierStore.AgeOutFallenWindow | blockchain/chain.go:742-770 | The age-out of one connect, with every fault of the database, gives exactly the specified pending state or fails the transaction. |
| WitnessTier.TierStore.CompactHotAgeOut | blockchain/chain.go:800-859 | Skips, failures and cancelled moves each lead to their own outcome. |
| WitnessTier.TierStore.ConnectBlock | blockchain/chain.go:617-711 | A failed transaction changes nothing; otherwise the block leaving the buffer turns cold unless skipped, and agreement of tiers and offsets is lost exactly by a torn rewrite. |
| WitnessTier.TierStore.DisconnectBlock | blockchain/chain.go:898-1025 | Index entries of the tip go, its tier stays, and all tier properties are kept. |
| WitnessTier.TierStore.StoreBlock | blockchain/chainio.go:1416-1450 | A body goes to the hot or, directly, to the cold tier; best-chain properties are kept. |
| WitnessTier.TierStore.DeleteBlocks | blockchain/chain.go:865-892 | Deleting bodies off the best chain keeps all tier properties. |
| WitnessTier.RunTier | blockchain/chain.go:742-859 | Over every run: without skipped age-outs each best-chain block above the buffer has its ancestor that far below it cold; with hot stores only, cold blocks are at least the buffer below the greatest height connected; without torn rewrites, cold means stripped offsets. |
| WitnessTier.ColdTipIsUnwound | blockchain/chain.go:2097-2110 | With hot stores only, the tip is cold only after the best chain was unwound by at least the witness buffer from its greatest height. |
| OrphanPool.Pool.RemoveOrphanBlock | blockchain/chain.go:265-296 | The orphan leaves the pool and the list of its parent; an emptied list goes too. |
| OrphanPool.Pool.RemoveFromList | blockchain/chain.go:274-289 | Deleting in place with a step back leaves the list without that hash, in order. |
| OrphanPool.Pool.ExpireOrphans | blockchain/chain.go:305-318 | For any order of the walk and any clock readings, what is gone was seen expired and what stays was seen fresh; an oldest orphan is cached unless the pool is empty, and nothing pooled expires before it. |
| OrphanPool.Pool.AddOrphanBlock | blockchain/chain.go:304-344 | What is kept, cached and evicted; and the pool ends one over the limit if and only if the walk kept one over the limit, or kept exactly the limit while the orphan cached before the call is not kept and expires no later than all that are. |
| OrphanPool.EvictsNothing | blockchain/chain.go:305-324 | What is chosen for eviction is not pooled exactly when the orphan cached before is stale in that sense. |
| OrphanPool.SteadySurvivors | blockchain/chain.go:305-310 | With a clock that stands still, the walk keeps exactly the orphans that are not past their expiration, so that the condition is one on the state before. |
| OrphanPool.Pool.GetOrphanRoot | blockchain/chain.go:241-261 | Terminates on acyclic parents at the topmost pooled ancestor, or at the hash itself when it is not pooled. |
| OrphanPool.RunPool | blockchain/chain.go:237-344 | Every run of additions and removals keeps the index by parent exact and the bound. |
| OrphanPool.Overfilled | blockchain/chain.go:304-344 | A run from an empty pool that ends one over the limit. |
| AddrTables.PutKeeps | addrmgr/addrmanager.go:222-236 | Putting an address in a bucket keeps reference counts, bucket sizes, marks and counters in agreement. |
| AddrTables.DropKeeps | addrmgr/addrmanager.go:253-260 | So does taking it out, and dropping it from the index with its last reference. |
| AddrTables.PromoteKeeps | addrmgr/addrmanager.go:940-967 | So does moving an address to the tried table. |
| AddrTables.SwapKeeps | addrmgr/addrmanager.go:969-998 | So does exchanging it for another address of a full tried bucket. |
| AddrTables.Limits | addrmgr/addrmanager.go:107-131 | What the invariant means in plain numbers and counts: 1024 new buckets of at most 65, 64 tried lists of at most 256; a tried address is in one list once and in no bucket, a new one in one to eight buckets, as many as it has references; and the counters are the sizes of the two classes. |
| AddrTables.PutMeans | addrmgr/addrmanager.go:222-240 | Field by field, what putting an address in a bucket changes and what it leaves. |
| AddrTables.DropMeans | addrmgr/addrmanager.go:253-260 | The same for taking it out. |
| AddrTables.PromoteMeans | addrmgr/addrmanager.go:940-967 | The same for moving it to the tried table. |
| AddrTables.SwapMeans | addrmgr/addrmanager.go:969-998 | The same for the exchange in a full tried bucket. |
| AddrManager.AddrManager.constructor | addrmgr/addrmanager.go:1207-1218 | A manager without addresses satisfies the invariant. |
| AddrManager.AddrManager.ExpireNew | addrmgr/addrmanager.go:244-280 | In any order of the walk, all bad addresses of the bucket and one of the others seen longest ago leave it, and nothing else does. |
| AddrManager.TakesGood | addrmgr/addrmanager.go:244-280 | An expiry takes an address that is not bad exactly when the bucket has one, whether or not there are bad ones. |
| AddrManager.DropAllMeans | addrmgr/addrmanager.go:244-280 | Field by field, what an expiry changes: references go down by one, the last reference takes the record with it, and the counter loses exactly those. |
| AddrManager.AddrManager.PlaceIn | addrmgr/addrmanager.go:222-236 | The address ends up in the bucket, after an expiry exactly when the bucket is over its size, and no bucket holds more than 65. |
| AddrManager.OverSize | addrmgr/addrmanager.go:228-236 | A new bucket ends at 65, one over its size, if and only if it held 64 before, or 65 with no bad address among them. |
| AddrManager.AddrManager.UpdateAddress | addrmgr/addrmanager.go:166-240 | Every path keeps the invariant and has its outcome fixed; the argument of the random draw is always positive. |
| AddrManager.SeenMeans | addrmgr/addrmanager.go:182-193 | Services are joined; a later time is taken over, and an earlier one too if it comes with a new service; nothing else of the record changes. |
| AddrManager.AddrManager.PickTried | addrmgr/addrmanager.go:285-297 | The first of the entries seen longest ago. |
| AddrManager.AddrManager.RemoveFromNew | addrmgr/addrmanager.go:938-951 | The address leaves every new bucket, loses one reference for each, and the first bucket that held it is reported. |
| AddrManager.AddrManager.Good | addrmgr/addrmanager.go:913-999 | The address becomes tried; a full tried bucket gives up its entry seen longest ago, which returns to its own new bucket or to the first one freed; the branch for an address in no bucket is never taken. |
| AddrManager.RunAddresses | addrmgr/addrmanager.go:166-280 | Over every run from a fresh manager: references count buckets, each address is tried in one place or new in one to eight buckets, the counters count the classes, tried buckets hold at most 256 and new ones at most 65. |
| AddrManager.Overfull | addrmgr/addrmanager.go:166-236 | A run from an empty manager that fills a new bucket to 65. |
| AddrManager.GoodExpired | addrmgr/addrmanager.go:244-280 | Continued: an expiry that finds a bad address takes a good one too. |
| AddrFile.SavePeers | addrmgr/addrmanager.go:363-408 | In any order of the map walks, the file lists every address exactly once, with its source, attempts, times and, from version 2, services; every new bucket as a permutation, and every tried bucket in order. |
| AddrFile.DeserializePeers | addrmgr/addrmanager.go:444-549 | A load into a fresh manager succeeds if and only if the version is known, every address can be read, buckets name listed addresses only, and every address is either new or tried; then references, marks and counters are counted from the buckets. |
| AddrFile.LoadedFrom | addrmgr/addrmanager.go:474-504 | Every loaded record comes from the last line of the file for its address, with the source, attempts and times of that line, the current time as time seen, and the default service for version 1. |
| AddrFile.LoadedMeans | addrmgr/addrmanager.go:506-533 | References and marks of a loaded record are its numbers of occurrences in the two lists of the file; buckets and counters are those of the file. |
| AddrFile.LoadNew | addrmgr/addrmanager.go:506-520 | References are the numbers of occurrences, and the counter counts the addresses that have any. |
| AddrFile.LoadTried | addrmgr/addrmanager.go:521-533 | Marks are set exactly on listed addresses, and the counter counts entries. |
| AddrFile.CheckSanity | addrmgr/addrmanager.go:535-546 | Accepts exactly the indexes in which every address is new or tried and not both. |
| AddrFile.RoundTrip | addrmgr/addrmanager.go:363-549 | A file that describes tables satisfying the invariant is accepted, and loads to the same buckets, lists and counters and, field by field, to the same records, but for the time seen and, before version 2, services. |
| AddrFile.SaveAndLoad | addrmgr/addrmanager.go:363-549 | Saving and loading into a fresh manager restores buckets, lists, counters and, for each address, source, attempts, times, references and mark, field by field; the time seen becomes the current time, and services are kept from version 2 on. The result satisfies the invariant. |
| Locate.LocateInventory | blockchain/chain.go:1929-1974 | The start is the block after the first locator hash on the best chain and the count is the length of the segment that answers the request. |
| Locate.KnownHeightMeans | blockchain/chain.go:1941-1951 | The height it starts from is that of the first locator hash on the best chain, and genesis if there is none. |
| Locate.LocateBlocks | blockchain/chain.go:1983-1999 | The reply is that contiguous segment of the best chain. |
| Locate.PageThrough | blockchain/chain.go:1929-1999 | Feeding the last hash back until a page is empty yields every later block exactly once, in height order. |
| Locate.StopsAtStop | blockchain/chain.go:1962-1972 | A stop block after the start ends the reply unless the limit does so first. |
| Locate.StopBeforeStart | blockchain/chain.go:1962-1972 | A stop block at or before the start is ignored. |
| Locate.StopOffChain | blockchain/chain.go:1962-1972 | So is one that is unknown or off the best chain. |
| Locate.IntervalBlockHashes | blockchain/chain.go:1878-1911 | The shortcut through the best chain gives, in order, the hash of the one ancestor at every multiple of the interval up to the block's height, and no other. |
| Locate.IntervalsMean | blockchain/chain.go:1878-1911 | That is what the lookup by ancestors computes: entry i is the ancestor at height (i + 1) times the interval, and every such ancestor is there. |
| CheckpointCache.MatchBelow | server.go:1226-1242 | Two branches that share a checkpoint share all lower ones. |
| CheckpointCache.ForkIndex | server.go:1226-1235 | The scan from the end finds the highest shared checkpoint. |
| CheckpointCache.Server.Serve | server.go:1178-1290 | The reply equals one lookup per checkpoint, and the cache always holds the checkpoints of a single block, so one parent-consistent chain. |
| CheckpointCache.HeadersMean | server.go:1271-1290 | One lookup per checkpoint gives those filter headers. |
| CheckpointCache.Server.OnGetCFCheckpt | server.go:1145-1293 | With the interval lookup of the chain in front, the reply is the filter headers of the ancestors of the stop block at the heights 1000, 2000, ..., in order, and there is none for unknown or unvalidated stop blocks. |
| CheckpointCache.ServeAll | server.go:1163-1290 | For every sequence of requests across arbitrary reorganizations every reply is the direct one, and so the filter headers at every 1000 blocks below its stop block. |
| Peers.PutKeeps | server.go:1889-1899 | Listing a peer keeps the tables sorted and the group counts right, and adds one to the count. |
| Peers.TakeKeeps | server.go:1978-1984 | So does taking it out. |
| Peers.Server.SendAdd | server.go:2378-2386 | The add event follows the handshake. |
| Peers.Server.MarkAdded | server.go:2386-2386 | The mark is set after the event was sent; the handler may run in between. |
| Peers.Server.SendDone | server.go:2392-2409 | The done event follows the disconnect, and the add event, if there was one. |
| Peers.Server.HandleAddPeer | server.go:1839-1942 | The peer is listed and announced exactly when it is connected, wanted and within the limit; it cannot be listed already. |
| Peers.Server.HandleDonePeer | server.go:1946-2005 | Afterwards the peer is in no table, its group count is lowered exactly if it was listed, and the sync manager hears of it exactly if an add event was sent. |
| Peers.Server.DisconnectPeer | server.go:2257-2272 | One matching peer leaves its table, or none matches. |
| Peers.Server.RemoveNode | server.go:2191-2202 | Takes out and disconnects one matching persistent peer, with its group count, and nothing else; finds none exactly when none matches, and then changes nothing. |
| Peers.Server.DisconnectNode | server.go:2218-2246 | Takes out and disconnects exactly one matching inbound peer if there is any; otherwise exactly the matching outbound peers leave their table and lose their connection, and every other peer stays as it is; finds none exactly when none matches. |
| Peers.Protocol | server.go:1839-2005 | In every reachable state: the count is within the limit, a peer is in at most one table, group counts are exact, and once its done event is handled a peer is in no table and a NewPeer was followed by exactly one DonePeer. |
| Peers.Run | server.go:2378-2510 | Every interleaving of lifecycle goroutines, handler and queries stays within the invariant behind that. |
| Queues.QueueHandler.Receive | rpcwebsocket.go:160-176 | An item is passed on at once or queued behind the others; what was sent followed by what is queued is what was received. |
| Queues.QueueHandler.Deliver | rpcwebsocket.go:178-187 | The item sent is the oldest one; the channel variables keep saying whether the queue is empty. |
| Queues.RunQueue | rpcwebsocket.go:152-194 | In every run, outputs followed by what is left equal the inputs, in order. |
| Queues.Client.Accept | rpcwebsocket.go:1774-1780 | A notification is sent on or queued; at most one is on its way. |
| Queues.Client.Acknowledge | rpcwebsocket.go:1784-1796 | The next notification follows, and the queue waits exactly if there was one. |
| Queues.Client.SendNotification | rpcwebsocket.go:1867-1877 | An answer for a disconnected client never finds the one-slot channel full. |
| Queues.Client.Written | rpcwebsocket.go:1829-1837 | The writer finds the one-slot channel empty. |
| Queues.Client.WriteFails | rpcwebsocket.go:1829-1834 | A failed write loses the notification and disconnects the client; the invariant accounts for it. |
| Queues.Client.Drain | rpcwebsocket.go:1844-1855 | Draining finds the one-slot channel empty too. |
| Queues.Delivery | rpcwebsocket.go:1752-1801 | At most one notification is in flight, the channel holds at most one token, and until a disconnect the notifications written are the first ones accepted, in order, and all of them when nothing is awaited. |
| Queues.RunClient | rpcwebsocket.go:1752-1859 | Every interleaving of queue, writer and other senders keeps this. |
| Registrations.NotificationManager.RemoveSpentRequest | rpcwebsocket.go:891-911 | Both sides forget the request, and no empty set of clients stays behind. |
| Registrations.NotificationManager.RemoveAddrRequest | rpcwebsocket.go:1114-1134 | The same for addresses. |
| Registrations.NotificationManager.AddAddrRequests | rpcwebsocket.go:1083-1100 | Exactly the named addresses become watched by the client, on both sides. |
| Registrations.NotificationManager.NotifyWatchers | rpcwebsocket.go:1057-1066 | While the set of clients shrinks under the walk, each is told at most once and, in a block, each loses the request. |
| Registrations.NotificationManager.NotifyForTxIns | rpcwebsocket.go:1036-1069 | Each client that watches a spent output gets exactly one notification; for a transaction in a block every watch on its inputs is gone, on both sides, and no other watch changes. |
| Registrations.NotificationManager.AddSpentRequests | rpcwebsocket.go:842-875 | Exactly the named outputs become watched, and each spend already in the memory pool is told once to each client watching it. |
| Registrations.NotificationManager.NotifyForTxOuts | rpcwebsocket.go:947-993 | Exactly the outputs paying to an address a client watches become watched by it, and each such client gets exactly one receipt. |
| Registrations.PaymentsAre | rpcwebsocket.go:957-967 | The payments walked are exactly the pairs of an output and an address it pays to. |
| Registrations.NotificationManager.NotifyForTx | rpcwebsocket.go:1021-1030 | Watches afterwards: the old ones, without the inputs if in a block, and the outputs paid to watched addresses. |
| Registrations.NotificationManager.BlockConnected | rpcwebsocket.go:463-473 | Transaction by transaction, watches on spent outputs end and outputs paying to watched addresses become watched; nothing else changes. |
| Registrations.AfterMeans | rpcwebsocket.go:463-473 | A client watches an output after a block exactly when it did before and no transaction spends it, or some transaction pays it to an address the client watches and no later one spends it. |
| Registrations.PaidMeans | rpcwebsocket.go:947-993 | What a transaction makes a client watch: exactly its own outputs that pay to an address the client watches. |
| Registrations.PayeesMean | rpcwebsocket.go:947-993 | Who gets a receipt: exactly the clients watching an address that some output pays to. |
| Registrations.NotificationManager.UnregisterClient | rpcwebsocket.go:511-524 | The client is in none of the five maps afterwards, and no other client loses anything. |
| Registrations.NotificationManager.Handle | rpcwebsocket.go:457-544 | Each message keeps both indexes in agreement with the clients' own requests, and its outcome is stated: which client watches which output and address afterwards, and who listens to blocks and transactions and is connected. |
| Registrations.RunMessages | rpcwebsocket.go:438-562 | Over every message sequence: a client watches a key if and only if the key is among its requests, and no inner map is empty. |

## Left out

- Database engine, flush policy of the unspent output cache, pruning, marshalling and log output: the model has one copy of each map; database failures appear only where a property is about them (`WitnessTier`).
- Internal checks that the invariants make unreachable have no branch in the model: the fork-point and journal checks of verifyReorganizationValidity, the missing-journal errors for best-chain blocks, and "no tip to reconsider".
- Utxo.UndoBlock: the view over the output cache and the in-place update of entries are modelled on values; the two historical exceptions of BIP 30 and journal entries of the old format without heights are not modelled.
- Ledger.LedgerFields: the persisted work sum and the size and weight fields of the snapshot are not part of it.
- Ledger.LedgerUndo: the rule of BIP 30 is enforced at every height; the source skips the check between the activation of BIP 34 and height 1983702 (blockchain/validate.go:226-235), where coinbases with heights rule overwrites out.
- BlockChain.BlockChain.ReorganizeChain: which stale bodies a switch to another branch drops is stated as a set below the new tip, not block by block; for a block that extends the tip it is exact.
- BlockChain.BlockChain.ProcessBlock: proof-of-work, checkpoint and timestamp checks are the parameters `sane` and `contextOk`; the processing of waiting orphans after an acceptance is a further call in the event list.
- Invalidate.InvalidateBlock: the nil dereference of the source when no tip is left is the error `NoTip` here, under the exact condition of `Invalidate.NoTipExactly`.
- Invalidate.InvalidateActive: only the best-chain suffix is marked, as in the source; other descendants of the block are left to later decisions.
- WitnessTier.RewriteTxOffsets: the entries of all offset-bearing indexes are one list in the order of rewriting; the entry that fails is taken to be unwritten. The reclaiming of hot space is not modelled.
- OrphanPool.Pool.AddOrphanBlock: requires that the block is not pooled, which its caller checks.
- AddrManager.AddrManager.UpdateAddress: bucket hashes, routability and the badness of an address are arbitrary functions; buckets hold keys into the index instead of shared pointers to its entries.
- AddrFile.DeserializePeers: nothing is said about the manager after a failed load; parsing of address strings is a function that may fail; the hash key and the opening of the file are not modelled.
- Attempt, Connected, SetServices, GetAddress and AddressCache of the address manager: they touch no table, or draw from it at random.
- Locate.LocateBlocks: locateHeaders runs the same loop over headers and is not repeated.
- CheckpointCache.Server.Serve: lookups that fail are not modelled; the two locks are one atomic step, which the second length check under the write lock makes equivalent.
- Peers.Server.HandleAddPeer: user agent, ban list and host parsing are one parameter; shutdown, the broadcast and relay cases of the handler and reconnects by the connection manager are not modelled.
- Queues.Client.Accept: the drain of the notification queue after quit is not modelled; the capacity of the send channel only delays steps.
- Registrations.NotificationManager.Handle: notifications to all block or transaction listeners and the newer filter subscriptions change no registration and are not modelled; marshalling always succeeds.
- Configuration, RPC handlers, address encoding, script execution, proof of work, compression and network I/O.
