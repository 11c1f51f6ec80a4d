# Verification of the validator-event prover daemon

The daemon walks the finalized beacon chain block by block, looks in each block for events of the
staking module's validators, and sends proofs of them to on-chain contracts. This project models the
parts of it that hold logic of their own and proves what they promise, over every run, input and
interleaving the models admit.

| files | what they model |
|---|---|
| `Trust`, `RootWalk`, `RootsProcessor` | choosing, pushing, processing and purging a root; memory and files apart; the trust windows |
| `RootWalkSafety`, `RootWalkTrust`, `RootWalkProgress`, `RootWalkRest`, `RootWalkEpochs`, `RootWalkLag`, `RootWalkStarts` | what the walk keeps and when a block is lost, when a purge is sound, one root start to end, when the walk comes to rest and what is done by then, epochs and duties, the lag gate, where it starts and what a restart finds |
| `DaemonService` | the daemon loop, its concurrent tasks and their guards |
| `KeysIndexer` | the incremental key index and its two files |
| `MerkleTree`, `Proofs` | generalized indices, vectors and lists, single proofs, `verifyProof`, proofs through a patched tree |
| `HistoricalSummary` | block root rings, historical summaries, and the slot arithmetic that finds them |
| `Recency`, `LruCache`, `LruCacheRuns` | the single-flight cache against the history of touched keys |
| `BadPerformers`, `BadPerformersService`, `BadPerformerRounds`, `BadPerformerSkips`, `BadPerformerMarks`, `BadPerformerDrain` | bad-performer rounds: evaluation, batches, the skip test, the processed mark, exit limits |
| `Balances` | the balance test and the range-batched reads |
| `FeeHistory`, `FeeHistoryRuns`, `FeeHistoryOverlaps`, `Execution` | the gas fee history and percentile, the fee cache over time, its overlapping updates, one transaction attempt and the retries |
| `Wrappers`, `Sequences`, `Division`, `Sorting` | shared helpers |

Code that changes state step by step is a class or a method with loops, proved equal to a step
function on values; the properties of runs are lemmas about those functions.

## Assumptions

- The finalized chain is linear and is given in full as `slots`; a block is named by its position.
  Block 0 is never processed. The finalized head never goes back, and the API's finalized child of a
  block is its successor in the chain.
- `START_ROOT` stays the same and is a finalized block.
- A file write is atomic. A rejected write may be survived, whether the file was written or not.
- Roots count from the first one recorded as last processed. A restart that finds no cursor on disk
  and has no START_ROOT begins anew, at the head.
- The indexer's two files are written one after the other; the process may die between them. The
  validator registry only grows. The module's keys are a fixed list of entries in a fixed order, of
  which several may have the same key, and an answer finds for each key it was asked for what that list
  has.
- A fetcher handed to the cache does not throw or settle before its first await.
- `StandardMerkleTree.getMultiProof` returns the requested leaves in some order.
- Where "no key is sent twice" is stated, what the contracts answer reflects every report that landed
  before, and is answered per public key. The code looks proofs up as of the finalized block, so this
  takes until the reports are finalized; `StaleReadsReportAgain` shows what happens before that. A
  batch reported as failed may have landed or not.
- The fee history API returns as many blocks as it is asked for, and the one after them.
- The balance and exit-epoch lists are read from one state and have the same length; the keys asked
  for exist in the module.
- A strikes tree has one leaf per public key where "no key is sent twice", draining or what a round
  leaves unreported is stated, and the key index answers a public key with that key.
- Where a completed or skipped tree is said to be reported, the keys the indexer knows stay the same
  over the run.
- A payload's withdrawals and the state's historical summaries are SSZ lists: items below the left child of
  the root, missing ones zero, the length on the right.
- Hashes are free terms: equal digests have equal preimages.

## Where the code and its documentation or comments differ

The models follow the code.

- The repository's `README.md:41` says a root is put on the stack if the indexer is outdated;
  `src/daemon/services/roots-processor.ts:33` always puts it there, before the duties.
- Its `README.md:34` says a stacked root is taken once the indexer is trusted completely;
  `src/daemon/services/roots-stack.ts:56` takes it once the indexer is trusted for any duty. Between
  the two windows a root is replayed for ever and nothing newer is reached (`StuckOnOneBlock`).
- A purged root need not have been processed with trusted keys: an indexer update may be committed
  between its duties and the check. `PurgeSoundIffFirstReadTrusted` gives the exact condition.
- `src/common/prover/duties/bad-performers.service.ts:94` says a partial send is retried in the next
  round. It is exactly if the tree was not already marked (`DeferredIsRetriedIff`); a round with nothing
  to evaluate marks an unfinished one (`QuietRoundMarks`). Over whole runs both are right exactly if no
  round loses in one of these two ways (`PromiseKeptIff`).
- The fee cache is cut as if it were in block order, but the percentile sorts it in place:
  `DropsOldestIff` says, in any run, exactly when an update after a percentile drops the oldest
  entries.
- Neighbouring fee history requests share a block, so an update that needs several requests, or more
  than the cache holds, does not reach back to the previous one (`CatchesUpIff`).
- Root processing and the bad-performer round share the fee cache. An update puts in blocks that are
  in already exactly if its range meets that of one that ended before (`OnceThroughoutIff`); for updates
  of one request that is exactly if another one ended in between (`OnceIffUndisturbed`). The last block
  goes back exactly if an update ends after one that reached further (`NewestThroughoutIff`).
- `src/daemon/services/roots-stack.ts:63-65` takes a slot in memory for one on disk. After a push whose
  write was rejected, and survived by `src/daemon/daemon.service.ts:101-105`, a block may be lost:
  `NothingIsLostIff` says exactly when and `SurvivedPushFailureLosesABlock` how.
- `initStorage` indexes the last entry for a key and `updateStorage` the last used one: the index is that
  of a rebuild exactly if the two are the same for every key in the registry (`AlwaysSameIff`).
- The historical summary arithmetic is right exactly if Capella starts on a multiple of
  SLOTS_PER_HISTORICAL_ROOT (`ResolvesIffAligned`).

## Model

| member | source | states |
|---|---|---|
| `RootWalkSafety.NothingIsLostIff` | src/daemon/services/roots-processor.ts:26-49 | in every run with failures, crashes, reloads, rejected writes of any kind, indexer commits and a moving head: at all times every block from the first recorded root to the highest ever recorded is done or on the stack file, though replays move the cursor back, if and only if no untrusted check records a block that is neither done nor on the stack file |
| `RootWalkSafety.CoveredIff` | src/daemon/services/roots-processor.ts:34-48 | one step keeps this if and only if it is not such a check |
| `RootWalkSafety.OnlyRejectedPushesLose` | src/daemon/services/roots-stack.ts:62-74 | in every run such a check is of a slot whose push was rejected without effect, with no later write of the stack and no restart in between |
| `RootWalkSafety.NothingIsLost` | src/daemon/services/roots-processor.ts:26-49 | the corollary: nothing is lost in a run in which no such rejection is survived |
| `RootWalkSafety.InvStep` | src/daemon/services/roots-stack.ts:62-89 | each step, the survived rejected push included, keeps: what is on the stack file alone is done, both stacks and cursors hold finalized blocks only, stacked blocks and the one in process are below the first root or at most one past the high-water mark, the cursor never past it |
| `RootWalkSafety.SurvivedPushFailureLosesABlock` | src/daemon/services/roots-stack.ts:62-74 | a run in which a rejected push write is survived and a block is lost through the early return of `push` |
| `RootWalk.NextEligible` | src/daemon/services/roots-stack.ts:51-60 | what is offered is the lowest stacked slot that is trusted for some duty, if there is one |
| `RootWalkTrust.NextEligibleIsMinimum` | src/daemon/services/roots-stack.ts:51-60 | the scan gives the lowest stacked slot if that is trusted for some duty, and nothing otherwise |
| `RootWalkTrust.TrustIsMonotone` | src/daemon/services/keys-indexer.ts:129-161 | trust is kept by lower blocks and newer indexer data |
| `RootWalkTrust.TrustedUpTo` | src/daemon/services/keys-indexer.ts:129-161 | a block is trusted for some duty exactly up to the wider window past the indexer's slot, and for every duty exactly up to the narrower one |
| `RootWalkTrust.PurgeSoundIffFirstReadTrusted` | src/daemon/services/roots-processor.ts:34-47 | in every run the duties of a purged block all read keys within both windows if and only if the first one did |
| `RootWalkTrust.QuietPurgesAreSound` | src/daemon/services/roots-processor.ts:34-47 | with no indexer commit between a root's duties and its check every purged block was processed with trusted keys |
| `RootWalkTrust.CommitBeforeCheckHidesOldReads` | src/daemon/daemon.service.ts:81-83 | whatever the windows, a chain and a run in which a commit in between lets a block be purged whose duties began on keys outside the windows |
| `RootWalkProgress.WalkIsARun` | src/daemon/daemon.service.ts:54-106 | the failure-free walk is one of the runs, so safety holds along it |
| `RootWalkRest.WalkRestsIff` | src/daemon/services/roots-provider.ts:20-78 | from every state a run can reach, with any lag and trust, the failure-free walk under a fixed head comes to rest if and only if, once between roots, no block at least the lag behind the head that the walk comes to (a stacked one, or any from the next root on if nothing eligible is held back) lies between the two windows |
| `RootWalkRest.RestedWalkIsComplete` | src/daemon/services/roots-provider.ts:20-78 | wherever it rests, the cursor is at the first root or the lag behind the head, and unless a block was lost before every block from the first on whose slot is at least the lag behind the head's is done, or stacked outside both windows |
| `RootWalkRest.CoveredInMemory` | src/daemon/services/roots-stack.ts:62-80 | nothing is lost for the walk, in memory, wherever nothing is lost on disk; so the condition holds after every run without a losing check |
| `RootWalkRest.WalkCatchesUp` | src/daemon/services/roots-provider.ts:20-78 | with trust up to the head it always comes to rest; without a lag, and with nothing lost before, the stack is then empty, the cursor at the head and every block done |
| `RootWalkRest.RestsForEver` | src/daemon/services/roots-provider.ts:37-60 | once at rest, no number of turns of the loop ends it |
| `RootWalkRest.StuckNeverRests` | src/daemon/services/roots-provider.ts:27-35 | a walk that is stuck on a block between the windows is at rest at no time, before or after |
| `RootWalkProgress.ReplayedButNeverPurged` | src/daemon/services/keys-indexer.ts:129-157 | a block is eligible and not purgeable exactly if its distance to the indexer is between the two windows |
| `RootWalkProgress.ReplayPurgesIffTrusted` | src/daemon/services/roots-processor.ts:46-48 | a replay takes the block off the stack if and only if the indexer is trusted for every duty |
| `RootWalkProgress.StuckOnOneBlock` | src/daemon/services/roots-provider.ts:27-35 | otherwise any number of replays leaves stack and done blocks as they were |
| `RootWalkEpochs.ShortcutAgrees` | src/daemon/services/roots-processor.ts:51-64 | on every reachable state the cursor's slot and the fetched parent give the same answer |
| `RootWalkEpochs.FirstBlockIff` | src/daemon/services/roots-processor.ts:51-64 | in every run a block is the first of its epoch if and only if the first slot of some epoch is after its parent's slot and not after its own |
| `RootWalkEpochs.OneFirstBlockPerEpoch` | src/daemon/services/roots-processor.ts:63 | every non-empty epoch after the first block's has exactly one first block, and the first block's epoch has none |
| `RootWalkEpochs.DoneMeansEveryDuty` | src/daemon/services/roots-processor.ts:34-47 | in every run each finished block had the slashing and withdrawal duties before its check, and the balance duty exactly if it is the first of its epoch |
| `RootWalkLag.WalkKeepsItsDistance` | src/daemon/services/roots-provider.ts:37-42 | in every run, whatever fails, no block after the first is taken, stacked, finished or recorded before it is ROOTS_PROCESSING_LAG_SLOTS behind the finalized head |
| `RootWalkLag.TurnTakes` | src/daemon/services/roots-provider.ts:20-42 | a turn takes the eligible stacked root if and only if it is at least the lag behind the head or there is no lag; with none it asks for the child of the cursor unless that is the head |
| `RootWalkLag.ChildIsTaken` | src/daemon/services/roots-provider.ts:37-78 | a finalized child is taken if and only if it is at least the lag behind the head of its turn or there is no lag |
| `RootWalkStarts.FirstRootIs` | src/daemon/services/roots-provider.ts:20-55 | in every run the walk starts at START_ROOT, or without one at a finalized head that one of its turns was given |
| `RootWalkStarts.CrashRestoresWritten` | src/daemon/services/roots-stack.ts:91-99 | after a crash at any time of any run the stack, the cursor and the index are what memory held at the latest write of each |
| `RootsProcessor.RootsStack.SortedSlots` | src/daemon/services/roots-stack.ts:52-54 | exactly the stacked slots, strictly ascending |
| `RootsProcessor.RootsStack.GetNextEligible` | src/daemon/services/roots-stack.ts:51-60 | the scan loop returns the next eligible root |
| `RootsProcessor.RootsStack.Push` | src/daemon/services/roots-stack.ts:62-74 | a slot in memory is kept as it is and not written again, any other is added |
| `RootsProcessor.RootsStack.Purge` | src/daemon/services/roots-stack.ts:76-80 | the slot is gone; there is a write only if it was there |
| `RootsProcessor.RootsProcessor.Turn` | src/daemon/services/roots-provider.ts:20-61 | the turn of the loop up to its request is the system's step |
| `RootsProcessor.RootsProcessor.OnChildHeaders` | src/daemon/services/roots-provider.ts:61-78 | the choice of a child and the lag gate are the system's step |
| `RootsProcessor.RootsProcessor.OnBlockInfo` | src/daemon/services/roots-processor.ts:28-33 | the push is the system's step |
| `RootsProcessor.RootsProcessor.OnDutyDone` | src/daemon/services/roots-processor.ts:34-48 | the duties, the check, the purge and the cursor are the system's steps |
| `RootsProcessor.RootsProcessor.OnStackWritten` | src/daemon/services/roots-processor.ts:33-48 | what follows a stack write is the system's step |
| `RootsProcessor.RootsProcessor.OnCursorWritten` | src/daemon/services/roots-stack.ts:86-89 | the cursor's write ends the root |
| `RootsProcessor.RootsProcessor.OnFailure` | src/daemon/daemon.service.ts:101-105 | a rejected await, the write of a push included, drops the root and leaves memory and files as they are |
| `RootsProcessor.RootsProcessor.OnRejectedLate` | src/daemon/daemon.service.ts:101-105 | a write that is done but rejects leaves its file written |
| `RootsProcessor.RootsProcessor.Restart` | src/daemon/services/roots-stack.ts:91-99 | a restart reads both files |
| `DaemonService.TasksNeverOverlap` | src/daemon/daemon.service.ts:75-128 | in every interleaving no two bodies of one task overlap, the root field is set whenever a root is in processing, no root is chosen meanwhile and none is handed to a skipped call |
| `DaemonService.HeaderLaunches` | src/daemon/daemon.service.ts:75-92 | in every run, after a changed header a bad-performer round is running, and an indexer update if it is due; nothing else starts, and a root is chosen exactly if none is in processing |
| `DaemonService.FoundRootIsProcessed` | src/daemon/daemon.service.ts:94-105 | a root that is found is in processing, in the only body |
| `DaemonService.ChoosesAgain` | src/daemon/daemon.service.ts:46-105 | from every state of a run the daemon comes to choose a root again once the one in processing settles |
| `DaemonService.SingletonTask.Run` | src/daemon/utils/singleton-task.decorator.ts:6-17 | starts a body and sets the flag only if the flag is clear |
| `DaemonService.SingletonTask.Finally` | src/daemon/utils/singleton-task.decorator.ts:17-19 | ends the body and clears the flag |
| `DaemonService.DaemonService.OnHeader` | src/daemon/daemon.service.ts:75-92 | the launches of a turn are the system's step |
| `DaemonService.DaemonService.OnNext` | src/daemon/daemon.service.ts:94-105 | the launch of root processing is the system's step |
| `DaemonService.DaemonService.OnPromiseSettled` | src/daemon/daemon.service.ts:103-105 | clearing the root field once the promise settles is the system's step |
| `KeysIndexer.AlwaysSameIff` | src/daemon/services/keys-indexer.ts:253-308 | after every history of runs, failures and crashes, a run that reaches its data leaves the index of one rebuild from the latest state, if and only if for every key in the registry the last entry and the last used entry give the same |
| `KeysIndexer.IncrementalEqualsRebuild` | src/daemon/services/keys-indexer.ts:112-127 | the same for one history; and if the run is saved, a crash does not change it |
| `KeysIndexer.DifferingKeyIsMissed` | src/daemon/services/keys-indexer.ts:297 | a key for which they differ, of a validator that comes into the registry after the first run, is indexed otherwise than by a rebuild |
| `KeysIndexer.IndexIsAlwaysAJoin` | src/daemon/services/keys-indexer.ts:112-127 | in memory and on disk the index is at any time a join of the module's keys with a prefix of the registry, with every key up to some validator and the used ones from there, complete up to the recorded count |
| `KeysIndexer.IndexIsAlwaysRight` | src/daemon/services/keys-indexer.ts:112-127 | in every run, in memory and on disk: each entry has the operator and the index of an entry of the module's list for that validator's key, and no validator up to the recorded count whose key has a used entry is missing |
| `KeysIndexer.RunPutsIn` | src/daemon/services/keys-indexer.ts:253-308 | a run puts in an entry for exactly the validators from its base on whose key is listed, each from such an entry; an update counts and takes used entries only |
| `KeysIndexer.FindIs` | src/daemon/services/keys-indexer.ts:256-271 | what a key is given is the operator and the index of the last entry for it, with used keys only the last used one, and nothing exactly if there is none |
| `KeysIndexer.CrashAfterRun` | src/daemon/services/keys-indexer.ts:112-127 | what a crash leaves of a run that was saved, or stopped at its first or second write |
| `KeysIndexer.ExtendedJoin` | src/daemon/services/keys-indexer.ts:276-308 | adding the answer for the validators from the recorded count on completes the join, also when the storage file was ahead of the info file |
| `KeysIndexer.KeysIndexer.InitStorage` | src/daemon/services/keys-indexer.ts:253-274 | puts in the entry of every validator found among the module's keys, used or not, the last answer for a key winning |
| `KeysIndexer.KeysIndexer.UpdateStorage` | src/daemon/services/keys-indexer.ts:276-308 | puts in the entries of the new validators, offset by the recorded count, from used keys only; `FindIs` says which |
| `KeysIndexer.KeysIndexer.BaseRun` | src/daemon/services/keys-indexer.ts:112-127 | slot and count follow the data in memory, then the storage file, then the info file, up to where the run stops |
| `KeysIndexer.KeysIndexer.Reload` | src/daemon/services/keys-indexer.ts:202-220 | a restart reads both files |
| `Proofs.VerifyProof` | src/common/helpers/proofs.ts:70-96 | the loop's verdict for every index and branch: extra item, missing items, invalid, accepted |
| `Proofs.VerdictsAre` | src/common/helpers/proofs.ts:70-96 | with n items: one is extra if the index is below 2^n, some are missing if it is at least 2^(n + 1) or not positive, and in between the branch is accepted exactly if it folds up to the root |
| `Proofs.AcceptedIffBranchOfATree` | src/common/helpers/proofs.ts:70-96 | a branch is accepted if and only if it is the branch of a tree with that root and that value at the index |
| `Proofs.ExtractedBranchAccepted` | src/common/helpers/proofs.ts:17-20 | the branch extracted from a tree is accepted |
| `Proofs.OneValuePerIndex` | src/common/helpers/proofs.ts:70-96 | a root and an index have at most one accepted value and branch |
| `Proofs.ConcatenatedProof` | src/common/helpers/proofs.ts:32-36 | a branch at a concatenated index is accepted exactly if a middle node is proved by its two parts |
| `Proofs.PatchedProofPasses` | src/common/helpers/proofs.ts:28-36 | joined branches pass against the untouched root exactly if the patch has the replaced node's root |
| `Proofs.ProvePatched` | src/common/helpers/proofs.ts:28-36 | the proof built in a patched tree passes against the untouched root exactly if the patch has the replaced node's root |
| `Proofs.GenerateWithdrawalProof` | src/common/helpers/proofs.ts:22-37 | the proof is of the withdrawal at the offset, at index 32 + offset below the withdrawals root, and passes exactly if the list has that root |
| `Proofs.GenerateHistoricalStateProof` | src/common/helpers/proofs.ts:47-67 | the same for a block root below a summary's root |
| `Proofs.BlockSummaryRootIs` | src/common/helpers/proofs.ts:55-59 | the index built for entry i of the summaries names the first field of entry i of the list |
| `MerkleTree.ListItemIs` | src/common/helpers/proofs.ts:31 | the node at the index of an item of a list is that item |
| `MerkleTree.VectorItemIs` | src/common/helpers/proofs.ts:61 | the node at the index of an item of a vector is that item |
| `MerkleTree.NodeAtConcat` | src/common/helpers/proofs.ts:32 | the node at a concatenated index is the node below the node, and its witnesses are joined |
| `MerkleTree.ConcatIsSpecified` | src/common/helpers/proofs.ts:32 | the concatenation computed bit by bit is the consensus-specs' formula |
| `HistoricalSummary.ResolvesIffAligned` | src/common/prover/utils/historical-summary.ts:28-59 | for all chains and blocks an available summary names the state that holds the block's root at its ring index and the entry that commits to that ring, if and only if Capella starts a period |
| `HistoricalSummary.AvailableIffEntryExists` | src/common/prover/utils/historical-summary.ts:45-48 | available exactly if the finalized state has the entry |
| `HistoricalSummary.RingHolds` | src/common/prover/utils/historical-summary.ts:33 | the ring of a state holds the roots of the last period's blocks at their slots' remainders |
| `HistoricalSummary.SummariesAre` | src/common/prover/utils/historical-summary.ts:32-34 | each summary is the root of the ring of the state at its slot |
| `HistoricalSummary.NotHistoricalYetIsShort` | src/common/prover/duties/withdrawals.service.ts:163-170 | a block classified as historical and resolved later is not available only in the first two epochs of its period, for at most two epochs of slots, and never a full period on |
| `HistoricalSummary.HistoricalIffLeavesRing` | src/common/prover/duties/withdrawals.service.ts:163-170 | a block is classified as historical if and only if its root leaves the ring of block roots within the two epochs after the head and the slot that follows them |
| `HistoricalSummary.ResolutionIs` | src/common/prover/utils/historical-summary.ts:28-49 | not available before Capella exactly for slots before its first; otherwise the slot to wait for is the end of the block's period counted from Capella |
| `HistoricalSummary.ProveHistoricalBlock` | src/common/prover/duties/balances.service.ts:136-157 | end to end: whenever a summary is available the proof built from the two states proves the block's root against the finalized state root |
| `LruCacheRuns.CacheIsSound` | src/common/helpers/lru.ts:24-61 | in every interleaving of requests, completions, failures and clears: the last `capacity` touched keys in order of their last touch, never more, at most one running fetch a cache key, none of a cached key |
| `LruCacheRuns.EveryCallerIsAnswered` | src/common/helpers/lru.ts:24-57 | in every interleaving each request is in exactly one place: it has a reply to its own key, its fetch was rejected, its own fetch is under way, or it waits for a shared one that is running |
| `LruCacheRuns.KeptIffCacheable` | src/common/helpers/lru.ts:43-49 | a fetched value is cached exactly if it may be stored and the capacity is not zero, and no other value ever is |
| `LruCacheRuns.ClearForgets` | src/common/helpers/lru.ts:59-61 | what is cached after a clear comes from a fetch completed after it |
| `LruCacheRuns.RepliesAreDirectFetches` | src/common/helpers/lru.ts:24-57 | every caller gets what a direct fetch returns, if keys that share a cache key are fetched alike |
| `LruCacheRuns.CollidingKeysAreMixedUp` | src/common/helpers/lru.ts:29-38 | and only then: otherwise a run answers wrongly |
| `LruCacheRuns.LargerCacheHoldsMore` | src/common/helpers/lru.ts:29-49 | on cacheable requests one after another what a smaller cache holds a larger one holds |
| `LruCacheRuns.GetEachIsARun` | src/common/helpers/lru.ts:24-57 | requests one after another, each with the completion of the fetch it starts, are a run of the system |
| `LruCacheRuns.GetEachIsRecent` | src/common/helpers/lru.ts:29-49 | after them the contents are the recent distinct keys |
| `Recency.KeptIffRecentlyTouched` | src/common/helpers/lru.ts:31-47 | a key is kept exactly if fewer than `capacity` other keys were touched since |
| `Recency.KeptInOrderOfLastTouch` | src/common/helpers/lru.ts:31-33 | kept keys are in the order of their last touch |
| `LruCache.LruCache.Request` | src/common/helpers/lru.ts:24-56 | bypass, hit, join or start, with the maps changed accordingly |
| `LruCache.LruCache.Complete` | src/common/helpers/lru.ts:42-53 | a cacheable value is stored at the end, the oldest entry leaves a full cache, the flight ends |
| `LruCache.LruCache.Fail` | src/common/helpers/lru.ts:51-53 | the flight ends, the entries stay |
| `LruCache.LruCache.Clear` | src/common/helpers/lru.ts:59-61 | the entries go, the flights stay |
| `BadPerformers.JudgeIs` | src/common/prover/duties/bad-performers.service.ts:236-261 | a leaf is bad exactly if its strikes reach its operator's threshold and its key is known under that operator; it fails the evaluation exactly if parameters are missing, or the strikes reach the threshold and the key is unknown or another operator's |
| `BadPerformers.SumOfBoth` | src/common/prover/duties/bad-performers.service.ts:239 | strikes are added up: those of a joined list are the sum of those of its parts |
| `BadPerformers.SumIgnoresOrder` | src/common/prover/duties/bad-performers.service.ts:239 | whatever their order |
| `BadPerformers.ErrorIs` | src/common/prover/duties/bad-performers.service.ts:243-257 | the error of a leaf tells which of its reads is missing or wrong |
| `BadPerformers.EvaluateIs` | src/common/prover/duties/bad-performers.service.ts:224-269 | the evaluation fails exactly if a leaf has no parameters, an unknown key or the wrong operator; otherwise one key per leaf at or above its threshold, in leaf order, and no other |
| `BadPerformers.FreshEvaluationIs` | src/common/prover/duties/bad-performers.service.ts:224-269 | under the parameters just read, a leaf has a key exactly if its strikes add up to the threshold of its operator's curve and its key is known under that operator |
| `BadPerformers.FirstErrorStays` | src/common/prover/duties/bad-performers.service.ts:236-261 | the error is that of the first such leaf |
| `BadPerformers.ChunksPartition` | src/common/prover/duties/bad-performers.service.ts:127-128 | n keys fall into exactly ceil(n / size) non-empty batches, all but the last full, which make up the list |
| `BadPerformerRounds.BatchesPartition` | src/common/prover/duties/bad-performers.service.ts:119-142 | the batches are a permutation of the send list in descending leaf order |
| `BadPerformerRounds.RoundSends` | src/common/prover/duties/bad-performers.service.ts:47-99 | a round reports at most the exit limit, no key twice, and only keys whose leaf's strikes reach the threshold just read of its operator's curve, not yet proved or withdrawn |
| `BadPerformerRounds.RoundResult` | src/common/prover/duties/bad-performers.service.ts:62-99 | the result is the number of keys reported, and an error exactly if a read, the evaluation, a contract or a batch goes wrong |
| `BadPerformerRounds.NoKeySentTwice` | src/common/prover/duties/bad-performers.service.ts:62-142 | over any rounds, trees, parameters, limits and failures no key is reported twice |
| `BadPerformerDrain.TreeIsDrained` | src/common/prover/duties/bad-performers.service.ts:62-117 | on a new tree with fixed parameters the keys reported are the first ones up to the sum of the limits, each once, and the root is marked exactly from the round on in which that sum reaches their number |
| `BadPerformerMarks.MarkedIffCompleted` | src/common/prover/duties/bad-performers.service.ts:62-99 | an evaluated tree is marked exactly if the round got through or it was marked before; a round that got through leaves no bad key unreported |
| `BadPerformers.SkippedIff` | src/common/prover/duties/bad-performers.service.ts:101-117 | a tree is skipped if and only if it is marked and every threshold and curve id just read is stored already; otherwise it is stored with what was read, the loaded tree being used again if it has that root |
| `BadPerformerSkips.SkipIsHarmless` | src/common/prover/duties/bad-performers.service.ts:101-117 | whenever a tree is skipped the parameters just read give the same keys, or error, as the stored ones, given every curve id is below the curves count |
| `BadPerformerSkips.SkipIsHarmlessIff` | src/common/prover/duties/bad-performers.service.ts:198-222 | without that: skipping changes nothing exactly if the first leaf on a curve beyond the count, if any, had no stored threshold either |
| `BadPerformerMarks.PromiseKeptIff` | src/common/prover/duties/bad-performers.service.ts:62-117 | over every run of a service started fresh, with nothing new the stored tree is skipped exactly if its latest evaluation got through, before every round and after the last, if and only if no round loses |
| `BadPerformerMarks.KeepsPromiseIff` | src/common/prover/duties/bad-performers.service.ts:62-117 | one round keeps this if and only if it neither has nothing to evaluate while the stored tree is unmarked, nor evaluates a marked tree without getting through |
| `BadPerformerMarks.QuietRoundMarks` | src/common/prover/duties/bad-performers.service.ts:62-68 | for all services and reads: after a round with nothing to evaluate the stored tree is skipped, whatever became of it |
| `BadPerformerMarks.CompletedIsReported` | src/common/prover/duties/bad-performers.service.ts:47-99 | in every run, losing or not, all bad keys of a tree whose latest evaluation got through are reported |
| `BadPerformerMarks.SkippedTreeIsReported` | src/common/prover/duties/bad-performers.service.ts:101-117 | in a run in which no round loses, a skipped tree has all its bad keys reported, under the stored and the newly read parameters |
| `BadPerformerMarks.LosingRoundForgetsIff` | src/common/prover/duties/bad-performers.service.ts:76-97 | after a losing round that evaluates the tree is skipped, and it leaves a bad key nobody has reported if and only if keys are due and the contracts could not be asked, the limit was below their number, or a batch failed other than the last one after it had landed |
| `BadPerformerMarks.LeavesUnreportedIff` | src/common/prover/duties/bad-performers.service.ts:47-99 | the same condition says of every evaluating round whether it leaves an unreported bad key |
| `BadPerformerMarks.DeferredIsRetriedIff` | src/common/prover/duties/bad-performers.service.ts:94-115 | after an unfinished round the same tree and parameters are evaluated again if and only if the tree was not already marked |
| `BadPerformerMarks.StaleReadsReportAgain` | src/common/prover/duties/bad-performers.service.ts:271-278 | the assumption on reads is needed: after a partial send a round with the same reads reports the same keys again |
| `BadPerformerMarks.LoweredThresholdForgotten` | src/common/prover/duties/bad-performers.service.ts:113-115 | rounds after which a key made bad by a lowered threshold is never sent |
| `BadPerformerMarks.MissingTreeMarksUnfinished` | src/common/prover/duties/bad-performers.service.ts:63-68 | the quiet round is reachable: two rounds from a fresh start after which a bad key is never sent |
| `BadPerformersService.PayloadPairs` | src/common/prover/duties/bad-performers.service.ts:144-162 | for the leaves of a batch in any order the payload is built and pairs each with its own key |
| `BadPerformersService.BadPerformersService.PrepareStrikesTreeForProcessing` | src/common/prover/duties/bad-performers.service.ts:101-117 | the skip test, and the fields a tree to process leaves |
| `BadPerformersService.BadPerformersService.GetBadPerformersKeys` | src/common/prover/duties/bad-performers.service.ts:224-269 | the loop is the evaluation |
| `BadPerformersService.StrikesSum` | src/common/prover/duties/bad-performers.service.ts:239 | the loop adds up all the strikes |
| `BadPerformersService.BadPerformersService.GetUnprovenNonWithdrawnBadPerformers` | src/common/prover/duties/bad-performers.service.ts:47-60 | preparing, evaluating and filtering in that order |
| `BadPerformersService.BadPerformersService.ProcessBadPerformerBatches` | src/common/prover/duties/bad-performers.service.ts:119-142 | one payload lands for each batch up to a failure, and each reports its own batch |
| `BadPerformersService.BadPerformersService.SendBadPerformanceProofs` | src/common/prover/duties/bad-performers.service.ts:62-99 | the cap, the batches, the mark and the result |
| `BadPerformersService.BadPerformersService.HandleBadPerformers` | src/common/prover/prover.service.ts:33-50 | a whole round is the round of the run lemmas |
| `Balances.GetUnprovenBalanceChangeProofs` | src/common/prover/duties/balances.service.ts:47-81 | exactly the keys whose validator is in the state and whose balance is provable when judged alone |
| `Balances.GetKeyAddedBalances` | src/common/contracts/staking-module-contract.service.ts:46-64 | each key's own confirmed balance, in order |
| `Balances.ReadRange` | src/common/contracts/staking-module-contract.service.ts:50-57 | the range of an operator holds all its keys of the list and none the module does not have |
| `Balances.ProvableIffTriggered` | src/common/prover/duties/balances.service.ts:30-45 | provable is the same as having reached one trigger balance while the confirmed balance leaves room |
| `Balances.ProvableInWei` | src/common/prover/duties/balances.service.ts:30-45 | the test in wei: the confirmed deposits leave room below the reportable maximum and are less than the balance is worth, by more than the minimum delta unless the validator is exiting or has reached that maximum |
| `Balances.ProvableIsSettledByConfirming` | src/common/prover/duties/balances.service.ts:30-45 | growth keeps a balance provable, confirming it ends that |
| `Balances.PassesIffProvable` | src/common/prover/duties/balances.service.ts:56-70 | a key passes the pre-filter and the test on the batched reads exactly if it is provable on its own |
| `FeeHistory.GasFeeHistory.UpdateGasFeeHistoryCache` | src/common/providers/execution/execution.ts:271-307 | an update puts min(delay, days * 7200) entries at the end of the cache and cuts as many at its start |
| `FeeHistory.GasFeeHistory.FetchFees` | src/common/providers/execution/execution.ts:284-299 | the loop of requests ends with exactly the fees of the requested blocks, oldest first |
| `FeeHistory.RequestsOverlapInOneBlock` | src/common/providers/execution/execution.ts:286-299 | ceil(total / max) ranges of 1 to max blocks, the first up to the latest block, neighbours sharing exactly one block |
| `FeeHistory.RequestsHaveNoGap` | src/common/providers/execution/execution.ts:286-299 | together they hold exactly the blocks from the oldest requested to the latest |
| `FeeHistory.FetchedIsAnswers` | src/common/providers/execution/execution.ts:292-297 | the fetched list is the answers to those ranges, oldest first |
| `FeeHistory.CatchesUpIff` | src/common/providers/execution/execution.ts:279-299 | every block since the last update is fetched exactly if the update is due and neither one request nor the cache is too small for them |
| `FeeHistoryOverlaps.CacheIsBounded` | src/common/providers/execution/execution.ts:271-307 | however updates, failed requests and percentiles interleave, the cache holds fees of blocks seen, never exceeds days * 7200 and never shrinks |
| `FeeHistoryOverlaps.OnceThroughoutIff` | src/common/providers/execution/execution.ts:276-306 | in every interleaving from an empty cache no block is put in by two updates if and only if no update ends whose range meets that of one that ended before |
| `FeeHistoryOverlaps.OnceIffUndisturbed` | src/common/providers/execution/execution.ts:276-306 | if one request is enough for each update: if and only if no update ends in between another one's beginning and its end |
| `FeeHistoryOverlaps.MeetIff` | src/common/providers/execution/execution.ts:284-299 | the ranges of two updates meet exactly if some block is fetched by both |
| `FeeHistoryOverlaps.NewestThroughoutIff` | src/common/providers/execution/execution.ts:306 | the last block is at all times the newest put in if and only if no update ends after one that reached further |
| `FeeHistoryOverlaps.ActsAloneIff` | src/common/providers/execution/execution.ts:276-306 | whatever the cache holds, the end of an update acts as the undivided update if and only if as many entries are still due as it fetched (or there is nothing to do); so it is if the last block is what it was at its beginning |
| `FeeHistoryOverlaps.UndisturbedIsSequential` | src/common/providers/execution/execution.ts:271-307 | a run in which no update is disturbed leaves the cache of its updates and percentiles one after another |
| `FeeHistoryOverlaps.EndDropsOldestIff` | src/common/providers/execution/execution.ts:302-305 | in every state, overlapping updates included, a percentile and then the end of an update leaves exactly the newest old entries if and only if the oldest ones are the cheapest and equally cheap ones on both sides of the cut are in the order of their age |
| `FeeHistoryOverlaps.UndisturbedUpdate` | src/common/providers/execution/execution.ts:271-307 | an update that nothing comes between is one step |
| `FeeHistoryRuns.RunByBlocks` | src/common/providers/execution/execution.ts:271-307 | following block numbers in place of fees gives the cache of the run |
| `FeeHistoryRuns.DropsOldestIff` | src/common/providers/execution/execution.ts:302-305 | in every run from an empty cache, an update after a percentile leaves exactly the newest of the old entries if and only if each of the n oldest blocks has a fee at most every other cached one |
| `FeeHistoryRuns.CutsOldestIff` | src/common/providers/execution/utils/common.ts:8-9 | for every cache and number of entries cut after a percentile, the condition under which the newest are left |
| `FeeHistoryRuns.QueryThenUpdate` | src/common/providers/execution/utils/common.ts:8-9 | the update cuts the n cheapest entries, of equally cheap ones the older |
| `FeeHistoryRuns.FallingFeesKeepTheOldest` | src/common/providers/execution/utils/common.ts:8-9 | while fees fall from block to block it keeps the oldest instead |
| `FeeHistory.GasFeeHistory.RecommendedFee` | src/common/providers/execution/utils/common.ts:8-18 | the percentile of the cache, which is left sorted |
| `FeeHistory.PercentileIgnoresOrder` | src/common/providers/execution/utils/common.ts:8-18 | the percentile depends on the entries only, not on their order |
| `FeeHistory.PercentileIsBounded` | src/common/providers/execution/utils/common.ts:10-17 | it is half the sum, rounded down, of the two sorted neighbours of its index, which are one at a whole index |
| `FeeHistory.PercentileEnds` | src/common/providers/execution/utils/common.ts:10-12 | at 0 and 100 it is the least and the greatest entry |
| `FeeHistory.PercentileIsMonotone` | src/common/providers/execution/utils/common.ts:8-18 | it grows with p |
| `FeeHistory.GasFeeHistory.IsFeePerGasAcceptable` | src/common/providers/execution/execution.ts:228-254 | acceptable exactly if the base fee is within the cap and the percentile of the updated history |
| `Execution.SubmitsIffSafe` | src/common/providers/execution/execution.ts:120-222 | a transaction is handed over if and only if nothing fails on the way, there is a signer, it is no dry run, the gas limit is within the cap and the base fee within cap and percentile; success means it was mined with status 1 |
| `Execution.ThrowsIff` | src/common/providers/execution/execution.ts:120-222 | an attempt ends on high fees if and only if it gets as far as the fee check with a history, it is no dry run and the fees are not low; in the same way exactly when it ends as a dry run, without a signer, on the emulated call or on sending |
| `Execution.HistoryAfter` | src/common/providers/execution/execution.ts:228-254 | an attempt that reads the fees leaves the history updated and sorted, any other as it was |
| `Execution.RetriesAreSafe` | src/common/providers/execution/execution.ts:85-118 | at most max-retries + 1 attempts and one transaction, handed over in the last attempt only; while retries are left another attempt is made exactly if high fees are all that was in the way |
| `Execution.RunIsCounted` | src/common/providers/execution/execution.ts:85-118 | a run leaves the pending gauge as it was, counts a confirmation exactly if its transaction was mined and an error exactly if something is thrown to the caller, which a missing signer and a dry run are not |
| `Execution.Execution.Execute` | src/common/providers/execution/execution.ts:120-222 | the steps of an attempt in their order |
| `Execution.Execution.TryOnce` | src/common/providers/execution/execution.ts:91-116 | one turn of the loop: what is counted, and whether it is tried again |
| `Execution.Execution.ExecuteDaemon` | src/common/providers/execution/execution.ts:85-118 | the loop is the run of the lemmas; the pending gauge is back at its entry value, the other counters tell the outcome |

## Left out

- CLI mode of the transaction sender and its prompts; of CLI mode only the skipping of unknown keys in the strikes tree is modelled.
- HTTP and RPC clients, URL joining, their retries, IPFS, streaming and worker threads: what they answer is a parameter.
- SSZ decoding and the byte layout of objects; SHA-256 and hex: digests are terms.
- The contracts: only what they answer, and that it reflects earlier reports where a property needs it.
- Timing, sleeps, metrics other than the transaction counters, logging, health, configuration parsing, wiring.
- The KeysAPI freshness check, the operator filter, slashing and full-withdrawal extraction, the payload field copies: easy members only.
- Sending of withdrawal, slashing and balance payloads, which are plain loops over finished payloads.
- The priority fee: it does not decide whether a transaction is sent.
- `isFirstBlockInEpoch` fetches a header at times, and the balance duty fetches one before it reads keys; these awaits are not steps of their own, and the balance duty's read is taken at its start, when the index is at most newer later. When balance proving is off for the module, that duty reads no keys; the model lets it.
- VerifyProof: digests are free terms, so collisions of SHA-256 are not modelled.
- RecommendedFee: the index is an exact rational; the rounding of the floating-point index in the original, and a percentile outside 0 to 100, are not modelled.
- CacheIsBounded: TX_GAS_FEE_HISTORY_DAYS is not negative here, and a request is for at least one block.
- ChunksPartition: the batch size is positive; the configuration does not demand it.
- UpdateGasFeeHistoryCache: one update at a time; updates that overlap are modelled by `FeeHistoryOverlaps` on values.
- DropsOldestIff: for updates that do not overlap; `EndDropsOldestIff` is the result for any.
- LosingRoundForgetsIff: for trees whose bad keys can be evaluated; where that fails there is no list of them.
- ExecuteDaemon: one call at a time; concurrent calls share the gauge in the original.
