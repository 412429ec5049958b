# Verified model of the alkanes indexer

This project models the block indexer and proves what it keeps: the decoders that turn
trace events into rows, the workers that decode a block concurrently, the sequence of
database commits that stores it, the height-following loops around it, the resilient RPC
wrapper it calls through, and a few algorithmic cores of the vendored deezel library.

`dafny verify dfyconfig.toml` checks everything.

## How it is organised

- Values and text: `Arithmetic`, `Options`, `Seqs`, `Numerals`, `Tokens`, `TxidHex`.
- Decoders: `Events` (the stable order), `BestReturn` (the candidate scan), `Decoding`,
  `PoolMint`, `PoolBurn`, `PoolCreate`, `PoolSwap`, `Subfrost`. Each has methods that
  follow the loops, proved equal to a specification function, and lemmas that say what
  the rows mean.
- Storage: `Tables` (tables as maps and multisets), `Chunking` (parameter limits),
  `Store` (the class `Database` with its chunked statements).
- The pipeline: `Blocks` (what a block writes), `Commits` (its eight commits),
  `Convergence` (interleaved runs of any job), `Pipeline` (the block job), `Indexer` (the
  imperative run), `Integrity` and `Maintenance` (purging a height).
- Concurrency inside a block: `Protostones` (one transaction), `WorkerPool` (batches,
  shared results, fatal cell), `BlockDecode` (the whole block, down to the stored tables).
- Following the chain: `Poller`, `Coordinator`, `PoolHistory`, `Rpc`.
- Library cores: `CoinSelection`, `GapScan`, `RuneAmount`, `Varint`.

Fetching, decoding and tracing a transaction is a fixed function of the transaction. A
database transaction is one atomic step. Clocks, tips, failures, crashes, RPC replies and
jitter are inputs, and the results hold for all of them. A block without OP_RETURN
transactions is a run whose first seven commits have nothing to write.

## Where the code decides against its description

- The repository's README (line 113) says that the poller only advances after success and
  retries a failed height. The first tick does not: it sets the pointer whatever happened
  (src/poller.rs:43-49). `Poller.FailedOpeningIsPassed` is such a run, `Poller.NextAttempt`
  states the rule with that exception, and coverage starts above the first tip. After a drop
  the new tip's own height is not processed again (`Poller.AttemptAfterDrop`,
  `Poller.DroppedTipIsSkipped`).
- The repository's README (line 303) promises a clean reindex. An empty replacement is
  skipped for all derived tables but PoolSwap (src/pipeline.rs:160,
  src/helpers/poolmint.rs:216). `Pipeline.ReindexCleanWhen` gives the exact condition,
  and `Pipeline.StaleMintSurvives` a block where stale rows stay.
- A creation can be lost although a complete return exists (`PoolCreate.CompleteCreationLost`);
  `PoolCreate.CreationRowMeaning` is the exact condition. A burn candidate can be chosen and
  then rejected (`PoolBurn.CandidateRejected`); `PoolBurn.BurnRowMeaning` is exact all the same.
- A transaction can pay less than its fee estimate, since coins are selected for the amount
  alone (`CoinSelection.ExactCoinPaysNoFee`). It does exactly when the largest coins that are
  just enough for the amount are not enough for the fee of spending them
  (`CoinSelection.CreateTransaction`).
- A refresh at a tip below stored heights can leave the tip without the fetched amounts
  (`PoolHistory.LowerTipCanMiss`); `PoolHistory.RefreshShowsWhen` is the exact condition.

## Model

| member | source | states |
|---|---|---|
| Numerals.SpellingsNormalise | src/helpers/poolswap.rs:32-57 | the hi/lo words, the "0x" form, the decimal form and, below 2^64, the JSON number of any u128 all normalise to that u128 |
| Numerals.DecimalTextAccepted | src/helpers/poolswap.rs:44-57 | decimal text of any length is accepted exactly when its value is at most 2^128-1, and then read as that value |
| Numerals.HexTextAccepted | src/helpers/poolswap.rs:39-57 | the same for hexadecimal digits behind "0x" |
| Numerals.PrintReadsBack | src/helpers/poolswap.rs:26-30 | a printed number is a non-empty numeral of its radix whose positional value is the number |
| Numerals.PrintInjective | src/helpers/poolswap.rs:59-73 | two ids print alike if and only if they are the same number |
| Numerals.HexToDecimalKeepsValue | src/helpers/poolswap.rs:26-42 | hex-to-decimal conversion is defined exactly where the hexadecimal text is, and its decimal text normalises to the same number |
| Tokens.CalculateTokenTotal | src/helpers/poolswap.rs:59-73 | stepwise saturating addition gives min(true sum, 2^128-1) |
| Tokens.TotalIgnoresOrder | src/helpers/poolswap.rs:59-73 | the total is the same for any order of the entries |
| Tokens.TextIdsAreNumericIds | src/helpers/poolswap.rs:59-73 | comparing ids as decimal text is comparing block and tx as numbers |
| TxidHex.PairsAreReversed | src/helpers/protostone.rs:39-47 | byte pairs of valid hexadecimal text come out in reverse order and lower case |
| TxidHex.LittleEndianTwice | src/helpers/protostone.rs:39-47 | reversing twice restores the text: lower-cased if it is valid hexadecimal, untouched otherwise |
| Events.OrderedIsStableSort | src/helpers/poolmint.rs:107-119 | the ordering is sorted by vout and event weight, a permutation, and keeps the order inside every (vout, weight) class |
| Events.ReorderingsSortAlike | src/helpers/poolmint.rs:107-119 | any two lists with the same order inside every class are sorted into the same list |
| Events.SwapIsReordering | src/helpers/poolmint.rs:107-119 | exchanging two neighbours of different classes is such a reordering |
| Events.ReturnsFollowInvokes | src/helpers/poolmint.rs:107-147 | once sorted, every return follows every invoke of its explicit vout |
| BestReturn.PickBest | src/helpers/poolmint.rs:142-164 | the running-best loop returns the lexicographically least candidate, latest on ties, and none exactly when there is no candidate |
| BestReturn.BestIsUnique | src/helpers/poolmint.rs:142-164 | that candidate is unique |
| PoolMint.DecodeMint | src/helpers/poolmint.rs:121-214 | the two-pass decoder of one invoke yields the row PoolMint.MintRowMeaning describes |
| PoolMint.IndexMints | src/helpers/poolmint.rs:69-226 | the block loops collect those rows transaction by transaction in event order |
| PoolMint.MintRowMeaning | src/helpers/poolmint.rs:141-212 | a row is successful if and only if a later same-vout return completes the mint; it then states the exact positive differences of the least-paying, latest such return, and zeros otherwise |
| PoolMint.MintSearchesWholeTx | src/helpers/poolmint.rs:107-147 | for an invoke with an explicit vout, success depends on all returns of the transaction, wherever they arrived |
| PoolMint.MintRowsIgnoreReordering | src/helpers/poolmint.rs:106-214 | rows are unchanged by every class-preserving reordering of the events |
| PoolBurn.DecodeBurn | src/helpers/poolburn.rs:119-215 | the two-pass decoder of one invoke yields the row PoolBurn.BurnRowMeaning describes |
| PoolBurn.IndexBurns | src/helpers/poolburn.rs:68-227 | the block loops collect those rows transaction by transaction in event order |
| PoolBurn.BurnScoreMeaning | src/helpers/poolburn.rs:139-166 | a return is a candidate without completing the burn only when the invoke brought no LP |
| PoolBurn.BurnRowMeaning | src/helpers/poolburn.rs:139-213 | a row is successful if and only if LP came in and a later same-vout return pays out both tokens net while returning less LP; the amounts are the exact differences of the least-LP, latest such return, and zeros otherwise |
| PoolBurn.NoLpNoBurn | src/helpers/poolburn.rs:155-190 | without incoming LP no return completes a burn and the row is unsuccessful with zero amounts, whatever was chosen |
| PoolBurn.CandidateRejected | src/helpers/poolburn.rs:155-190 | a concrete invoke without LP for which a return is chosen and then rejected |
| PoolBurn.BurnSearchesWholeTx | src/helpers/poolburn.rs:105-145 | for an invoke with an explicit vout, success depends on all returns of the transaction |
| PoolBurn.BurnRowsIgnoreReordering | src/helpers/poolburn.rs:104-215 | rows are unchanged by every class-preserving reordering of the events |
| PoolCreate.CollectIds | src/helpers/poolcreate.rs:150-163 | the collected ids are exactly the ids other than the pool that came in, without repeats |
| PoolCreate.DistinctIdsMeaning | src/helpers/poolcreate.rs:150-163 | the same for the specification the rows are built on |
| PoolCreate.DecodeCreation | src/helpers/poolcreate.rs:137-231 | the decoder of one invoke yields the row PoolCreate.CreationRowMeaning describes |
| PoolCreate.DetectCreationsOfTx | src/helpers/poolcreate.rs:107-233 | one transaction: its creation rows in event order |
| PoolCreate.IndexCreations | src/helpers/poolcreate.rs:235-315 | the block loop collects the rows of all transactions |
| PoolCreate.CreationRowMeaning | src/helpers/poolcreate.rs:164-231 | a row exists if and only if the least-paying, latest LP-minting return keeps both deposits; it states that return's exact net flow |
| PoolCreate.CompleteCreationLost | src/helpers/poolcreate.rs:164-231 | a concrete creation whose complete return loses to a refund: the mint decoder's "success if an eligible return exists" is false here |
| PoolCreate.CreationRowsIgnoreReordering | src/helpers/poolcreate.rs:115-178 | rows are unchanged by every class-preserving reordering of the events |
| PoolSwap.SwapOpcodeIsThree | src/helpers/poolswap.rs:75-87 | comparing the opcode as decimal text selects exactly the delegate calls of opcode 3 |
| PoolSwap.FindMatchingReturnStrict | src/helpers/poolswap.rs:99-132 | the strict scan finds the first later return on the vout that delivers the expected token in an allowed amount |
| PoolSwap.FindMatchingReturn | src/helpers/poolswap.rs:89-97 | the fallback finds the first later return on the vout |
| PoolSwap.MatchedReturnMeaning | src/helpers/poolswap.rs:89-132 | the matched return is the first that delivers, else the first at all, and none exactly when no return answers |
| PoolSwap.SwapRowMeaning | src/helpers/poolswap.rs:169-257 | a swap succeeds exactly when a return answers and the trade is one-way in one direction; the row names the pair in that direction with the full amounts, zeros otherwise |
| PoolSwap.IndexSwaps | src/helpers/poolswap.rs:134-262 | the block loops collect the rows, over the events in their order of arrival |
| Subfrost.AddUp | src/helpers/subfrost.rs:96-125 | the amount loop gives the capped true sum and whether any entry counted |
| Subfrost.ScanWrap | src/helpers/subfrost.rs:88-130 | the accumulating wrap scan stops at the first successful return with frBTC, and its amount is that return's total |
| Subfrost.ScanUnwrap | src/helpers/subfrost.rs:190-245 | the unwrap scan stops at the first successful return and totals what it sends back |
| Subfrost.WrapRowMeaning | src/helpers/subfrost.rs:61-157 | a wrap succeeds if and only if some later same-vout successful return carries frBTC; the amount is that of the first |
| Subfrost.UnwrapRowMeaning | src/helpers/subfrost.rs:159-275 | an unwrap succeeds if and only if some later same-vout return succeeded; the amount is what came in minus what the first such return sends back, not below zero |
| Subfrost.IndexWraps | src/helpers/subfrost.rs:61-157 | the block loops collect the wrap rows |
| Subfrost.IndexUnwraps | src/helpers/subfrost.rs:159-275 | the block loops collect the unwrap rows |
| Subfrost.FrostRowsIgnoreReordering | src/helpers/subfrost.rs:73-97 | wrap and unwrap rows are unchanged by every class-preserving reordering of the events |
| Chunking.ChunksMeaning | src/db/transactions.rs:62-70 | chunks are non-empty, no longer than asked, and concatenate to the input |
| Chunking.ChunkCount | src/helpers/protostone.rs:190-196 | up to n*k elements make at most k chunks of n |
| Chunking.StatementFits | src/db/transactions.rs:15-27 | rows times width never exceeds 65535 parameters |
| Chunking.Placeholders | src/db/transactions.rs:70-82 | the placeholders of a statement are numbered exactly 1..rows*width |
| Tables.PutAllPermutes | src/db/transactions.rs:8-48 | upserting items with distinct keys gives the same table in any order |
| Tables.PutAllTwice | src/db/transactions.rs:8-48 | upserting the same items again changes nothing |
| Store.NoConflict | src/db/transactions.rs:93-132 | after the delete, items with distinct keys never reach the conflict arm: the insert just adds them |
| Store.Database.UpsertTransactions | src/db/transactions.rs:8-48 | the chunked upsert puts all items over the old rows, and never fails on distinct keys |
| Store.Database.ReplaceTraceEvents | src/db/transactions.rs:51-90 | the chunked replace is: drop the rows of the given txids, then add all items |
| Store.Database.ReplaceProtostones | src/db/transactions.rs:93-132 | the same for decoded protostones, keyed by txid, vout and index |
| Store.Database.ReplaceRows | src/db/transactions.rs:166-544 | the same for each of the six derived tables |
| Store.Database.LoadBook | src/db/transactions.rs:136-163 | the address book holds, per (txid, vout), the address of the least protostone index that has one |
| Blocks.DerivedRowsOwn | src/pipeline.rs:130-156 | every derived row carries a txid of the block and the block's height |
| Blocks.ReorderedContent | src/pipeline.rs:93-118 | reordering the decoded transactions changes neither the block's keys nor what its commits write |
| Commits.CommitProgress | src/pipeline.rs:120-186 | a commit of any run keeps every other run's progress, advances its own, and is refused exactly when it would be refused without interference |
| Convergence.OneRun | src/pipeline.rs:120-186 | an uninterrupted run succeeds exactly when no constraint is violated, and then leaves the goal tables |
| Convergence.RunsConverge | src/pipeline.rs:120-186 | for any block content: interleaved, crashed and restarted runs that finish leave the tables of one run |
| Pipeline.SingleRunIndexes | src/pipeline.rs:57-186 | one run of a block stores exactly the rows its decoders yield, or is refused by a constraint |
| Pipeline.InterleavedRunsConverge | src/pipeline.rs:120-186 | any number of runs of one block, interleaved, crashing after any commit and starting over with other completion orders: every table is wholly untouched or wholly done, and once one run finished the tables are those of a single run |
| Convergence.RerunConverges | src/pipeline.rs:120-186 | for any block content: a full run from wherever interleaved runs were left ends as a run over the initial tables |
| Pipeline.RerunRecovers | src/pipeline.rs:120-186 | a full re-run after any crashes and interleavings of runs of the block, in any completion order, ends in the tables of one uninterrupted run, or is refused as that would be |
| Pipeline.ReindexCleanWhen | src/pipeline.rs:156-163 | a run leaves a derived table clean of stale rows exactly when it is PoolSwap, or the block yields rows for it, or it held none of the block's transactions |
| Pipeline.StaleMintSurvives | src/helpers/poolmint.rs:216-224 | a concrete block that yields no mints and leaves a stored mint of its transaction in place |
| Indexer.StoreBaseRows | src/pipeline.rs:120-125 | the base transaction: upsert, then the two replaces, atomically |
| Indexer.InsertAllowedMeaning | src/db/transactions.rs:218-287 | the creation insert is accepted exactly when its pools are known and no pool is stored twice |
| Indexer.StoreRows | src/db/transactions.rs:166-216 | one derived table's commit replaces its rows or leaves everything as it was |
| Indexer.StoreTable | src/pipeline.rs:156-173 | the commit of one derived table loads the book, decodes and replaces, skipping empty replacements except for swaps |
| Indexer.StoreMark | src/db/blocks.rs:35-58 | the block marker is upserted by height and refused exactly when another height holds the hash |
| Indexer.ProcessBlock | src/pipeline.rs:57-186 | the eight commits in code order succeed and leave the tables exactly as the single run of the model |
| Integrity.BaseKeepsAligned | src/pipeline.rs:93-125 | the base commit keeps every trace event and protostone row at its parent transaction's height, also when a transaction moves height |
| Integrity.AlwaysAligned | src/bin/dbctl.rs:88-113 | after any sequence of commits of any runs and purges, every such row has a parent at its height and every prefix of the next purge respects the foreign keys |
| Integrity.PurgeKeepsForeignKeys | src/bin/dbctl.rs:88-113 | on aligned tables no prefix of the delete order breaks a foreign key |
| Integrity.TransactionDeleteAccepted | src/bin/dbctl.rs:97-106 | with foreign keys alone, the transaction delete is accepted if and only if no remaining row refers to a transaction of that height from another one |
| Integrity.PurgeMeaning | src/bin/dbctl.rs:88-113 | a purge removes exactly the rows of the height from every table and leaves Pool alone |
| Integrity.PurgeUndoesProcessing | src/bin/dbctl.rs:88-113 | processing a block and purging its height restores the tables if and only if nothing was stored at the height before, and nothing of the block's transactions in any table the run touches |
| Maintenance.PurgeBlock | src/bin/dbctl.rs:88-113 | the deletes in code order, each accepted by the foreign keys, amount to that purge |
| Protostones.DecodeTx | src/helpers/protostone.rs:212-330 | the nested loops over protostones and replies give the outcome the next three lemmas describe |
| Protostones.CollectMeaning | src/helpers/protostone.rs:228-330 | one item per protostone at its shadow vout; the flags say whether any trace was answered and any answer succeeded; events imply a trace |
| Protostones.EventsMeaning | src/helpers/protostone.rs:269-302 | an event is stored if and only if some answered trace contains it, at the shadow vout of its protostone |
| Protostones.EventsNameShadowVouts | src/helpers/protostone.rs:269-302 | every stored event carries the shadow vout of a traced protostone, and only invokes name a target |
| Protostones.ShadowVoutsApart | src/helpers/protostone.rs:228-241 | shadow vouts count on from past the real outputs, so no two coincide while they fit i32 |
| Protostones.FatalWhen | src/helpers/protostone.rs:212-330 | a transaction is fatal if and only if it is unavailable or one of its traces failed with anything but the known upstream error |
| Protostones.DoneKeys | src/helpers/protostone.rs:228-241 | the keys of a decoded transaction's protostones are pairwise distinct |
| WorkerPool.BatchesMeaning | src/helpers/protostone.rs:190-196 | the batches are non-empty, at most ten, and concatenate to the transactions |
| WorkerPool.EveryScheduleAgrees | src/helpers/protostone.rs:198-360 | every complete interleaving is Ok exactly when no item is fatal, with results a permutation of the sequential ones, and otherwise reports the error of a fatal item |
| WorkerPool.StepInv | src/helpers/protostone.rs:198-345 | one move of any worker keeps: results are what all workers passed, and a raised error belongs to a fatal item |
| WorkerPool.StepProgresses | src/helpers/protostone.rs:198-345 | every move of an unfinished worker uses up one step: no interleaving runs for ever or gets stuck |
| WorkerPool.RunPool | src/helpers/protostone.rs:198-360 | the pool under an arbitrary scheduler ends, with that result |
| BlockDecode.DecodeAndTraceForBlock | src/helpers/protostone.rs:163-360 | Ok exactly when no OP_RETURN, non-ignored transaction is fatal; the results are then a permutation of the sequential decode |
| BlockDecode.DecodedWellFormed | src/helpers/protostone.rs:228-241 | with distinct txids, all transaction and protostone keys of a decoded block are distinct |
| BlockDecode.StoredTablesIgnoreSchedule | src/pipeline.rs:85-186 | two attempts that both get through store the same tables, whatever the interleaving of their workers |
| Poller.BlockPoller.Turn | src/poller.rs:27-89 | one tick changes pointer, backoff and log as the state machine says |
| Poller.BlockPoller.ProcessUpTo | src/poller.rs:58-68 | heights are processed in order up to the first failure, and the pointer stops before it |
| Poller.EveryPassedHeightIsCovered | src/poller.rs:33-75 | over every run of tips, failures and drops: each height up to the pointer and above some observed tip was processed successfully, after the most recent tip seen below it |
| Poller.NextAttempt | src/poller.rs:43-68 | unless a lower tip is seen, a failed height is attempted again next and a successful one is followed by its successor; the first tick alone moves on after a failure |
| Poller.FailedOpeningIsPassed | src/poller.rs:43-49 | a concrete run: height 5 fails in the first tick, the pointer moves there, and 6 is attempted next |
| Poller.AttemptAfterDrop | src/poller.rs:70-73 | after a drop to tip t the next attempt is t+1: t is not processed again |
| Poller.DroppedTipIsSkipped | src/poller.rs:70-73 | a concrete run: after a drop from 5 to 3 the next attempt is 4, and 3 is never attempted |
| Coordinator.CatchUpCoordinator.RunPass | src/coordinator.rs:20-46 | one pass changes stored progress and log as the state machine says, with failures and crashes before recording |
| Coordinator.RecordedMeansProcessed | src/coordinator.rs:20-46 | in every orderly log, every height from the start to the last recorded one was processed successfully |
| Coordinator.RecordedOnlyGrows | src/progress.rs:12-30 | the stored height never goes down |
| Coordinator.CatchUpIsComplete | src/coordinator.rs:20-46 | across any passes, failures, crashes and restarts: everything from the start height to stored progress succeeded, only the height right after it is attempted, and a recorded height never again |
| PoolHistory.PoolStore.LatestStates | src/db/pool_state.rs:4-30 | per pool the amounts of its greatest stored height |
| PoolHistory.PoolStore.InsertSnapshots | src/db/pool_state.rs:32-51 | insert-or-ignore: new (pool, height) rows are added, stored ones stay |
| PoolHistory.PoolStore.InsertNewPools | src/db/pools.rs:28-60 | insert-or-ignore: the pools stored afterwards are the old ones, unchanged, and the fetched ones, each new one with the tokens of its first entry |
| PoolHistory.PoolStore.Refresh | src/helpers/pools.rs:97-158 | a refresh stores a snapshot exactly for the fetched pools whose amounts changed |
| PoolHistory.RefreshShowsWhen | src/helpers/pools.rs:126-154 | after a refresh at any tip, the tip shows a fetched pool's amounts if and only if: they equal the pool's top snapshot and the tip showed them already, or they differ from it and the tip holds no other amounts |
| PoolHistory.EarlierLookupsStay | src/helpers/pools.rs:126-154 | a refresh never changes what lower heights show |
| PoolHistory.HistoryIsExact | src/helpers/pools.rs:126-154 | over refreshes at strictly increasing tips, looking up any of those tips, also later, gives exactly what was fetched there |
| PoolHistory.HistoryStaysCompressed | src/helpers/pools.rs:126-154 | adjacent snapshots of a pool always differ |
| PoolHistory.LowerTipCanMiss | src/helpers/pools.rs:126-154 | a concrete lower tip at which a refresh shows nothing of what it fetched |
| Rpc.Retry | src/helpers/rpc.rs:67-108 | the loop ends at the first attempt that does not fail retriably, is exhausted exactly when the first max_attempts all fail so, and pauses for the computed delays in between |
| Rpc.DelayFits | src/helpers/rpc.rs:103-106 | the u128 intermediate of the delay fits for every 64-bit base and jitter if and only if the attempt is at most 65 |
| Rpc.DelaysDouble | src/helpers/rpc.rs:103-106 | the first pause is base plus jitter, each later one doubles the part without jitter until the cap holds; whatever the jitter, no pause is shorter than the one before |
| Rpc.EveryRunIsGuarded | src/helpers/rpc.rs:28-108 | in every run of concurrent callers: free plus held permits is constant, no call passes the breaker within the cooldown of any earlier trip, calls end within max_attempts, and trips come exactly with exhaustion |
| CoinSelection.RankedIsStableSort | reference/deezel/crates/deezel-common/src/provider.rs:182-183 | the sort is descending, a permutation, and keeps the order of equal amounts |
| CoinSelection.TopCoinsDominate | reference/deezel/crates/deezel-common/src/provider.rs:182-201 | the k largest coins are worth at least any k or fewer of the coins |
| CoinSelection.SelectCoins | reference/deezel/crates/deezel-common/src/provider.rs:182-201 | fails for lack of funds exactly when all coins fall short; otherwise the choice reaches the target with the minimum number of coins; overflows exactly when that many largest coins exceed u64 |
| CoinSelection.PayFrom | reference/deezel/crates/deezel-common/src/provider.rs:751-809 | pushing, popping and pushing outputs gives the amount first, and change exactly when it exceeds dust |
| CoinSelection.FeeDecided | reference/deezel/crates/deezel-common/src/provider.rs:786-805 | change and underpayment are decided by the given coins, the amount and the fee function, before anything is built |
| CoinSelection.ExactCoinPaysNoFee | reference/deezel/crates/deezel-common/src/provider.rs:751-805 | a concrete wallet that could afford the fee, of which only a coin of exactly the amount is spent: the implied fee is 0 |
| CoinSelection.CreateTransaction | reference/deezel/crates/deezel-common/src/provider.rs:731-813 | the inputs are the fewest largest coins that reach the amount; change is paid if and only if they leave more than 546 after the fee, and the implied fee is then the estimate, else at most the estimate plus 546; it is below the estimate if and only if those coins do not also cover their fee |
| GapScan.ScanChain | reference/deezel/crates/deezel-common/src/provider.rs:1152-1173 | with finitely many used addresses the scan ends and has met every used index before the first gap of twenty |
| GapScan.LastUsedIndex | reference/deezel/crates/deezel-common/src/provider.rs:1145-1176 | the result is the largest used index over both chains if and only if some chain using it has no gap below it |
| GapScan.ShortGapsSuffice | reference/deezel/crates/deezel-common/src/provider.rs:1145-1176 | when every gap is shorter than twenty the result is the largest used index, or 0 |
| RuneAmount.PrintedAmountReadsBack | reference/deezel/crates/deezel-common/src/runestone.rs:555-604 | every u128 amount is printed and read back at divisibility 0 to 38, and the power of ten fits u128 exactly there |
| RuneAmount.FormatIsCanonical | reference/deezel/crates/deezel-common/src/runestone.rs:555-572 | a printed amount is its whole part and its fraction digits without trailing zeros |
| RuneAmount.ParsedAmountPrintsCanonically | reference/deezel/crates/deezel-common/src/runestone.rs:555-604 | printing any parsed text gives its canonical form: no sign, no leading zeros, no trailing zeros in the fraction |
| Varint.DecodeVarint | reference/deezel/crates/deezel-common/src/runestone_enhanced.rs:450-477 | the shift-and-or loop returns the positional base-128 value modulo 2^128, looks at no more than 19 bytes, and fails exactly on truncated or overlong input |
| Varint.ReadEncoded | reference/deezel/crates/deezel-common/src/runestone_enhanced.rs:450-477 | any u128, encoded and followed by anything, is read back with its length |
| Varint.ReadIsCanonicalWhen | reference/deezel/crates/deezel-common/src/runestone_enhanced.rs:450-477 | the bytes read are the encoding of the value if and only if the value was not cut off and no zero byte ends them |
| Varint.DecodeIntegers | reference/deezel/crates/deezel-common/src/runestone_enhanced.rs:410-422 | the outer loop decodes the payload as the recursive reader does, reporting the position of a failure |
| Varint.PayloadRoundTrip | reference/deezel/crates/deezel-common/src/runestone_enhanced.rs:410-477 | decoding the concatenated encodings of any u128 list returns the list |
| Varint.ExtractProtocolData | reference/deezel/crates/deezel-common/src/runestone_enhanced.rs:188-209 | the values paired with tag 13, in order |
| Varint.ExtractAllTags | reference/deezel/crates/deezel-common/src/runestone_enhanced.rs:212-236 | every tag with a value is a key for exactly its values in order, and no other tag is a key |
| Varint.FieldsRoundTrip | reference/deezel/crates/deezel-common/src/runestone_enhanced.rs:188-236 | encoded (tag, value) fields are decoded and grouped back under their tags |

## Left out

- PoolSwap.IndexSwaps: amounts stay whole numbers; the cast to floating point before storing is not modelled, because its rounding is outside this model. The swap decoder does not sort its events, so no reordering claim is made for it.
- Protostones.DecodeTx: the index of a protostone stays a natural number; its cast to i32 is exact below 2^31.
- Rpc.EveryRunIsGuarded: tripping the breaker is one atomic step although the code performs two stores, and the clock does not go back.
- Rpc.Retry: the delay is computed without overflow, which is what the code does up to attempt 65 (Rpc.DelayFits); what it does beyond, and a base delay of 0, for which drawing the jitter panics, are not modelled.
- RuneAmount.PrintedAmountReadsBack: a power of ten or an amount beyond u128 counts as a panic, as in a build with overflow checks; the release profile does not enable them, so there the arithmetic wraps instead, which is not modelled.
- CoinSelection.CreateTransaction: the fee is a given function of the size; the product in 32-bit floating point is not modelled, nor are address lookup, scripts and serialisation.
- GapScan.ScanChain: indices are unbounded naturals; the 32-bit index and the derivation error for hardened indices are not modelled.
- Varint.ExtractAllTags: values are kept as u128; the JSON number conversion of values above 64 bits is not modelled.
- RuneAmount.ParsedAmountPrintsCanonically: text is a sequence of characters; the byte length of non-ASCII text, which only changes which parse error is reported, is not modelled.
- PoolHistory.PoolStore.InsertNewPools: pool and snapshot inserts are not chunked in the code, and the parameter limit on one oversized statement is not modelled. A pool is identified by its (block, tx) pair rather than by its surrogate id.
- Indexer.ProcessBlock: the time stored with the block marker is a given input; the publish notification after the last commit is left out.
- The transactionIndex column, which follows completion order, and the createdAt and updatedAt columns.
- The ClockIn, Profile, CorpData and CuratedPools tables: nothing in the indexer writes them, and the purge of the two ClockIn tables is left out with them.
- JSON-RPC, Postgres, Redis and tokio themselves; runestone and protostone decoding by external crates, which are not part of this model.
- Waiting between ticks and passes, log output, command-line parsing and the progress reset command.
- The helper find_last_success_return_with_lp, which nothing calls.
