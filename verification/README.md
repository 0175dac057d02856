# Soulon verification model

Dafny models of the stateful parts of Soulon, with the properties they are meant
to keep. `dafny verify dfyconfig.toml` checks the whole project.

The indexer (`soulon-backend`) is the core. `EventIndex` says what a file-backed
event store means: an index in memory beside an append-only log, and what one
Upsert does to both when either of its appends may fail. `FileEventStore` is the
store object, proved against that meaning method by method. `StoreRuns` proves
laws over all runs (`UpsertEffects` spells out what one Upsert leaves in either
store): crash consistency, the store invariant, linkage, and when
retries converge. `StateRebuild` relates the API server's own reconstruction of
the chain state to the store's. `PostgresTables` holds the relational store (the
tables with their keys and UNIQUE columns, then the store object),
`BackendSimulation` relates it to the file store, and `Retention` covers its
window and archive. `Worker`, `Queue`, `Pipeline` and `PipelineRuns` put the
producer, the bounded queue, the retrying consumer and process restarts around
the store as interleaved steps; `PostgresPipeline` and `RetentionRestarts` do the
same over the relational store. `PagedExport` and `CsvExport` cover the client's
export of the event log.

`Bank`, `Staking`, `Gov` and `Distribution` are the chain's keepers
(`soulon-deep-chain`), each as functions on values with their laws and as an
object proved against them; `ChainApp` is the transaction router with
whole-application laws. `Bip21`, with `FormEncoding` and `Utf8` below it, is the
payment-URI printer and parser (`soulon-wallet`), and `RoundRobin` the gateway's
node selection.

Clocks, append outcomes, transaction commits and the log found by each fetch are
parameters, so every theorem holds for all of them. Maps are walked in an
arbitrary order wherever Go does. 64-bit integers of the chain and the gateway
wrap as Go's do; sums that would not fit are covered by separate laws.

## What turned out false

Each of these is proved, with the condition under which the expected law holds.

- IDs of blocks overwritten at a height of 0 or less stay in `seen`
  (`StoreRuns.StaleIdAtHeightZero`, `StoreRuns.SeenStaysExactUnless`), and from
  then on the API's rebuilt total differs from the store's
  (`StateRebuild.RebuildAgrees`).
- An Upsert that fails between its rollback record and its block, when retried,
  rolls back and counts the reorg again unless the event's parent agrees with the
  chain left below (`StoreRuns.UnsettledDiverges`, `StoreRuns.RetryConvergence`).
- The relational store refuses a block that repeats the hash of a block that
  stays stored, where the file store accepts it (`BackendSimulation.StepSimulates`).
- The archive keeps only the first row ever pruned at a height; a later row that
  differs is deleted (`Retention.PrunedIsArchived`, `Retention.SecondPruneIsLost`).
- With retention on, a restart after the tip has passed the window rolls the whole
  window back and counts a reorg that never was
  (`RetentionRestarts.RestartLeavesNoTraceIff`).
- A descending export during which matching events are appended is not the log's
  reverse (`PagedExport.DescendingNeedsQuiet`).
- A redelegation refused for capacity has already debited the source validator
  (`Staking.RedelegateFailure`, `ChainApp.FailureChangesNothing`).
- Delegations wrap at the int64 bound (`Staking.DelegateOverflow`,
  `Staking.LedgerHoldsIffFits`), and a met quorum is lost when the total voted does
  (`Gov.VoteKeepsQuorum`, `Gov.QuorumStaysMet`, `Gov.OverflowReverts`).
- With several nodes the gateway's index can turn negative once its counter reaches
  2 to the 63; `RoundRobin.PanicsExactly` says for which counters, nodes and health.

## Model

| member | source | states |
|---|---|---|
| `StoreRuns.CrashConsistency` | soulon-backend/internal/indexer/store.go:51-151 | After any run of Upserts, failing appends and restarts the index in memory is the one a restart reads back, and every prefix of the log reads back as an index satisfying the store invariant |
| `StoreRuns.StoreInvariant` | soulon-backend/internal/indexer/store.go:51-120 | Over all runs with positive heights: seen is exactly the stored IDs, no two heights share an ID, the tip is the highest stored block (0 and empty when none), State's total is the number of stored blocks |
| `StoreRuns.SeenStaysExactUnless` | soulon-backend/internal/indexer/store.go:80-102 | An accepted event keeps seen equal to the stored IDs if and only if it does not overwrite a block at a height of 0 or less |
| `StoreRuns.StaleIdAtHeightZero` | soulon-backend/internal/indexer/store.go:153-205 | The failing case by example: two blocks at height 0 leave the first one's ID in seen |
| `StoreRuns.AcceptedBecomesTip` | soulon-backend/internal/indexer/store.go:98-103 | An accepted block is stored as delivered and is the tip if and only if its height is positive, or 0 while nothing higher is stored |
| `StoreRuns.LinkageStep` | soulon-backend/internal/indexer/store.go:153-205 | An accepted event keeps adjacent stored blocks hash-linked if and only if it lies above the tip, or nothing is stored right below it, or its parent hash does not contradict that block |
| `StoreRuns.RollbackKeepsLinkage` | soulon-backend/internal/indexer/store.go:57-100 | Rollback events, and Upserts that stop after their rollback, cannot break linkage |
| `StoreRuns.RetryConvergence` | soulon-backend/internal/indexer/store.go:80-102 | Any failed attempts followed by a success leave the index one fault-free Upsert leaves, for every failure schedule, if and only if the ID is already known or the parent hash agrees with the chain left below the rollback point |
| `StoreRuns.WellParentedConverges` | soulon-backend/internal/indexer/store.go:80-102 | In particular when the parent hash is empty, or is that of the highest stored block below the event, or no such block exists |
| `StoreRuns.UnsettledDiverges` | soulon-backend/internal/indexer/store.go:83-100 | Otherwise one attempt that fails between the two appends, followed by a success, counts the same reorg twice |
| `StoreRuns.RollbackRetries` | soulon-backend/internal/indexer/store.go:57-69 | Failed attempts at a rollback event change nothing at all |
| `EventIndex.UpsertStaysConsistent` | soulon-backend/internal/indexer/store.go:51-103 | Whatever appends fail, the index stays equal to the replay of the log, and the log only grows |
| `EventIndex.GoodLogInv` | soulon-backend/internal/indexer/store.go:126-151 | Replaying a log the store wrote yields an index with the tip at the highest block and every stored ID known; with positive heights, exactly the stored IDs |
| `EventIndex.ForkClearsTheWay` | soulon-backend/internal/indexer/store.go:153-190 | No fork reported means the event lies above the tip; a reported fork's rollback leaves the event above the new tip with its height free |
| `EventIndex.UpsertKeepsSound` | soulon-backend/internal/indexer/store.go:51-103 | One Upsert of any outcome keeps the full invariant when block heights are positive |
| `EventIndex.TipUnique` | soulon-backend/internal/indexer/store.go:207-218 | There is one tip per set of stored blocks, so map order cannot show |
| `UpsertEffects.BlockUpsertLeaves` | soulon-backend/internal/indexer/store.go:51-103 | A block event with a known name is a Duplicate and changes nothing; any other is accepted and leaves exactly the blocks below its height (at or below the tip), below the height before it but never below 1 (above the tip with a parent that is not the tip), or all of them, with itself on top, its reorg counted and its records logged |
| `UpsertEffects.RollbackUpsertLeaves` | soulon-backend/internal/indexer/store.go:57-69 | A rollback event is refused exactly when its height is not positive; otherwise exactly the blocks below it remain, it is logged under its height and counted |
| `UpsertEffects.FailedUpsertLeaves` | soulon-backend/internal/indexer/store.go:63-100 | An Upsert fails for storage exactly when an append it needs fails: without the first nothing has changed, without the second the rollback stands alone |
| `Events.RollbackIdsDiffer` | soulon-backend/internal/indexer/store.go:61-61 | Rollbacks from different heights or at different clocks get different IDs |
| `FileEventStores.LogFile.Append` | soulon-backend/internal/indexer/store.go:220-236 | The line is added at the end, or the file is as before and the caller is told |
| `FileEventStores.FileEventStore.Open` | soulon-backend/internal/indexer/store.go:39-49 | Opening a store on a file gives the index its log replays to and leaves the file alone |
| `FileEventStores.FileEventStore.Upsert` | soulon-backend/internal/indexer/store.go:51-103 | New index, new log and answer are those of the one-step specification the theorems are about, for every clock and append outcome |
| `FileEventStores.FileEventStore.LogRollback` | soulon-backend/internal/indexer/store.go:92-96 | Record logged, blocks forgotten and reorg counted together, or nothing at all |
| `FileEventStores.FileEventStore.LoadSeen` | soulon-backend/internal/indexer/store.go:126-151 | The loop over the file reaches exactly the replayed index |
| `FileEventStores.FileEventStore.RequiresRollback` | soulon-backend/internal/indexer/store.go:153-175 | The fork point, or none, of the specification |
| `FileEventStores.FileEventStore.ApplyRollback` | soulon-backend/internal/indexer/store.go:177-190 | In any map order, exactly the blocks at or above the height and their IDs go, and the tip is recomputed |
| `FileEventStores.FileEventStore.ApplyBlock` | soulon-backend/internal/indexer/store.go:192-205 | The block is filed under its height with its ID known, and the tip moves unless a higher one is stored |
| `FileEventStores.FileEventStore.RecalculateTip` | soulon-backend/internal/indexer/store.go:207-218 | In any map order, the highest block at a height of 0 or more, else 0 and empty |
| `FileEventStores.FileEventStore.State` | soulon-backend/internal/indexer/store.go:111-120 | Tip, number of known IDs and reorg count as of the index |
| `FileEventStores.FileEventStore.Count` | soulon-backend/internal/indexer/store.go:105-109 | The number of known IDs |
| `StateRebuild.SurvivingHash` | soulon-backend/internal/api/server.go:791-809 | A height survives exactly when some record names it that no later one renames or erases, and then with that record's hash |
| `StateRebuild.RebuildAgrees` | soulon-backend/internal/api/server.go:791-824 | After any run the API's reconstruction equals the store's incremental state in every field if and only if no block was ever logged at a height of 0 or less |
| `StateRebuild.RebuildState` | soulon-backend/internal/api/server.go:791-824 | The handler's loops, in any map order, end in a state whose tip, total and reorg count are those of the log's surviving hashes |
| `StateRebuild.RebuiltIsUnique` | soulon-backend/internal/api/server.go:810-823 | There is one such state per log |
| `StateRebuild.TotalSplits` | soulon-backend/internal/api/server.go:791-824 | What the store calls total is the rebuilt total plus every ID ever logged at a height of 0 or less |
| `StateRebuild.DropFrom` | soulon-backend/internal/api/server.go:796-802 | Deleting keys while walking the map removes exactly the heights at or above the rollback point |
| `UpsertEffects.RowUpsertLeaves` | soulon-backend/internal/indexer/postgres_store.go:120-202 | The same for the tables with any retention: which rows remain, the new row field by field, the state row, what pruning archives; without retention a new event is refused exactly when a remaining row has its hash |
| `UpsertEffects.RowRollbackLeaves` | soulon-backend/internal/indexer/postgres_store.go:97-119 | A rollback event on the tables: refused, or exactly the rows below its height remain, logged and counted |
| `UpsertEffects.UncommittedLeavesNothing` | soulon-backend/internal/indexer/postgres_store.go:86-90 | What does not commit changes nothing and is reported as a failure |
| `UpsertEffects.MaintenanceLeaves` | soulon-backend/internal/indexer/postgres_store.go:231-265 | A maintenance pass leaves exactly the rows within the window below the top row, archives the others and refreshes the state row |
| `BackendSimulation.BackendsAgree` | soulon-backend/internal/indexer/postgres_store.go:78-202 | Event by event, over every sequence with positive heights in which a block hash names one height, both backends give the same created flag or error, tip, total, reorg count and log |
| `BackendSimulation.RunsSimulate` | soulon-backend/internal/indexer/postgres_store.go:78-202 | The simulation relation holds after every such sequence |
| `BackendSimulation.StepSimulates` | soulon-backend/internal/indexer/postgres_store.go:120-202 | From related stores one event gets the same answer and related results if and only if it does not repeat the hash of a block that stays stored, where the UNIQUE column refuses what the file accepts |
| `BackendSimulation.UpdateArmNeverFires` | soulon-backend/internal/indexer/postgres_store.go:166-186 | In every reachable database the row's height is free when it is inserted, so ON CONFLICT(height) DO UPDATE never updates |
| `Retention.RetentionWindow` | soulon-backend/internal/indexer/postgres_store.go:187-201 | After every step of every run: stored heights lie in (tip-r, tip], at most r of them, and the state row matches the tables |
| `Retention.RunKeeps` | soulon-backend/internal/indexer/postgres_store.go:514-607 | Every step of a run keeps rows unique and non-empty, the state row fresh, the window, and the archive equal to the first row pruned at each height |
| `Retention.AcceptedSurvivesPruning` | soulon-backend/internal/indexer/postgres_store.go:187-201 | Pruning never removes the block just accepted: it is stored and is the tip |
| `Retention.PrunedIsArchived` | soulon-backend/internal/indexer/postgres_store.go:555-598 | Every height ever pruned is in the archive, and a row pruned there is the archived one if and only if it equals the row pruned there first |
| `Retention.PrunedRowIsKeptIff` | soulon-backend/internal/indexer/postgres_store.go:555-598 | A pruned row ends up in the archive if and only if the archive held nothing at its height, or that same row |
| `Retention.SecondPruneIsLost` | soulon-backend/internal/indexer/postgres_store.go:555-598 | The failing case by example: with a window of one, a two-block chain and a fork of it leave the fork's pruned row nowhere |
| `PostgresStores.PostgresStore.Upsert` | soulon-backend/internal/indexer/postgres_store.go:78-202 | New tables and answer are those of the specification; any failure restores what the transaction started from |
| `PostgresStores.PostgresStore.UpsertRollbackTx` | soulon-backend/internal/indexer/postgres_store.go:97-119 | A rollback event is refused, or logged, applied, counted and reflected in the state row |
| `PostgresStores.PostgresStore.UpsertBlockTx` | soulon-backend/internal/indexer/postgres_store.go:120-202 | Duplicate check, rollback, insert, refresh, pruning and refresh end in the specified tables, or fail where a UNIQUE column is broken |
| `PostgresStores.PostgresStore.RequiresRollbackTx` | soulon-backend/internal/indexer/postgres_store.go:485-512 | The fork point, or none, read off the tables |
| `PostgresStores.PostgresStore.LogRollbackTx` | soulon-backend/internal/indexer/postgres_store.go:153-161 | The record is logged, the rows go and the reorg is counted |
| `PostgresStores.PostgresStore.InsertBlockTx` | soulon-backend/internal/indexer/postgres_store.go:163-186 | Event logged and row stored; reports whether the UNIQUE columns still hold |
| `PostgresStores.PostgresStore.ApplyRollbackTx` | soulon-backend/internal/indexer/postgres_store.go:457-483 | Exactly the rows below the height remain |
| `PostgresStores.PostgresStore.AppendEventTx` | soulon-backend/internal/indexer/postgres_store.go:419-455 | One more record at the end of the log table |
| `PostgresStores.PostgresStore.RefreshStateTx` | soulon-backend/internal/indexer/postgres_store.go:514-540 | The state row gets the top row's height and hash and the row count, and keeps the reorg count |
| `PostgresStores.PostgresStore.CleanupOldBlocksTx` | soulon-backend/internal/indexer/postgres_store.go:542-607 | Rows below the window move to the archive where no row is archived yet, or the pass fails on a UNIQUE column |
| `PostgresStores.PostgresStore.RunMaintenance` | soulon-backend/internal/indexer/postgres_store.go:231-265 | Refresh, prune and refresh, all or nothing |
| `PostgresStores.PostgresStore.State` | soulon-backend/internal/indexer/postgres_store.go:215-229 | The state row |
| `PostgresPipelineRuns.StoredRowsAreLinked` | soulon-backend/internal/indexer/postgres_store.go:78-202 | The process over this store with retention off: for any interleaving, failing transactions, drops and restarts, rows at adjacent heights are linked by hash |
| `PostgresPipelineRuns.StoredRowsAreExact` | soulon-backend/internal/indexer/postgres_store.go:78-202 | With no event dropped and no restart the stored heights are exactly 1 to the tip and at most one reorg is counted |
| `PostgresPipelineRuns.RestartsAreTransparentInTables` | soulon-backend/internal/indexer/postgres_store.go:78-202 | Without simulated reorgs and drops, under any restarts, the rows are exactly the main blocks 1 to the tip and no reorg is counted |
| `RetentionRestarts.RowsAreTheWindow` | soulon-backend/internal/indexer/postgres_store.go:187-201 | With retention on, under any restarts, maintenance and failing transactions, the rows are exactly the main blocks in the window below the tip |
| `RetentionRestarts.ReorgCountedIff` | soulon-backend/internal/indexer/postgres_store.go:485-512 | In every such state a committed attempt counts a reorg if and only if it is at block 1 and the tip has passed the window |
| `RetentionRestarts.RestartLeavesNoTraceIff` | soulon-backend/internal/indexer/postgres_store.go:130-201 | After a restart has caught up with the old tip the database is as before if and only if block 1 is still stored, or nothing is; otherwise the rows are the same and exactly one more reorg is counted |
| `PipelineRuns.StoredBlocksAreLinked` | soulon-backend/internal/indexer/worker.go:160-278 | For any reorg interval, interleaving, failing appends, skipped events and restarts, two blocks stored at adjacent heights are linked by hash |
| `PipelineRuns.StoredHeightsAreExact` | soulon-backend/internal/indexer/worker.go:160-278 | With no event dropped and no restart the stored heights are exactly 1 to the tip and at most one reorg is counted |
| `PipelineRuns.RestartsAreTransparent` | soulon-backend/internal/indexer/worker.go:160-174 | Without simulated reorgs, under any number of process restarts and with no event dropped, the store holds exactly the main blocks 1 to the tip and no reorg |
| `PipelineRuns.AttemptAdvances` | soulon-backend/internal/indexer/worker.go:238-257 | A success with the n-th emitted event moves the store to stage n+1 of the expected chain; a failure leaves it at stage n, even half-way through |
| `PipelineRuns.StepsArePersist` | soulon-backend/internal/indexer/worker.go:199-278 | The consumer's single attempts, taken until the event is finished, do exactly what the retry loop does in one call |
| `Pipelines.TickEmits` | soulon-backend/internal/indexer/worker.go:160-197 | From the first reorg on, ticks emit the same two blocks for ever; every tick continues that one sequence |
| `Workers.Worker.GenerateTickEvents` | soulon-backend/internal/indexer/worker.go:160-197 | Producer fields and emitted events after a tick are those of the tick specification |
| `Workers.Worker.DropHashes` | soulon-backend/internal/indexer/worker.go:191-193 | Exactly the hashes in the range are deleted |
| `Workers.Worker.constructor` | soulon-backend/internal/indexer/worker.go:103-107 | A worker starts at height 1 with no hashes |
| `Workers.PersistWithRetry` | soulon-backend/internal/indexer/worker.go:238-278 | Store and result after the loop are those of the retry specification, for every schedule of failures, policy and cancellation |
| `Workers.PersistConverges` | soulon-backend/internal/indexer/worker.go:238-257 | A persist that succeeds, after whatever failures, leaves the index one fault-free Upsert leaves, when the event is known or fits the chain below |
| `Workers.PersistExplained` | soulon-backend/internal/indexer/worker.go:238-278 | A persist makes attempts until one is answered, the tries run out or the context ends, reports whether the block was new, and follows the failure policy |
| `Pipelines.PolicyIsHeld` | soulon-backend/internal/indexer/worker.go:240-277 | In every reachable state the consumer has stopped only under the stop policy, dropped only under the skip policy, and given up only after the configured number of failures |
| `Pipelines.FailedAttemptCounts` | soulon-backend/internal/indexer/worker.go:240-277 | A failed attempt uses one retry; the last one drops the event or stops the consumer, by policy |
| `Pipelines.EmissionIsNamed` | soulon-backend/internal/indexer/worker.go:163-188 | Emitted blocks are named and described by their height and branch |
| `Workers.HashesDiffer` | soulon-backend/internal/indexer/worker.go:163-179 | Generated hashes never collide across heights or branches |
| `MemoryQueues.FirstInFirstOut` | soulon-backend/internal/indexer/queue.go:16-53 | In any interleaving of producer, relay and consumer, what was received followed by what is queued is exactly what was sent, and capacity is respected |
| `MemoryQueues.SendsUntilFull` | soulon-backend/internal/indexer/queue.go:20-33 | Nobody receiving, exactly as many events as the capacity (one when unbuffered) are accepted, the first ones |
| `MemoryQueues.OldestArrives` | soulon-backend/internal/indexer/queue.go:39-51 | One turn of the relay is enough for the oldest event to be received |
| `MemoryQueues.MemoryQueue.Publish` | soulon-backend/internal/indexer/queue.go:26-33 | A send completes exactly when the channel has room (or, unbuffered, the relay is waiting) and then adds the event at the end |
| `MemoryQueues.MemoryQueue.Pass` | soulon-backend/internal/indexer/queue.go:39-51 | The relay takes the oldest buffered event when its hands are empty |
| `MemoryQueues.MemoryQueue.Receive` | soulon-backend/internal/indexer/queue.go:47-47 | The consumer gets the event the relay holds, if any |
| `MemoryQueues.MemoryQueue.Backlog` | soulon-backend/internal/indexer/queue.go:55-57 | The number of buffered events |
| `Pipelines.QueueIsBounded` | soulon-backend/internal/indexer/queue.go:20-24 | In every reachable system state the channel holds at most its capacity and the relay at most one event |
| `Pipelines.PublishKeepsOrder` | soulon-backend/internal/indexer/queue.go:26-33 | Publishing loses, repeats and reorders nothing in flight |
| `Pipelines.RelayKeepsOrder` | soulon-backend/internal/indexer/queue.go:35-53 | Neither does relaying |
| `Pipelines.TakeKeepsOrder` | soulon-backend/internal/indexer/worker.go:199-201 | Neither does the consumer's receive |
| `PagedExport.AscendingExport` | wallet-app/src/lib/eventExport.ts:73-119 | Over a log that grows between fetches, an ascending export is exactly the filtered log as of the last fetch, in order, with no gap or repeat (its first pageSize*maxPages items when cut off), and refuses only when too many records are reported |
| `PagedExport.DescendingExport` | wallet-app/src/lib/eventExport.ts:73-119 | While the matching events do not change, a descending export is exactly their reverse, or its first pages |
| `PagedExport.DescendingSources` | wallet-app/src/lib/eventExport.ts:90-107 | Each item of a descending export over a growing log is the matching event at the place its fetch saw it |
| `PagedExport.DescendingNeedsQuiet` | wallet-app/src/lib/eventExport.ts:86-112 | Every item of a descending export over a growing log, cut off or not, stands where the last fetch would list it if and only if no matching event was appended during the export |
| `PagedExport.DescendingValuesNeedQuiet` | wallet-app/src/lib/eventExport.ts:86-112 | When no matching record is repeated, its contents are the last listing (or its first pages) if and only if the same holds |
| `PagedExport.CollectIsFaithful` | wallet-app/src/lib/eventExport.ts:86-118 | The loop's result is faithful from any page on whenever listings only grow at the end |
| `PagedExport.RefusedAtOnce` | soulon-backend/internal/api/server.go:137-141 | A request with parameters out of range ends the export at its first fetch |
| `PagedExport.CapacityIsProduct` | wallet-app/src/lib/eventExport.ts:86-107 | n full pages hold pageSize * n records |
| `PagedExport.CollectAllEvents` | wallet-app/src/lib/eventExport.ts:73-119 | Result and number of fetches are those of the export specification, including cancellation and both limits |
| `PagedExport.FilterKeeps` | soulon-backend/internal/api/server.go:886-901 | Filtering keeps exactly the matching events, each once, in log order |
| `PagedExport.FilterMembers` | soulon-backend/internal/api/server.go:886-901 | An event is kept if and only if it is in the log, has the wanted type if one is given, and lies within the bounds given, ends included |
| `PagedExport.FilterEvents` | soulon-backend/internal/api/server.go:886-901 | The subsequence of events that match type and height bounds |
| `PagedExport.SelectEvents` | soulon-backend/internal/api/server.go:903-924 | The requested slice of the events in the requested order, and whether more follow |
| `PagedExport.HandleIndexerEvents` | soulon-backend/internal/api/server.go:136-175 | The page, total and has-more flag of the ordered filtered log, or a refusal of out-of-range limits, offsets and height bounds |
| `CsvExport.CsvRoundTrip` | wallet-app/src/lib/eventExport.ts:14-28 | A quote-aware reader after section 2 of RFC 4180 recovers the header and every field of every row, whatever commas, quotes and line breaks they hold |
| `CsvExport.ColumnsHoldWhatTheyName` | wallet-app/src/lib/eventExport.ts:3-28 | Read back, every event has its own row, and the cell under each of the six header names is the field of that name |
| `CsvExport.CsvIsInjective` | wallet-app/src/lib/eventExport.ts:14-28 | Two event lists with the same CSV agree on every exported field |
| `CsvExport.EscapedReadsBack` | wallet-app/src/lib/eventExport.ts:5-8 | An escaped value followed by a separator reads back as the value |
| `Bip21.PrintedUriParses` | soulon-wallet/src/core/bip21.ts:78-142 | The printer accepts exactly the inputs whose normalised parts are valid, and parsing its URI gives the input back with scheme, address, amount and memo normalised |
| `Bip21.ParametersRead` | soulon-wallet/src/core/bip21.ts:126-141 | For any list of parameters: the first amount, which must be valid; as memo the first memo, or else the first message, trimmed; nothing else |
| `Bip21.MessageIsSecondBest` | soulon-wallet/src/core/bip21.ts:133-139 | A message alone serves as the memo; beside a memo, in either order, it does not |
| `Bip21.ParseRefuses` | soulon-wallet/src/core/bip21.ts:100-115 | Which error a text gets: no colon after something, an invalid scheme, nothing after it, an invalid address |
| `Bip21.AmountsAreNumbers` | soulon-wallet/src/core/bip21.ts:26-26 | The amount pattern takes exactly whole numbers without leading zeros, with a point and decimals or not |
| `Bip21.AmountsArePositive` | soulon-wallet/src/core/bip21.ts:66-76 | With up to 321 decimals an amount is valid exactly when it is not zero |
| `Bip21.PatternsTake` | soulon-wallet/src/core/bip21.ts:27-28 | Which characters schemes and addresses may hold |
| `Bip21.LowerCaseIs` | soulon-wallet/src/core/bip21.ts:47-47 | Which letters change and to what, as far as schemes can tell |
| `Bip21.DefaultScheme` | soulon-wallet/src/core/bip21.ts:79-79 | An input without a scheme is printed as one with bitcoin |
| `Bip21.TrimDropsOnlySpace` | soulon-wallet/src/core/bip21.ts:35-35 | Trimming takes white space off the ends and nothing else |
| `Bip21.WhiteSpaceIs` | soulon-wallet/src/core/bip21.ts:28-35 | White space by code point |
| `Bip21.ParsedUriReprints` | soulon-wallet/src/core/bip21.ts:78-142 | For every text the parser accepts, printing its result gives a URI that parses to that same result |
| `Bip21.ParsedIsNormal` | soulon-wallet/src/core/bip21.ts:100-142 | Everything the parser returns satisfies the printer's validators |
| `Bip21.ValidatedIsGood` | soulon-wallet/src/core/bip21.ts:34-76 | Exactly the texts whose trimmed (for schemes lower-cased) form is valid are accepted, as that form; the others get the validator's own error |
| `FormEncoding.FormRoundTrip` | soulon-wallet/src/core/bip21.ts:93-97 | Query parameters survive serializing (section 5.2 of the WHATWG URL Standard) and parsing (section 5.1) |
| `FormEncoding.PairsWritten` | soulon-wallet/src/core/bip21.ts:93-93 | Pairs are written name=value, joined by ampersands (section 5.2) |
| `FormEncoding.ByteWritten` | soulon-wallet/src/core/bip21.ts:93-93 | A byte is written as itself, a plus, or a percent sign and two upper-case digits (section 5.2) |
| `Utf8.Utf8RoundTrip` | soulon-wallet/src/core/bip21.ts:127-127 | Every text of Unicode scalar values survives UTF-8 encoding and decoding |
| `RoundRobin.FairShare` | soulon-backend/internal/gateway/router.go:83-98 | Over any n consecutive calls on n nodes a healthy node is returned exactly as often as its cyclic distance from the previous healthy node: at least once, and once when that neighbour is healthy |
| `RoundRobin.FailsIffNoneHealthy` | soulon-backend/internal/gateway/router.go:90-97 | A call that does not panic, whatever the counter, fails if and only if no node is healthy, and otherwise returns a healthy node |
| `RoundRobin.AllHealthyRotates` | soulon-backend/internal/gateway/router.go:86-96 | With every node healthy calls go round the nodes in order; without nodes there is an error |
| `RoundRobin.GapExists` | soulon-backend/internal/gateway/router.go:90-96 | Every healthy node has such a distance |
| `RoundRobin.PanicsExactly` | soulon-backend/internal/gateway/router.go:89-96 | For every counter value, a call panics if and only if there are several nodes and the start is negative (unless a multiple of their number with the first node healthy), or the scan crosses 2 to the 63 past unhealthy nodes onto a negative index |
| `RoundRobin.PanicsAtTwo63` | soulon-backend/internal/gateway/router.go:89-91 | A witness: with three nodes and the counter reaching 2 to the 63 |
| `RoundRobin.Router.NextNode` | soulon-backend/internal/gateway/router.go:83-98 | Counter and answer after a call are those of the wrap-around specification |
| `RoundRobin.Router.constructor` | soulon-backend/internal/gateway/router.go:30-43 | All nodes start healthy, in the given order, with the counter at 0 |
| `Bank.BankConservation` | soulon-deep-chain/x/bank/module.go:33-67 | If the genesis sum fits in an int64, after any run of transfers no balance is negative or too large and they still add up to the genesis sum |
| `Bank.SendConserves` | soulon-deep-chain/x/bank/module.go:48-67 | A transfer moves exactly the amount without wrapping and keeps the sum; a refused one changes nothing |
| `Bank.SendAnswers` | soulon-deep-chain/x/bank/module.go:48-67 | A transfer goes through exactly when sending is enabled, the amount positive, both parties named, and the sender holds the amount or pays itself; otherwise the first of these that fails is reported and nothing changes |
| `Bank.GenesisAnswers` | soulon-deep-chain/x/bank/module.go:36-45 | Loading succeeds exactly when no entry is bad, and otherwise reports the first bad one |
| `Bank.GenesisGives` | soulon-deep-chain/x/bank/module.go:36-44 | Every address gets exactly its own entries added up, as an int64 holds the sum |
| `Bank.ExportRestores` | soulon-deep-chain/x/bank/module.go:33-87 | InitGenesis of the exported balances restores exactly those balances |
| `BankKeepers.Keeper.InitGenesis` | soulon-deep-chain/x/bank/module.go:33-46 | Balances and result of loading the entries one by one, stopping at a bad one |
| `BankKeepers.Keeper.Send` | soulon-deep-chain/x/bank/module.go:48-67 | New balances and result of the transfer specification |
| `BankKeepers.Keeper.ExportBalances` | soulon-deep-chain/x/bank/module.go:73-87 | All balances, each address once, in address order, whatever order the map is walked in |
| `BankKeepers.Insert` | soulon-deep-chain/x/bank/module.go:78-78 | Ordered insertion keeps the addresses sorted, distinct and complete |
| `Staking.RedelegateFailure` | soulon-deep-chain/x/staking/module.go:73-86 | A refused redelegation changes the state if and only if it was refused for capacity, and then exactly the debited amount is gone |
| `Staking.DelegateAnswers` | soulon-deep-chain/x/staking/module.go:51-71 | A delegation goes through exactly when both parties are named, the amount is positive and the validator has a place; then its one entry gains the amount; otherwise nothing changes and the lack is reported |
| `Staking.RedelegateAnswers` | soulon-deep-chain/x/staking/module.go:73-86 | A redelegation goes through exactly when the amount is positive, both validators are named, the source covers it and the target has a place; then the one entry loses and the other gains the amount |
| `Staking.StakingLedger` | soulon-deep-chain/x/staking/module.go:51-98 | Over any run whose ledger fits at every point: entries are non-negative and name registered validators, the validator limit holds, and TotalDelegation is exactly what was delegated minus what was lost to refused redelegations |
| `Staking.LedgerHoldsIffFits` | soulon-deep-chain/x/staking/module.go:51-98 | At every point of a run no entry is negative and every reported total is the exact ledger, if and only if what each delegator has delegated and not lost fits in an int64 at every point |
| `Staking.LedgerBalances` | soulon-deep-chain/x/staking/module.go:51-98 | The same ledger equation with int64 wrap-around, for every run |
| `Staking.RunInv` | soulon-deep-chain/x/staking/module.go:51-86 | In every reachable state entries name registered validators and the limit holds |
| `Staking.RedelegatePreservesTotal` | soulon-deep-chain/x/staking/module.go:73-86 | A successful redelegation leaves every delegator's total as it was |
| `Staking.DelegateOverflow` | soulon-deep-chain/x/staking/module.go:69-69 | A delegation keeps its entry non-negative if and only if the sum fits in an int64 |
| `StakingKeepers.Keeper.InitGenesis` | soulon-deep-chain/x/staking/module.go:33-49 | Refused for an empty denomination, a limit that is not positive or an unbonding time that does not parse; otherwise a fresh state |
| `StakingKeepers.Keeper.Delegate` | soulon-deep-chain/x/staking/module.go:51-71 | New maps and result of the delegation specification |
| `StakingKeepers.Keeper.Redelegate` | soulon-deep-chain/x/staking/module.go:73-86 | New maps and result, with the debit kept when the delegation part refuses |
| `StakingKeepers.Keeper.TotalDelegation` | soulon-deep-chain/x/staking/module.go:88-98 | The running int64 sum equals the sum of the entries stored as an int64, in any map order |
| `Gov.VoteKeepsQuorum` | soulon-deep-chain/x/gov/module.go:99-139 | An accepted vote keeps a met quorum met if and only if the total voted and the new weight fit in an int64 together |
| `Gov.QuorumStaysMet` | soulon-deep-chain/x/gov/module.go:99-139 | From a state where a quorum is met, it is met at every later point of a run if and only if the total voted then and all weight accepted since fit in an int64 together |
| `Gov.QuorumNeverReverts` | soulon-deep-chain/x/gov/module.go:99-139 | In particular while all weight accepted for the proposal fits, for every quorum |
| `Gov.OverflowReverts` | soulon-deep-chain/x/gov/module.go:110-131 | A witness of the other case: one vote past the int64 range and a met quorum is met no more |
| `Gov.TallySaysWhatWasVoted` | soulon-deep-chain/x/gov/module.go:115-139 | While the accepted weight fits: TotalVoted is all of it, the quorum is met when it reaches its part of the voting power, the proposal is accepted when besides yes outweighs no, and the pass rate is the share of yes |
| `Gov.TallyRefuses` | soulon-deep-chain/x/gov/module.go:116-122 | A tally is refused exactly for an unknown proposal or a voting power that is not positive |
| `Gov.VoteAnswers` | soulon-deep-chain/x/gov/module.go:99-113 | A vote is accepted exactly when it has weight, names a filed proposal and one of the four options; nothing else changes |
| `Gov.SubmitAnswers` | soulon-deep-chain/x/gov/module.go:78-97 | A proposal with proposer and title is filed as given under the next ID without votes; any other is refused |
| `Gov.ProposalIds` | soulon-deep-chain/x/gov/module.go:78-97 | In every run proposal IDs are exactly 1 to nextID-1, each filed under itself |
| `Gov.OptionTotals` | soulon-deep-chain/x/gov/module.go:99-113 | In every run an option's total is the int64 sum of the weights accepted for it |
| `Gov.TotalsAreExact` | soulon-deep-chain/x/gov/module.go:115-126 | While they fit, option totals and TotalVoted are exact |
| `GovKeepers.Keeper.InitGenesis` | soulon-deep-chain/x/gov/module.go:58-76 | Refused for a voting period or quorum that does not parse and for a quorum outside (0, 1]; otherwise no proposals and IDs from 1 |
| `GovKeepers.Keeper.SubmitProposal` | soulon-deep-chain/x/gov/module.go:78-97 | New state, result and ID of the specification |
| `GovKeepers.Keeper.Vote` | soulon-deep-chain/x/gov/module.go:99-113 | New state and result of the specification |
| `GovKeepers.Keeper.Tally` | soulon-deep-chain/x/gov/module.go:115-139 | In any map order, the int64 total, pass rate, quorum and acceptance of the specification |
| `Distribution.RewardsBalance` | soulon-deep-chain/x/distribution/module.go:26-45 | In every run rewards added equal claimed plus outstanding, up to int64 wrap-around |
| `Distribution.RewardsAreExact` | soulon-deep-chain/x/distribution/module.go:26-45 | While what was added fits, exactly so, and nothing negative is owed |
| `Distribution.AddAnswers` | soulon-deep-chain/x/distribution/module.go:26-35 | An addition goes through exactly when the delegator is named and the amount positive, and concerns that delegator only |
| `DistributionKeepers.Keeper.AddReward` | soulon-deep-chain/x/distribution/module.go:26-35 | New rewards and result of the specification |
| `DistributionKeepers.Keeper.ClaimReward` | soulon-deep-chain/x/distribution/module.go:41-45 | Pays out what is owed and forgets it |
| `DistributionKeepers.Keeper.QueryReward` | soulon-deep-chain/x/distribution/module.go:37-39 | What is owed, 0 for strangers |
| `ChainApp.SendIsAnswered` | soulon-deep-chain/app/tx.go:49-53 | A transfer: the field error, the refusal or the success its fields and the sender's balance call for |
| `ChainApp.CoveredTransferGoesThrough` | soulon-deep-chain/app/tx.go:49-53 | In every run from a genesis that fits, an enabled and covered transfer succeeds and moves exactly its amount |
| `ChainApp.DelegateIsAnswered` | soulon-deep-chain/app/tx.go:54-58 | Likewise a delegation, by the validator having a place |
| `ChainApp.RedelegateIsAnswered` | soulon-deep-chain/app/tx.go:59-63 | Likewise a redelegation, by the source entry and the target's place |
| `ChainApp.SubmitIsAnswered` | soulon-deep-chain/app/tx.go:64-72 | A submission is answered with the ID its proposal is filed under |
| `ChainApp.VoteIsAnswered` | soulon-deep-chain/app/tx.go:73-77 | A vote, by its fields and the proposal being filed |
| `ChainApp.TallyIsAnswered` | soulon-deep-chain/app/tx.go:78-87 | In every run a tally is answered by the weights that were accepted: quorum met, and accepted when besides yes outweighs no |
| `ChainApp.RewardIsAnswered` | soulon-deep-chain/app/tx.go:88-92 | A reward, by its fields |
| `ChainApp.ClaimIsAnswered` | soulon-deep-chain/app/tx.go:93-98 | In every run a claim is answered with everything added and not yet claimed, and leaves nothing |
| `ChainApp.OtherIsAnswered` | soulon-deep-chain/app/tx.go:99-107 | Any other type is refused, as a missing field when blank |
| `ChainApp.WhiteSpaceIs` | soulon-deep-chain/app/tx.go:104-107 | White space by code point |
| `ChainApp.FailureChangesNothing` | soulon-deep-chain/app/tx.go:44-102 | A failed transaction changes anything if and only if it is a redelegation refused for capacity, and then only the debited stake |
| `ChainApp.FailuresInRuns` | soulon-deep-chain/app/tx.go:44-169 | The same in every state the application can reach |
| `ChainApp.TouchesOneKeeper` | soulon-deep-chain/app/tx.go:48-101 | A transaction changes at most the keeper of its kind |
| `ChainApp.AppConservesMoney` | soulon-deep-chain/app/tx.go:44-102 | Over every run of any transactions money is conserved and no balance is negative |
| `ChainApp.AppRunLaws` | soulon-deep-chain/app/tx.go:44-169 | Over every run, with no bound: staking ledger and reward books up to int64 wrap-around, proposal numbering and option totals, in terms of the validated transactions |
| `ChainApp.AppQuorumStaysMet` | soulon-deep-chain/app/tx.go:44-169 | Over every run: a met quorum is met at every later point if and only if the total voted then and the weight accepted since fit in an int64 together |
| `ChainApp.AppStakingLedger` | soulon-deep-chain/app/tx.go:54-63 | Over every run whose ledger fits: entries are non-negative and name registered validators, the limit holds and reported totals are exact |
| `ChainApp.AppRewardsAreExact` | soulon-deep-chain/app/tx.go:88-98 | Over every run: rewards added are exactly claimed plus outstanding while they fit |
| `ChainApp.BankSeesTransfers` | soulon-deep-chain/app/tx.go:49-53 | The bank after a run is the bank after the run's validated transfers alone |
| `ChainApp.StakingSeesItsPart` | soulon-deep-chain/app/tx.go:54-63 | Likewise staking |
| `ChainApp.GovSeesItsPart` | soulon-deep-chain/app/tx.go:64-77 | Likewise governance |
| `ChainApp.DistributionSeesItsPart` | soulon-deep-chain/app/tx.go:88-98 | Likewise rewards |
| `ChainApps.ChainApplication.ExecuteTx` | soulon-deep-chain/app/tx.go:44-102 | All four keepers and the answer after a transaction are those of the router specification |

## Left out

- Partial file writes, JSON coding and decoding errors of the log, and other file errors at start-up: an append happens whole or not at all, and a missing file is an empty log.
- Time stamps, partitions and offsets of events; the clock is a parameter that appears only in rollback IDs.
- int64 limits of block heights in the indexer: heights are unbounded there.
- Storage faults of the relational store are one flag for the whole transaction, since a failed transaction leaves no trace; its tables indexer_events and indexer_events_archive are not modelled, as neither Upsert nor State reads them.
- Retention and simulation laws are about positive block heights; for the file store the exact conditions at other heights are proved.
- PagedExport.DescendingValuesNeedQuiet: assumes the matching records of the last log are distinct, because with repeated records an export can have the right contents by accident; by position nothing is assumed.
- RoundRobin.FairShare: assumes the health set is fixed and the counter below 2 to the 63, because beyond it calls can panic as shown; CheckHealth is not modelled.
- MemoryQueues.MemoryQueue.Publish: reports a send that would block instead of waiting, because blocking and cancellation are scheduling; the Kafka queue, dead letters and partition pauses are not modelled.
- Halting in Pipelines stops the consumer only; that the whole process then returns from Run is covered by the restart step.
- Webhook notifications, metrics and logging of the worker.
- GovKeepers.Keeper.Tally: quorum and pass rate are an exact fraction and a real number, because rounding of float64 is not modelled; submission times are left out, and proposal IDs are unbounded.
- GovKeepers.Keeper.InitGenesis: whether the voting period and the quorum parse is a parameter.
- GovKeepers.Keeper.SubmitProposal: returns the new ID rather than the proposal, so the vote map the original shares with its caller is not captured.
- StakingKeepers.Keeper.InitGenesis: whether the unbonding time parses is a parameter.
- FileEventStores.FileEventStore.Open: does not model lines that fail to decode or a file that fails to open, because every log here was written whole.
- PostgresStores.PostgresStore.AppendEventTx: the insert into indexer_events is left out, because nothing here reads that table.
- PostgresStores.PostgresStore.ApplyRollbackTx: the deletions from indexer_events are left out for the same reason.
- PostgresStores.PostgresStore.CleanupOldBlocksTx: so are the archiving and deletion of its rows.
- Workers.PersistWithRetry: dead letters and partition pauses, which touch neither store nor result, are left out.
- PagedExport.HandleIndexerEvents: parsing of the query text is left out; the range checks on the parsed values are modelled.
- ChainApps.ChainApplication.ExecuteTx: transaction types are a datatype with one case for every other name, and error messages are reduced to their codes.
- In payment URIs lower-casing covers ASCII letters and the Kelvin sign, the only characters whose lower case can match the scheme pattern; texts are Unicode scalar values, so lone surrogates are excluded.
- Exported heights are integers, as JavaScript numbers within the safe range print.
- PagedExport.CollectAllEvents: an abort signal is the number of fetches it lets pass, and progress callbacks are left out; failures of a fetch other than a refusal are not modelled.
- Request parsing beyond its range checks, HTTP, SSE and the reading of events from the relational log.
- Response versions, authentication, configuration, CosmJS message builders, user interfaces and deployment scripts.
