# RockDuck: a verified model of indexes, replay and compaction

RockDuck is a store for mixed transactional and analytical work. This project models the parts of it that
must agree with something simpler, and proves that they do, or proves exactly when they do not:

- **Data skipping** (`BlockStats`, `ZoneMap`, `Bloom`): block statistics, the zone map built from them
  batch by batch, and the granule Bloom filters with their write-back cache. Whatever they rule out, a full
  scan would not find.
- **Primary-key index and crash recovery** (`Kv`, `PkIndex`, `WalScan`, `Recovery`,
  `LiveIndex`): the index as pairs of
  key-value entries, the WAL scan, and replay after any number of crashes at any single write.
- **Change-data capture** (`WalScan`, `CdcReplay`): the WAL replay loop against a declarative definition of
  a committed change, and what resuming at a watermark loses.
- **Prefix iterator** (`Bytes`, `KvIterator`): a cursor that re-seeks on every call, over a bucket that
  changes between calls.
- **SILK I/O scheduler** (`IoScheduler`, `IoWorker`): token bucket, three heaps, and the worker loop as a
  state machine whose every lock acquisition is a step.
- **Compaction and visibility** (`Masks`, `Visibility`, `PdtMerge`): the hidden MVCC columns, the row
  filter, and the batch loop that rewrites a segment.
- **Tuning and tracking** (`HillClimb`, `AccessTracker`) and **Subaltern coding** (`Subaltern`).

`Common` and `Bytes` hold what several of these share. Code that updates objects in place is modelled by classes and loops, and each method is proved against a
value-level definition; what the source promises is then proved about that definition.

## Where the code and its documentation disagree

The model follows the code. Each difference is stated by a lemma or method.

- `BlockColumnStats::merge_with` compares little-endian bytes. It is right for strings, booleans and
  unsigned bytes only (`BlockStats.MergeSoundIffByteOrdered`). The builder is nevertheless sound, because
  it never merges into a non-empty record (`ZoneMap.BuildIndex`).
- `run_compaction` says that recovery replays its WAL record. The scan collects data records only, so it
  does not (`Recovery.OnlyDataIsReplayed`). A crash is repaired exactly when all writes had been made, no compacted
  key is replayed, and replay would have left the store as it was (`Recovery.CompactionCrashRecovery`); a live
  index with a row outside the first granule never satisfies that (`LiveIndex.HighRowBreaksRepair`).
- `replay_wal_ops` says that index updates can safely run again. Live operations file a row under the granule of its
  offset and replay files it under granule 0; and a live update removes the old entry, which replay writes again.
  Every lookup keeps its segment and offset, but the whole answer only if no key ends with a row outside the first
  granule (`LiveIndex.ReplayKeepsLookupsIff`); index entries are added and lost (`LiveIndex.EntryAddedIff`,
  `LiveIndex.EntryLostIff`).
- `compaction_overlay_filter` says that every committed row is visible to it. Its snapshot knows no commit,
  so it accepts no row that carries visibility columns (`PdtMerge.CompactionKeepsIff`).
- `filter_by_visibility` says that it copies `TxnSnapshot::is_row_visible`. It also hides rows whose
  deleter is still active (`Visibility.InlineAgreesIff`).
- `GranuleBloomFilterManager::is_empty` does not look at the cache, so `compact_segment` never saves its
  filters (`Bloom.BuildCompactionFilters`).
- A split-block filter uses four of the 32 bytes of each block (`Bloom.UpperBytesUnused`). Of its eight lanes two
  pairs always coincide, so a key sets at most six bits, and only the low five bits of the second hash count
  (`Bloom.KeyBitsAre`, `Bloom.SameLowBitsSameAnswer`).
- After a compaction the lookup of every compacted key is an error, because the new reverse value has three fields
  (`Recovery.LookupAfterCompaction`).
- The iterator interface says that `next` after `seek` starts at the sought key. It starts over at the
  prefix (`KvIterator.SeekThenNext`).
- A change stream that resumes at its watermark misses a transaction with a smaller id that commits later
  (`CdcReplay.LateCommitIsLost`). Resuming is right for every continuation of the log exactly when no
  transaction between the two watermarks is still active (`CdcReplay.ResumeSafeIff`).
- A compaction request that does not fit the token bucket, or the tokens left when the refill rate is zero, is
  retried for ever and blocks everything behind it (`IoWorker.DispatchableIff`). This can happen exactly in
  configurations whose bucket holds less than 64 MiB or never refills (`IoWorker.StuckIff`); the default bucket
  of 256 MiB at 1 MiB per millisecond is not one of them.
- Callers of the primary-key index pass a table, which takes no part in either key. A lookup is the one its caller
  expects exactly when the last call naming the key in any table leaves the same as the last one in the caller's
  table (`PkIndex.TableLookupIff`, with the failing runs of `PkIndex.TablesClash`).
- Compacting a compacted segment removes every row, because the output always carries visibility columns
  (`PdtMerge.TwoCompactionsEmpty`).
- The branch of `record_compaction_outcome` for an improvement is dead
  (`HillClimb.AdaptiveCompactionScheduler.RecordCompactionOutcome`).

## Model

| member | source | states |
|---|---|---|
| BlockStats.IntRoundTrip | src/metadata/block_zone_map.rs:806-958 | an integer of any width and sign is read back from its little-endian bytes unchanged |
| BlockStats.BytesLtIsValueOrder | src/metadata/block_zone_map.rs:806-940 | comparing two encodings with `bytes_lt` is comparing the two values, for every modelled type |
| BlockStats.InRangeOfEncodedBounds | src/metadata/block_zone_map.rs:806-952 | each end of a range given by two encoded values admits exactly the values on its side, and the range the values between |
| BlockStats.ComputeBlockStats | src/metadata/block_stats.rs:137-421 | the reported bounds encode a least and a greatest non-null value of the slice and the null count is exact, except for the early returns of the code: an all-null integer slice reports no nulls, and a boolean slice has no minimum without a `false` and no maximum without a `true` |
| BlockStats.IntStats | src/metadata/block_stats.rs:56-102 | the integer loop finds a least and a greatest non-null value, or nothing when all are null |
| BlockStats.StringStats | src/metadata/block_stats.rs:352-421 | the string loop finds the lexicographically least and greatest value |
| BlockStats.BooleanStats | src/metadata/block_stats.rs:323-350 | a minimum exactly if some row is `false`, a maximum exactly if some row is `true`, and the exact null count |
| BlockStats.StatsAreBounds | src/metadata/block_stats.rs:137-421 | statistics of a slice bound each of its non-null rows in the order of the type |
| BlockStats.CountNullsIsCardinality | src/metadata/block_stats.rs:137-160 | the null count is the number of null positions |
| BlockStats.ExcludedIff | src/metadata/block_zone_map.rs:558-580 | the statistics of a slice rule a range out if and only if its cells do: an integer or string slice unless it is all null or has a value not below and a value not above the range, a boolean slice by its `true` and its `false` apart, another type never |
| BlockStats.OutsideBoundsIsOutOfRange | src/metadata/block_zone_map.rs:558-583 | a row within bounds that lie wholly below or above a range is not in the range |
| BlockStats.MergeSoundIffByteOrdered | src/metadata/block_stats.rs:21-41 | merging bounds both slices, for all pairs of slices, if and only if the type's order is its byte order |
| BlockStats.MergeLosesMinimum | src/metadata/block_stats.rs:21-41 | the slices [-1] and [0], or [1] and [256]: the merged minimum is the second row, which is above the first, so the first slice is not bounded |
| BlockStats.MergeBoundsBoth | src/metadata/block_stats.rs:21-41 | for byte-ordered types the merged statistics bound the rows of both slices |
| BlockStats.MergeIsExact | src/metadata/block_stats.rs:21-41 | for byte-ordered types they are the minimum and maximum of both slices together, and the null counts add up except for all-null integer slices |
| ZoneMap.CheckMayOverlap | src/metadata/block_zone_map.rs:558-583 | true if and only if some block is neither wholly below nor wholly above the range |
| ZoneMap.PruningIsSound | src/metadata/block_zone_map.rs:558-583 | if the index rules a range out, no row of the column lies in it |
| ZoneMap.OverlapIff | src/metadata/block_zone_map.rs:558-583 | over the rows alone: the index answers true if and only if the rows of some block range are all null, or hold a value not below and a value not above the range; booleans by their `true` and `false` apart |
| ZoneMap.TilesCountRows | src/metadata/block_zone_map.rs:534-538 | the sum of the block lengths is the number of rows the blocks tile |
| ZoneMap.LayoutIsFixed | src/metadata/block_zone_map.rs:679-791 | the batch ends determine every block range: two packed indexes of the same rows have the same blocks |
| ZoneMap.CloseGranule | src/metadata/block_zone_map.rs:760-778 | closing a granule that is full or ends its batch keeps ids consecutive, sizes within 1..8, and no batch end inside a granule |
| ZoneMap.FlushAccounted | src/metadata/block_zone_map.rs:729-757 | flushing turns the pending rows into one more block that tiles on and describes exactly them |
| ZoneMap.AddAccounted | src/metadata/block_zone_map.rs:709-717 | adding rows to an empty block gives their exact statistics, whatever the type |
| ZoneMap.BlockZoneMapBuilder.FlushBlock | src/metadata/block_zone_map.rs:729-757 | writes one block for the pending rows, keeping the layout and the statistics exact |
| ZoneMap.BlockZoneMapBuilder.FlushGranule | src/metadata/block_zone_map.rs:760-778 | moves the open granule to the finished ones under the next id |
| ZoneMap.BlockZoneMapBuilder.MakeRoom | src/metadata/block_zone_map.rs:684-692 | before rows are added the current block is empty and the open granule has room |
| ZoneMap.BlockZoneMapBuilder.AddSlice | src/metadata/block_zone_map.rs:709-717 | the merge of a slice only ever meets an empty block |
| ZoneMap.BlockZoneMapBuilder.AppendColumn | src/metadata/block_zone_map.rs:679-727 | consumes the whole column, keeping the index exact; the no-room branch is unreachable |
| ZoneMap.BlockZoneMapBuilder.AppendBatch | src/metadata/block_zone_map.rs:666-676 | appends the rows and leaves neither a pending block nor an open granule |
| ZoneMap.BlockZoneMapBuilder.Finalize | src/metadata/block_zone_map.rs:780-791 | the index tiles and describes exactly the appended rows |
| ZoneMap.BuildIndex | src/metadata/block_zone_map.rs:666-791 | for any list of batches: blocks of 1..8192 rows tile [0, n), each full unless it ends its batch; granules have 1..8 blocks and ids 0, 1, 2, ...; the total is n; and no pruned range holds a row; and its answer for every range is the one `OverlapIff` describes |
| Kv.ReadAfter | src/metadata/mace_adapter.rs:232-300 | reading after a list of writes gives what the last write to the key left, or the old value |
| Kv.Overwrites | src/db.rs:1185-1344 | replaying a list of writes erases every earlier difference on the keys it touches |
| Kv.CrashedAgrees | src/db.rs:1185-1344 | any number of replays cut short anywhere change only keys that the list touches |
| PkIndex.IdxKeyInjective | src/metadata/pk_skiplist.rs:28-40 | index keys are injective for segment ids without a colon |
| PkIndex.UncleanKeysCollide | src/metadata/pk_skiplist.rs:28-40 | with a colon in a segment id two different rows share a key, for every choice of the parts |
| PkIndex.KeyFamiliesDisjoint | src/metadata/pk_skiplist.rs:28-50 | no index key is a reverse key |
| PkIndex.PutLooksUp | src/metadata/pk_skiplist.rs:53-89 | a put takes the reverse entries from a map to that map with the key updated, for any segment id |
| PkIndex.DeleteLooksUp | src/metadata/pk_skiplist.rs:92-106 | a delete takes them to the map without the key, whatever segment the delete names |
| PkIndex.LookupIsMap | src/metadata/pk_skiplist.rs:149-189 | without aliases a lookup answers with the map |
| PkIndex.PkIndexStore.PutPkIndexDouble | src/metadata/pk_skiplist.rs:53-89 | makes exactly the two writes of a put, whatever table is passed |
| PkIndex.PkIndexStore.DeletePkIndexDouble | src/metadata/pk_skiplist.rs:92-106 | makes exactly the two writes of a delete, whatever table is passed |
| PkIndex.PkIndexStore.GetPkIndexByPk | src/metadata/pk_skiplist.rs:149-189 | after any calls, the location of the last put of the key in whatever table, unless a delete of the key followed |
| PkIndex.RunPkOps | src/metadata/pk_skiplist.rs:28-189 | after any run of puts and deletes, with any segment ids, every lookup answers with the plain map from keys |
| PkIndex.ContentsIsLastPut | src/metadata/pk_skiplist.rs:53-106 | the plain map holds exactly the last put of each key that no later delete removed |
| PkIndex.AnchoredIff | src/metadata/pk_skiplist.rs:28-106 | the index entry behind a reverse entry is there if and only if no later call on another key used the same index key |
| PkIndex.CleanRunsAnchored | src/metadata/pk_skiplist.rs:28-106 | with segment ids without a colon no reverse entry dangles |
| PkIndex.TableLookupIff | src/read/point_get.rs:56-59 | after any run the lookup of (table, key) is the expected one if and only if the last call naming the key in any table has the same outcome as the last one naming it in that table |
| PkIndex.ApartTablesRight | src/write/insert.rs:133-140 | if no key is used by two tables, every table finds its own keys |
| PkIndex.TablesClash | src/write/insert.rs:133-140 | a put, or a delete, of the same key in another table makes the lookup of the first table wrong |
| WalScan.ScanMeaning | src/write/wal_recovery.rs:237-391 | a one-pass scan with per-transaction lists emits exactly the records followed by a commit with no rollback in between, each once, in log order |
| WalScan.CommittedRecords | src/write/wal_recovery.rs:241-390 | said of the records: committed means an insert, update or delete record with a later commit record of its transaction and no rollback record of it between |
| CdcReplay.ConvertMeaning | src/cdc/stream.rs:700-704 | converting a list appends exactly its cell changes to its transaction and fails exactly when one conversion fails |
| CdcReplay.RunMeaning | src/cdc/stream.rs:676-711 | the loop fails if and only if a deliverable operation cannot be converted, and otherwise holds for every transaction of the window exactly its committed changes |
| CdcReplay.RetainRemovesNothing | src/cdc/stream.rs:713 | the final `retain` removes nothing |
| CdcReplay.SortedBatches | src/cdc/stream.rs:715-719 | one batch per entry, strictly ascending by transaction |
| CdcReplay.FeedOfRecords | src/cdc/stream.rs:676-721 | the declarative feed and its failure, said of record types, transactions and positions |
| CdcReplay.ReplayWalSince | src/cdc/stream.rs:668-722 | an error if and only if some committed insert, update or delete record of the window cannot be converted; otherwise strictly ascending non-empty batches in which every transaction of the window has exactly the changes of its committed records, in log order |
| CdcReplay.FeedIsFeed | src/cdc/stream.rs:668-722 | collecting the committed changes transaction by transaction gives the feed |
| CdcReplay.FeedUnique | src/cdc/stream.rs:668-722 | a window has at most one feed |
| CdcReplay.SplitAtWatermark | src/cdc/stream.rs:668-722 | on a fixed log, reading since a is reading up to b and then since b: nothing lost, nothing repeated |
| CdcReplay.LaterWatermarkFailsLess | src/cdc/stream.rs:668-722 | a replay that fails from a later watermark fails from every earlier one |
| CdcReplay.ResumeOverGrowingLog | src/cdc/stream.rs:668-722 | if both reads succeed, resuming at b after the log has grown gives what a single reader gets if and only if no transaction at or below b commits a change or a failing operation in the new part |
| CdcReplay.ResumeSafeIff | src/cdc/stream.rs:668-722 | resuming at b is right for every continuation in which only active transactions of the window write or commit, if and only if no transaction of the window is active |
| CdcReplay.LateCommitIsLost | src/cdc/stream.rs:668-722 | a log and its continuation: the resumed reader gets transaction 2 only, the single reader gets 1 and 2 |
| Recovery.Database.ApplyCompaction | src/compaction/nonblocking.rs:371-401 | every listed key has the location of its last entry in the new segment, no listed index entry is left, the alias names the new segment, and every other key is as before |
| Recovery.CompactionLeaves | src/db.rs:1297-1330 | the same of the write list that replay and compaction share |
| Recovery.LookupAfterCompaction | src/metadata/pk_skiplist.rs:149-189 | after a compaction a compacted key does not decode, a missed key of the old segment is redirected to the place of its index entry, and other keys answer as before |
| Recovery.Database.ApplyOp | src/db.rs:1185-1344 | an operation that fails writes nothing; an insert or update leaves both entries at granule 0 and the u32 offset, a delete removes both, a committed compaction leaves its store, anything else nothing, and no other key changes |
| Recovery.Database.ApplyTransaction | src/write/wal_recovery.rs:237-391 | a committed transaction is applied up to its first failing operation |
| Recovery.Database.Recover | src/write/wal_recovery.rs:237-391 | of every transaction exactly the committed insert, update and delete records up to the first failure of their commit are applied, each once and in log order |
| Recovery.AppliedMeaning | src/write/wal_recovery.rs:237-391 | said of the records: one is replayed if and only if it is committed and neither it nor an earlier record of its transaction since the last commit or rollback record fails; each once, in log order |
| Recovery.OnlyDataIsReplayed | src/write/wal_recovery.rs:385-391 | no compaction record ever reaches the apply closure |
| Recovery.ReplayConverges | src/db.rs:1185-1344 | replaying the whole list ends in one store, whatever interrupted work left under the keys it writes |
| Recovery.CrashRestartConverges | src/db.rs:1185-1344 | after any number of crashes, each after any number of single writes, one full replay ends as an uninterrupted one |
| Recovery.RecoveryIdempotent | src/write/wal_recovery.rs:237-391 | recovering twice is recovering once |
| Recovery.GrownWalExtendsWrites | src/write/wal_recovery.rs:237-391 | a longer log only adds operations and writes at the end, so transactions are replayed in commit order |
| Recovery.GrowingLogConverges | src/write/wal_recovery.rs:237-391 | after any number of crashes, each at any log length and any single write, one recovery of the whole log ends as if there had been none |
| Recovery.CompactionCrashRecoversIff | src/compaction/nonblocking.rs:316-401 | from any store, a crash after `cut` writes of a compaction is repaired by replay if and only if all its writes had been made, the replay names no compacted key, and replay would have left the store before the compaction as it was |
| Recovery.ReplayCommutes | src/compaction/nonblocking.rs:316-401 | if the replay names no compacted key, replaying after the compaction is compacting after the replay, for every store |
| Recovery.CompactionCrashRecovery | src/compaction/nonblocking.rs:316-401 | the same iff for recovery from a whole log, whether or not it holds the compaction's own record |
| Recovery.DataLeavesLookups | src/db.rs:1185-1344 | replayed data operations never leave a three-field location under a reverse key |
| Recovery.DataTouchesBoth | src/db.rs:1185-1344 | data operations touch an index entry only together with the reverse entry of its key |
| LiveIndex.ReplayedAnswer | src/db.rs:1185-1344 | replaying a run over the index its live operations left keeps the segment and offset of every answer, and makes the granule 0 |
| LiveIndex.ReplayKeepsLookupsIff | src/db.rs:1173-1177 | every lookup answers as before if and only if no key ends with a put at an offset of 8192 or more |
| LiveIndex.ReorderedLookupIff | src/write/wal_recovery.rs:237-391 | for any live and any replayed operations a reverse entry stays as it was if and only if no replayed one names the key, or the last ones on both sides removed it or put the same row in the first granule |
| LiveIndex.LiveEntryIff | src/write/insert.rs:411-424 | an index entry is live if and only if some put of it is followed by neither a delete nor a moving update, or it was there and nothing dropped it |
| LiveIndex.ReplayEntryIff | src/db.rs:1185-1344 | over any store, an index entry is there after replay if and only if it is in granule 0 and some put into the segment is not followed by its delete, or it was there and no delete names it |
| LiveIndex.EntryAddedIff | src/db.rs:1205-1262 | replay adds exactly the granule-0 entries that are not live, of a put outside the first granule or moved away by an update, that no delete in granule 0 follows |
| LiveIndex.EntryLostIff | src/db.rs:1263-1284 | replay loses exactly the live entries outside the first granule under which a row had been deleted earlier in the run |
| LiveIndex.HighRowBreaksRepair | src/compaction/nonblocking.rs:316-401 | over a live index in which a key ends outside the first granule no crash of any compaction, at any write, is repaired |
| LiveIndex.AddedEntryBreaksRepair | src/compaction/nonblocking.rs:316-401 | nor over one in which replay adds an entry |
| LiveIndex.GranuleOneWitness | src/write/insert.rs:489-504 | one insert at offset 8192 and a finished compaction of another key: no compacted key is replayed, and recovery changes the store |
| LiveIndex.MovedRowWitness | src/write/insert.rs:411-424 | after an insert and an update that moves the row, replay brings the old index entry back |
| KvIterator.NextKeyIsSuccessor | src/metadata/mace_adapter.rs:369-373 | appending a zero byte gives the immediate successor: exactly the greater keys are at or after it |
| KvIterator.PrefixContiguous | src/metadata/mace_adapter.rs:377-395 | the keys with a prefix form one contiguous range |
| KvIterator.SeekFindsNext | src/metadata/mace_adapter.rs:377-410 | looking at one key after a seek finds the first matching key after the last one, or proves there is none |
| KvIterator.MaceKVIter.Advance | src/metadata/mace_adapter.rs:377-395 | found if and only if the first key at or after the seek key has the prefix; otherwise nothing moves |
| KvIterator.MaceKVIter.Next | src/metadata/mace_adapter.rs:398-410 | moves to the least matching key after the last one, or reports the end only when there is none |
| KvIterator.MaceKVIter.SeekTo | src/metadata/mace_adapter.rs:412-417 | forgets the last key; the current entry becomes the first one at or after the key if that has the prefix, and stays otherwise |
| KvIterator.Iterate | src/metadata/mace_adapter.rs:369-410 | over a bucket that changes between calls: keys strictly ascending, values as seen by their call, and at an end without a view error every matching key that was there throughout was returned exactly once |
| KvIterator.SeekThenNext | src/metadata/kv_engine.rs:50-53 | `next` after `seek` returns the promised key if and only if no matching key is before the sought one |
| IoScheduler.PlainOrderIsCmp | src/compaction/io_scheduler.rs:136-155 | the drain order of a plain workload is `SchedulableTask::cmp` |
| IoScheduler.BestMeaning | src/compaction/io_scheduler.rs:677-710 | best means the highest score of its priority with nothing queued in a priority drained earlier, P0 before P1 before P2, or P0 before P2 before P1 |
| IoScheduler.RefillIsIdeal | src/compaction/io_scheduler.rs:293-307 | the saturating refill is min(capacity, tokens + elapsed milliseconds times rate) |
| IoScheduler.TokenBucket.TryAcquire | src/compaction/io_scheduler.rs:293-307 | granted if and only if the bytes are at most the ideal refill min(capacity, tokens + elapsed ms times rate); that refill less the granted bytes stays; the refill time moves exactly when a millisecond has passed |
| IoScheduler.AcquirableIff | src/compaction/io_scheduler.rs:279-307 | a request can be granted at some time if and only if it fits the bucket, or with a zero refill rate the tokens left |
| IoScheduler.CompactionIOScheduler.Enqueue | src/compaction/io_scheduler.rs:524-549 | adds exactly the request, or nothing for stub-sized evidence-driven work |
| IoScheduler.CompactionIOScheduler.SelectNext | src/compaction/io_scheduler.rs:677-710 | three heaps refine one: removes a greatest element of everything queued, in the order P0, P1, P2, or P0, P2, P1 when read-optimised |
| IoWorker.ConservedStep | src/compaction/io_scheduler.rs:594-620 | every step of worker or enqueuers keeps each admitted request in exactly one place, at most one in retry, dispatched in the order chosen |
| IoWorker.PickIsBest | src/compaction/io_scheduler.rs:677-710 | under concurrent enqueues a pop is a greatest of everything queued when the call began |
| IoWorker.IdleOnlyWhenEmpty | src/compaction/io_scheduler.rs:677-710 | `select_next` returns nothing only if nothing was queued when it began |
| IoWorker.AcquireFacts | src/compaction/io_scheduler.rs:293-307 | what one acquisition, reading the clock twice, does to tokens, time and grants |
| IoWorker.RunsKeepInv | src/compaction/io_scheduler.rs:594-620 | every state of every interleaving conserves requests, picks best ones and is covered by the bucket |
| IoWorker.RunRateBound | src/compaction/io_scheduler.rs:594-620 | in any window of any run the dispatched I/O bytes are at most capacity + rate * (window in ms + 1) |
| IoWorker.SpentCountsSizes | src/compaction/scheduler.rs:213-215 | what that bound counts is the segment sizes if and only if none is above 64 MiB, and 64 MiB for each one that is |
| IoWorker.RunBalance | src/compaction/io_scheduler.rs:293-307 | in every state of every run the tokens left, the bytes dispatched and the refill that overflowed equal the tokens at the start and all refills |
| IoWorker.OversizedTaskBlocksForever | src/compaction/io_scheduler.rs:594-620 | while a request above what the bucket can ever hold has the worker, nothing is dispatched in any run |
| IoWorker.DispatchableIff | src/compaction/io_scheduler.rs:594-620 | a request that has the worker is dispatched by some continuation if and only if it is at most the capacity, or with a zero rate at most the tokens left |
| IoWorker.NoRequestStuck | src/compaction/io_scheduler.rs:594-620 | with a bucket of at least 64 MiB and a positive rate every state of every run can dispatch what has the worker |
| IoWorker.StuckIff | src/compaction/io_scheduler.rs:279-307 | some run from the start reaches a request that no continuation dispatches if and only if the bucket holds less than 64 MiB or never refills |
| Bloom.MaskIsShift | src/metadata/block_zone_map.rs:162 | the mask of bit k is one shifted by k |
| Bloom.OrSetsOneBit | src/metadata/block_zone_map.rs:156-168 | or-ing a mask into a byte sets exactly one bit of the filter |
| Bloom.SbbFilter.InsertHashes | src/metadata/block_zone_map.rs:156-168 | sets exactly the bits of the key's eight lanes |
| Bloom.SbbFilter.MightContainHashes | src/metadata/block_zone_map.rs:174-185 | true if and only if the bits of all eight lanes are set |
| Bloom.KeyBitsAre | src/metadata/block_zone_map.rs:52-61 | the bits of a key are those of six residues of the salts times the low five bits of the second hash, in the block of the first hash: at most six |
| Bloom.SameLowBitsSameAnswer | src/metadata/block_zone_map.rs:174-185 | two keys of one block whose second hashes agree modulo 32 always get the same answer |
| Bloom.AnswerMeaning | src/metadata/block_zone_map.rs:152-185 | "maybe" if and only if each bit of the key was set by some inserted key; so never "no" for an inserted one |
| Bloom.UpperBytesUnused | src/metadata/block_zone_map.rs:156-168 | no bit outside the first four bytes of a block is ever set |
| Bloom.GranuleBloomFilterManager.InsertIntoGranule | src/metadata/block_zone_map.rs:1051-1081 | the key joins its granule and no other, through the cache |
| Bloom.GranuleBloomFilterManager.FlushCache | src/metadata/block_zone_map.rs:1084-1091 | empties the cache and loses no key |
| Bloom.GranuleBloomFilterManager.SaveUnlessEmpty | src/compaction/pdt_merge.rs:356-359 | saves if and only if a serialised filter existed before |
| Bloom.GranuleBloomFilterManager.GetGranuleFilter | src/metadata/block_zone_map.rs:1331-1335 | after a flush, a filter exists exactly for the granules with keys and holds exactly their keys |
| Bloom.RunBloomOps | src/metadata/block_zone_map.rs:1051-1091 | after any interleaving of inserts and flushes ending in a flush, a granule's filter holds exactly its keys and denies none |
| Bloom.BuildCompactionFilters | src/compaction/pdt_merge.rs:212-372 | whatever keys were inserted, nothing is saved |
| Masks.KeepAt | src/compaction/pdt_merge.rs:312-343 | kept element k is the element at the k-th selected position |
| Masks.KeepBatchesIsKeep | src/compaction/pdt_merge.rs:226-351 | filtering batch by batch is filtering the whole column |
| Visibility.CastRoundTrip | src/mvcc/shadow_columns.rs:49-56 | every u64 survives the cast to i64 and back, the not-deleted sentinel included |
| Visibility.InlineAgreesIff | src/mvcc/visibility.rs:853-895 | the inlined test equals `is_row_visible` if and only if the row is not one of a finished creator with an active deleter |
| Visibility.AppendVisibilityColumns | src/mvcc/shadow_columns.rs:42-74 | user columns unchanged; every row reads back the given creator and deleter |
| Visibility.MarkRowsDeleted | src/mvcc/shadow_columns.rs:83-121 | only the last column changes, and only in the stamped rows |
| Visibility.VisibilityMask | src/mvcc/shadow_columns.rs:159-200 | the mask selects exactly the visible rows, with or without the hash set |
| Visibility.FilterByVisibility | src/mvcc/shadow_columns.rs:140-227 | fewer than two columns: unchanged; the two hidden columns alone: an error; otherwise row k of every user column is the row at the k-th position, in order, that the raw hidden columns show to the snapshot |
| Visibility.StampedMask | src/mvcc/shadow_columns.rs:83-227 | stamping live rows with d removes exactly the stamped rows, from exactly the snapshots in which d hides rows |
| Visibility.LateDeleteUnseenIff | src/mvcc/shadow_columns.rs:83-227 | a snapshot's output is unchanged if and only if d hides no row there or no stamped row was visible |
| Visibility.AppendThenFilter | src/mvcc/shadow_columns.rs:42-227 | fresh rows come back whole in a snapshot that sees their creator, and not at all in any other |
| PdtMerge.BuildMask | src/compaction/pdt_merge.rs:240-266 | the mask keeps a row if and only if it has no visibility values or they pass the filter |
| PdtMerge.CopyAlive | src/compaction/pdt_merge.rs:272-301 | the copied visibility values are those of the kept rows |
| PdtMerge.WriteColumns | src/compaction/pdt_merge.rs:312-343 | every column gets its kept rows appended, the writers being created on first use |
| PdtMerge.CompactBatches | src/compaction/pdt_merge.rs:226-351 | every output file holds, batch for batch, the kept rows of each batch that keeps any; no column file if none does |
| PdtMerge.OutputAligned | src/compaction/pdt_merge.rs:226-351 | column and visibility batches of the output line up row by row |
| PdtMerge.RowsStayAligned | src/compaction/pdt_merge.rs:226-351 | output row k of every column and of both visibility columns is the same input row, the k-th surviving one |
| PdtMerge.SecondPass | src/compaction/pdt_merge.rs:240-301 | a row with named visibility columns passes again if and only if it passed; any other row is kept, and passes again if and only if the filter accepts what is written for it: (0, not deleted) without a visibility batch, otherwise the unnamed columns |
| PdtMerge.SecondCompactionIff | src/compaction/pdt_merge.rs:226-351 | compacting the output with the same filter gives the same files if and only if every row without named visibility columns would pass with the values written for it |
| PdtMerge.CompactTwice | src/compaction/pdt_merge.rs:226-351 | the same for running the loop on a segment and on what it wrote |
| PdtMerge.CompactionKeepsIff | src/segment/overlay.rs:90-102 | under the real compaction filter a row survives if and only if its batch has no visibility columns |
| PdtMerge.TwoCompactionsEmpty | src/segment/overlay.rs:90-102 | two compactions with the real filter leave no row of any segment |
| HillClimb.HitRatio | src/query/feedback.rs:39-47 | between 0 and 1, the share of the hits, and 1 without history |
| HillClimb.ClimbDirection | src/compaction/adaptive.rs:846-876 | more misses than hits raise both weights by the step, fewer than one miss in ten over more than twenty queries lower the stale weight by half a step, within the limits, and nothing else moves |
| HillClimb.ClimbConcat | src/compaction/adaptive.rs:834-877 | every segment with five queries counts, one after the other |
| HillClimb.RemainingRatio | src/compaction/adaptive.rs:316-326 | between 0 and 1, and the kept share whenever no more rows were dropped than read |
| HillClimb.ClimbStaysInBox | src/compaction/adaptive.rs:834-877 | any order of any statistics keeps the stale weight in [1, 20], the miss weight in [3, 10] and never lowered, and the other weights fixed |
| HillClimb.RunsStayBounded | src/compaction/adaptive.rs:764-878 | every run, for any signals, keeps all weights and saved weights in their boxes and the step at exactly its r-fold halving down to 0.05, and each rollback costs more than 0.05 of the ratio; with signals of at least 0 there are at most nine |
| HillClimb.HitRatioNeverRises | src/compaction/adaptive.rs:769-803 | the recorded ratio never rises |
| HillClimb.RatioIsLeastSignal | src/compaction/adaptive.rs:769-803 | it is the least of 0.5 and all signals so far |
| HillClimb.StepValues | src/compaction/adaptive.rs:790-792 | the step after one, two, three rollbacks is 0.25, 0.125, 0.0625, and 0.05 from the fourth on |
| HillClimb.ClimbsEveryTenth | src/compaction/adaptive.rs:820-840 | in any run exactly every tenth `adjust` call with a segment of five queries climbs |
| HillClimb.RollbacksHappen | src/compaction/adaptive.rs:764-804 | a run with exactly n rollbacks for every n; up to nine need no negative signal |
| HillClimb.RollbackUndoesLastClimb | src/compaction/adaptive.rs:764-878 | a rollback restores the weights from before the last climb, whatever lies between |
| HillClimb.AdaptiveCompactionScheduler.Adjust | src/compaction/adaptive.rs:820-878 | every tenth call with an eligible segment saves the weights and climbs over all segments; any other call only counts |
| HillClimb.AdaptiveCompactionScheduler.RecordCompactionOutcome | src/compaction/adaptive.rs:764-804 | in any state and for any signal rolls back exactly on a drop of more than 0.05; an improvement is impossible |
| AccessTracker.TouchKeepsExactIff | src/compaction/access_tracker.rs:227-235 | the index stays exactly the (last update, id) pairs if and only if the segment was not tracked with a zero timestamp |
| AccessTracker.EvictKeepsExact | src/compaction/access_tracker.rs:219-223 | popping the index and dropping its segment keeps the index exact |
| AccessTracker.ForgetKeepsExact | src/compaction/access_tracker.rs:399-408 | forgetting keeps the index exact |
| AccessTracker.FirstIsLeastRecent | src/compaction/access_tracker.rs:219-223 | the popped segment was updated no later than any other |
| AccessTracker.CountAfterMark | src/compaction/access_tracker.rs:219-225 | a hit at capacity on another segment than the evicted one shrinks the table |
| AccessTracker.MarkedMeaning | src/compaction/access_tracker.rs:207-261 | from an exact index, for any timestamp: at capacity exactly one least recently updated segment goes, never more than max(limit, 1, previous count) remain, and the index stays exact if and only if no surviving zero timestamp is overwritten |
| AccessTracker.AccessTracker.MarkAccess | src/compaction/access_tracker.rs:207-261 | in any state and for any timestamp: nothing for no rows or no name; otherwise the first index entry goes with its segment at capacity, and then the segment is touched |
| AccessTracker.AccessTracker.RecordScanRange | src/compaction/access_tracker.rs:268-279 | for any timestamp tracks the segment and never evicts; an exact index stays exact if and only if no zero timestamp is overwritten |
| AccessTracker.AccessTracker.ForgetSegment | src/compaction/access_tracker.rs:399-408 | in any state exactly that segment is forgotten, and an exact index stays exact |
| AccessTracker.AccessTracker.Clear | src/compaction/access_tracker.rs:411-415 | nothing is tracked |
| AccessTracker.RunTracker | src/compaction/access_tracker.rs:207-415 | after any run with positive timestamps the index is exact, and only scan ranges can exceed the limit |
| Subaltern.GroupRows | src/codec/corr_detector.rs:418-421 | every parent collects exactly its children, in row order |
| Subaltern.BaseOf | src/codec/corr_detector.rs:423-434 | the least child of all rows in any visiting order, or 0 when no child is below i64::MAX |
| Subaltern.BuildOffsetTable | src/codec/corr_detector.rs:417-451 | exactly the parents that occur, each with the saturated distance of its least child from the base |
| Subaltern.RowRestoredIff | src/codec/corr_detector.rs:454-485 | one row: encoding cannot fail, the distance is not negative, and decoding restores the child if and only if the row is narrow |
| Subaltern.DistanceToLeast | src/codec/corr_detector.rs:454-468 | a row that no row is more than i64::MAX below is stored as its distance from the least child of its parent |
| Subaltern.RoundTripIff | src/codec/corr_detector.rs:454-485 | decoding restores the column if and only if, with overflow checks, no two children differ by more than i64::MAX; without them, if and only if no two children of one parent do and the column does not hold both i64::MIN and i64::MAX |
| Subaltern.RoundTrip | src/codec/corr_detector.rs:417-485 | the same for building, encoding and decoding in one go, from the two columns alone |

## Left out

- BlockStats.ComputeBlockStats: covers integer, string and boolean columns; the floating-point branches, with NaN, and the dictionary branch are not modelled, and neither are decimal, date and binary comparisons.
- Serialisation of zone maps and Bloom filters to files, and the Bloom filter inside a granule, which is rebuilt empty on load.
- A file is read back in the batches in which it was written.
- Files, memory maps, fsync, operating-system locks, Vortex and Arrow encoding. A value that the source encodes with bincode or postcard is a datatype here, so encode and decode are inverse.
- The xxh3 hash is a parameter, and so is the number of blocks chosen for a new filter. The filter's u32 entry counter does not wrap.
- Column files, the segment metadata and the version index written by recovery and compaction: only the primary-key and alias buckets are modelled.
- Alias chains over several compactions, `parse_pk_index_key` and `list_skiplist_entries` are not modelled.
- A delete of a missing key is a total operation on the store.
- `read_changes`, `read_row_changes`, the Arrow and JSON forms and the transaction-boundary markers of the change stream: they read the delta layers, which are not part of this model.
- Transaction begin, commit and conflict detection: the WAL and the snapshots are inputs.
- EcoTune, the workload profile, foreground-load limits, `acquire` with a timeout and what `execute_task` does: the read-optimised flag of a call is an input. `CompactionScheduler` as a single heap is not modelled.
- Clocks are inputs. They never run backwards, and less than 2^64 milliseconds pass between two acquisitions.
- Granule heat maps, scan ranges and the hot and overlap scores of the access tracker.
- A signal that is not a number. Debt classification, governance reports and priorities of the adaptive scheduler. Ratios and weights are exact reals: f64 rounding is not modelled.
- `multiway_merge`, `BoundedBloomFilterCache`, the peer-difference codec and correlation detection.
