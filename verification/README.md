# minikv engine, verified model

A Dafny model of the minikv LSM storage engine (`minikv/src/core`): write-ahead log, skip-list memtable,
tables with bloom filter, index and prefix-compressed blocks, MANIFEST, group commit, background flush and
compaction, and reads that race all of them. Beside it stand four smaller pieces of the same repository:
snapshot-preserving compaction (practice module 08), the pipelined connection, smooth weighted round robin and
the incremental HTTP parser. `dafny verify dfyconfig.toml` checks everything. Nothing here executes the original
programs.

The main results, each for every input or every run:

- **No lost read** (`NoLostRead.NoReadIsLost`): a `get` taken apart into one locked snapshot, one list fetch per
  level and one open per file, interleaved in any way with writes, rotations, flushes and compactions, never misses
  a non-empty key that was there before it began and is never deleted, in a fresh database and in one opened on any
  roster of existing tables and any replayed logs.
- **Prefix durability** (`Durability.CrashLeavesPrefix`): a crash at any step and any byte leaves exactly a prefix of
  the groups written, by whole groups, including every group synced at any earlier point, also across earlier crashes,
  reopenings on torn logs, failed appends and failed syncs. It ends where a log is hindered, that is where a group was
  appended behind torn bytes or such bytes form a record by chance: what is appended to a log replays, whatever it is,
  exactly when no torn bytes precede it (`DurabilityLimits.LaterGroupsReplayIff`), and a synced, acknowledged group
  behind them can be lost (`DurabilityLimits.AcknowledgedAndLost`). A recovery from hindered logs still keeps every
  acknowledged group before the torn bytes (`DurabilityLimits.SalvageKeepsSound`), and the theorem holds anew from
  there. The prefix has a hole exactly where a group whose sync failed was flushed away (`Durability.WholePrefixIff`).
- **The last write** (`LastWrite.GetIsLastWriteIff`): in every state of every such run, exactly when a `get` at rest
  returns the last write, with a run for each of the two ways it does not.
- **Snapshot atomicity** (`ManifestFile`): wherever a crash stops `rewriteSnapshot` or `open`, and however often, the
  next `open` reads the roster held before. When file operations fail instead, it does so exactly under stated
  conditions: a needed recovery rename must not fail (`ManifestFile.OpenKeepsIff`), and a rollback must not bring back
  an archive that could be neither unlinked nor overwritten (`ManifestFile.PublishKeepsIff`); both failures are shown.
- **One roster, fresh numbers** (`RosterRuns`, `Roster`): in every state of every run of flushes, compactions,
  rotations, snapshots, crashes, recoveries and purges, the rosters of `Version`, `Manifest` and the bytes of MANIFEST
  agree, and the next file number lies above every log, every table listed and every table a crash could list again.
  Files listed by any roster a crash could bring back exist, as long as every session spells the directory alike; an
  opening purges no listed file exactly when they are recorded in its own spelling (`RosterRuns.PurgeSparesIff`).
- **Group commit** (`GroupCommit`): exactly once, contiguous sequence ranges, log order is sequence order, real-time
  order, a leader exactly while entries are pending, and log bytes that replay to what was acknowledged with sync before
  any append failed, in every interleaving; the committing step is what `doWriteGroup` does
  (`GroupCommit.CommitPending`).
- **Fast forms against simple forms**: skip list against sorted map (`SkipList`, `Entries`), table lookup against a flat
  search (`SsTable.LookUp`), cached against uncached block reads (`SsTable.ReadBlock`), table-driven against
  bit-serial CRC (`Crc32c`), chunked against one-piece parsing (`HttpParser`, `Connection`).
- **Round trips and merges**: block, varint, index, log record, manifest record and internal-key codecs; compaction
  keeps lookups exactly when a stated condition holds (`Compaction.SwapKeepsViewIff`,
  `MvccCompaction.SnapshotsSurviveIff`).
- **The internal-key order** (`InternalKey.TransitiveIffSafeLengths`): a total order on keys with a trailer; with
  shorter ones it is transitive exactly for stated lengths.

## How it is built

Code that updates objects in place is a class with `modifies` clauses, proved against functions on sequences, and the
lemmas are about those functions. Protocols that several threads take part in are state machines: each lock-protected
section, file operation or list fetch is one step, a run is a list of states joined by enabled steps, and the theorems
speak of every state of every run. A file is a byte sequence with a synced prefix; a crash keeps that prefix and any
part of what follows it. Renames, unlinks and file creation are atomic and take effect in program order.

| files | subject |
|---|---|
| `Bytes`, `Coding`, `InternalKey`, `Crc32c` | byte order, codecs, internal keys, checksum |
| `Entries`, `SkipLevels`, `SkipLinks`, `SkipList`, `MemTable` | memtable over a pointer skip list |
| `Block`, `Bloom`, `BlockCache`, `TableLookup`, `TableFormat`, `SsTable` | tables |
| `Wal`, `WalTail`, `LogMeaning`, `GroupWrite`, `GroupCommit` | log, replay, group commit |
| `ManifestLog`, `ManifestFile`, `FileNames`, `RosterSpec`, `Roster`, `RosterRuns` | MANIFEST, file names and numbers, roster in memory, runs with table files and logs on disk |
| `Compaction`, `MvccCompaction` | merges |
| `KeyLife`, `NoLostRead`, `Durability`, `DurabilityLimits`, `LastWrite` | engine-wide safety |
| `Swrr`, `Connection`, `HttpParser` | load balancer, connection, HTTP parser |

Where code and comments differ, the model follows the code: a tombstone reads as absent and does not stop a `get`,
sequence numbers restart at a reopen, compaction loses the empty user key, a torn log tail is appended to as it is, and
`MemTable::get` ignores its sequence argument. Environment inputs are parameters: how many bytes a write accepts,
whether each sync, rename, unlink or file creation succeeds, how a session spells the database directory, the level a
new skip node draws, the hash functions, the compression codec (assumed to invert), the handler behind a connection,
and `std::stoul`.

## Model

| member | source | states |
|---|---|---|
| `Bytes.CompareZero` | minikv/include/minikv/slice.h:35-46 | byte-string comparison is zero exactly for equal strings |
| `Bytes.CompareAntisymmetric` | minikv/include/minikv/slice.h:35-46 | swapping the operands flips the sign |
| `Bytes.CompareTransitive` | minikv/include/minikv/slice.h:35-46 | the order is transitive, strictly if one step is strict |
| `Coding.DecodeEncode` | minikv/src/utils/coding.h:9-33 | fixed-width decoding inverts encoding for every value that fits |
| `Coding.EncodeDecode` | minikv/src/utils/coding.h:9-33 | encoding inverts decoding for every byte string, so decoding is injective |
| `Coding.Fixed32RoundTrip` | minikv/src/utils/coding.h:9-26 | a 32-bit field reads back as the value modulo 2^32 |
| `Coding.Fixed64RoundTrip` | minikv/src/utils/coding.h:16-33 | a 64-bit field reads back as the value modulo 2^64 |
| `Coding.EncodeFixed` | minikv/src/utils/coding.h:9-19 | the store loop fills the buffer with the little-endian encoding |
| `Coding.DecodeFixed` | minikv/src/utils/coding.h:21-33 | the load loop returns the little-endian value of the bytes |
| `Coding.VarintRoundTrip` | minikv/src/utils/coding.h:35-57 | every 32-bit value decodes from its varint, with the exact length consumed, whatever follows |
| `Coding.EncodeVariant32` | minikv/src/utils/coding.h:35-42 | the encoding loop appends the varint |
| `Coding.DecodeVariant32` | minikv/src/utils/coding.h:44-57 | the decoding loop succeeds, with value and length, exactly when the bytes up to the limit hold a varint |
| `InternalKey.EncodeRoundTrip` | minikv/src/core/internal_key.cpp:14-56 | user key, sequence (56 bits) and type read back from an internal key |
| `InternalKey.CompareKeysZero` | minikv/src/core/internal_key.cpp:58-82 | keys with a trailer compare equal only if byte-equal |
| `InternalKey.CompareKeysAntisymmetric` | minikv/src/core/internal_key.cpp:58-82 | the comparison is antisymmetric on all keys |
| `InternalKey.CompareKeysTransitive` | minikv/src/core/internal_key.cpp:58-82 | keys with a trailer are totally and transitively ordered |
| `InternalKey.ShortKeysBreakTransitivity` | minikv/src/core/internal_key.cpp:58-82 | for all lengths of one short and two long keys of which the shorter user key is shorter than the short key, three keys of these lengths break transitivity |
| `InternalKey.TransitiveIffSafeLengths` | minikv/src/core/internal_key.cpp:58-82 | all keys of three given lengths are transitively ordered, in every order, exactly when not one but none, two or all are shorter than a trailer, or the one that is fits within both other user keys |
| `CrcRegister.UpdateIsBitSerial` | minikv/src/utils/crc32.cpp:10-27 | byte-wise register updates equal shifting in one message bit at a time |
| `CrcRegister.TableStep` | minikv/src/utils/crc32.cpp:24-25 | one table lookup advances the register by eight shifts |
| `CrcRegister.BurstSeen` | minikv/src/utils/crc32.cpp:21-27 | replacing up to four consecutive octets always changes the register |
| `Crc32c.FillEntry` | minikv/src/utils/crc32.cpp:12-17 | the inner loop computes eight register shifts of the index |
| `Crc32c.InitCrc` | minikv/src/utils/crc32.cpp:10-19 | the table holds, for every byte, its eight-shift value |
| `Crc32c.Compute` | minikv/src/utils/crc32.cpp:21-27 | the loop over any data and length returns the specified checksum |
| `Crc32c.CrcIsBitSerial` | minikv/src/utils/crc32.cpp:21-27 | the table-driven checksum is the bit-serial CRC32C for every byte string |
| `Crc32c.BurstDetected` | minikv/src/utils/crc32.cpp:21-27 | any change within four consecutive bytes, so any single byte, changes the checksum |
| `Entries.PutIsUpdate` | minikv/src/core/skip_list.h:38-66 | insertion into the sorted listing is map update |
| `Entries.GetIsLookup` | minikv/src/core/skip_list.h:68-79 | lookup in the sorted listing is map lookup |
| `Entries.DelIsRemoval` | minikv/src/core/skip_list.h:81-101 | removal from the sorted listing is map removal |
| `Entries.SortedUnique` | minikv/src/core/skip_list.h:103-112 | a map has only one sorted listing, so `entries` is determined by it |
| `SkipLinks.Splice` | minikv/src/core/skip_list.h:60-63 | relinking level by level leaves every level threaded through exactly the tall-enough nodes, new node included |
| `SkipLinks.UnlinkLevels` | minikv/src/core/skip_list.h:93-96 | the unlinking loop, stopping at the first level without the node, removes it from every level |
| `SkipList.SkipList.Search` | minikv/src/core/skip_list.h:41-47 | the search collects, at each level, the predecessor of the key's rank |
| `SkipList.SkipList.Get` | minikv/src/core/skip_list.h:68-79 | `get` equals lookup in the sorted listing, for keys of at least eight bytes |
| `SkipList.SkipList.Put` | minikv/src/core/skip_list.h:38-66 | `put` is insertion or overwrite in the listing; level structure and exact memory accounting are kept for any level drawn |
| `SkipList.SkipList.InsertNode` | minikv/src/core/skip_list.h:53-65 | a new node of any height is linked in at its rank |
| `SkipList.SkipList.Overwrite` | minikv/src/core/skip_list.h:49-52 | an existing key changes only its value and the memory count |
| `SkipList.SkipList.Del` | minikv/src/core/skip_list.h:81-101 | `del` is removal from the listing, with structure and accounting kept |
| `SkipList.SkipList.RemoveNode` | minikv/src/core/skip_list.h:92-100 | unlinking, accounting and lowering of the top level drop exactly one node |
| `SkipList.SkipList.Shrink` | minikv/src/core/skip_list.h:99-99 | afterwards the top level is the highest one in use |
| `SkipList.SkipList.ListEntries` | minikv/src/core/skip_list.h:103-112 | the walk along level 0 yields the sorted listing |
| `SkipList.SkipList.IsEmpty` | minikv/src/core/skip_list.h:119-122 | true exactly when the listing is empty |
| `SkipList.SkipList.RandomLevel` | minikv/src/core/skip_list.h:125-131 | the level drawn is at most the maximum, otherwise arbitrary |
| `Lookup.ScanIsFind` | minikv/src/core/memtable.cpp:20-33 | stopping at the first larger user key finds what a full search finds |
| `MemTable.MemPutLookup` | minikv/src/core/memtable.cpp:9-33 | a put under a higher sequence number decides its key and no other |
| `MemTable.MemPutKeeps` | minikv/src/core/memtable.cpp:9-18 | entries stay sorted and older than the next sequence number |
| `MemTable.MemTable.Put` | minikv/src/core/memtable.cpp:9-18 | `put` inserts the internal key, with an empty value for a deletion |
| `MemTable.MemTable.Get` | minikv/src/core/memtable.cpp:20-33 | `get` answers with the first version of the key, a tombstone reading as absent |
| `MemTable.MemTable.ShouldFlush` | minikv/src/core/memtable.cpp:44-51 | true exactly when the accounted bytes of the contents reach the limit |
| `Wal.TornFrame` | minikv/src/core/wal.cpp:45-66 | no proper prefix of a frame is read as a record |
| `Wal.ReplayPrefix` | minikv/src/core/wal.cpp:24-66 | replaying any byte-prefix of a log yields exactly the records whose frames survived whole |
| `Wal.ReplayAfter` | minikv/src/core/wal.cpp:24-66 | records followed by anything replay first, then what follows |
| `Wal.CorruptedRead` | minikv/src/core/wal.cpp:45-66 | such a record is rejected below 2^31 bytes; from there on the checksum, given its length as a signed int, sees nothing and the damaged payload is returned |
| `Wal.CorruptionStopsReplay` | minikv/src/core/wal.cpp:45-66 | a payload changed within four consecutive bytes stops replay at exactly the records before it if and only if the payload is shorter than 2^31 bytes |
| `Wal.WAL.Append` | minikv/src/core/wal.cpp:24-37 | the file grows by the frame, or by the part of it the system accepted, and only a whole frame reports success |
| `Wal.WAL.Sync` | minikv/src/core/wal.cpp:39-43 | a successful sync covers all bytes, a failed one changes nothing |
| `Wal.WAL.ReplayAll` | minikv/src/core/wal.cpp:45-66 | the reading loop returns the records up to the first short or damaged frame |
| `WalTail.ReplayReadsPrefix` | minikv/src/core/wal.cpp:45-66 | for any file, what replay returns re-encodes to a front part of that file |
| `WalTail.AppendsReplayIffWhole` | minikv/src/core/db_impl.cpp:162-164 | records appended to an existing file all replay, whatever they are, exactly when the file holds nothing behind its last whole record |
| `WalTail.TornTailHidesAppends` | minikv/src/core/db_impl.cpp:162-164 | a record torn behind its header hides every later record that does not fill the promised length |
| `LogMeaning.DecodeEncodeOps` | minikv/src/core/db_impl.cpp:238-248 | a group's record decodes to the operations it was made of |
| `LogMeaning.ApplyMeans` | minikv/src/core/db_impl.cpp:383-390 | operations applied under increasing sequence numbers make every key answer with its last operation |
| `LogMeaning.ReplayMeansLastOperation` | minikv/src/core/db_impl.cpp:233-251 | for every byte-prefix of a log, the replayed memtable answers each key with the last operation of the surviving groups, as the live memtable does under other sequence numbers |
| `LogMeaning.GroupsReplayIffWhole` | minikv/src/core/db_impl.cpp:162-164 | groups appended to an existing file all replay, whatever they hold, exactly when the file holds nothing behind its last whole record |
| `LogMeaning.ReplayRecord` | minikv/src/core/db_impl.cpp:237-249 | the decoding loop applies a record's operations in order under consecutive sequence numbers |
| `LogMeaning.ReplayFile` | minikv/src/core/db_impl.cpp:233-251 | replaying a file applies all its records in order |
| `GroupWrite.Writer.Reserve` | minikv/src/core/db_impl.cpp:346-350 | each batch's range starts where the one before it ends |
| `GroupWrite.Writer.EncodeRecord` | minikv/src/core/db_impl.cpp:355-371 | the nested loops build the encoding of all operations of the group in order |
| `GroupWrite.Writer.ApplyGroup` | minikv/src/core/db_impl.cpp:383-390 | the nested loops apply the group as one run of operations over the reserved ranges |
| `GroupWrite.Writer.DoWriteGroup` | minikv/src/core/db_impl.cpp:333-394 | one record per group; nothing reaches the memtable unless it was appended whole and, when wanted, synced; every outcome fixes log, counter and memtable |
| `GroupCommit.StepKeeps` | minikv/src/core/db_impl.cpp:285-330 | every step keeps the protocol invariant (queue, reservations, effects, syncs) |
| `GroupCommit.ExactlyOnce` | minikv/src/core/db_impl.cpp:285-330 | in every interleaving a call answered Ok is logged once and applied once, a failed append neither, a failed sync logged only, an unanswered call neither |
| `GroupCommit.LogOrderIsSequenceOrder` | minikv/src/core/db_impl.cpp:346-390 | reservations are contiguous, one per settled call and as long as its batch, and log and memtable hold them in reservation order |
| `GroupCommit.PendingIffLeader` | minikv/src/core/db_impl.cpp:290-317 | entries are pending exactly when a leader is active, whose own entry is the first; a leader can always commit |
| `GroupCommit.OkWithSyncIsSynced` | minikv/src/core/db_impl.cpp:336-377 | a call answered Ok that asked for sync has its record in the synced part of the log |
| `GroupCommit.OkWithSyncIsReplayed` | minikv/src/core/db_impl.cpp:336-377 | if that record lies before the bytes of any failed append, the bytes of the log, cut anywhere past its synced part, replay to that call's batch in its group's record |
| `GroupCommit.CommitPending` | minikv/src/core/db_impl.cpp:333-394 | running the modelled `doWriteGroup` on the pending entries is one commit step: file bytes, synced part, counter and memtable agree before and after, also when the append or the sync fails |
| `GroupCommit.RealTimeOrder` | minikv/src/core/db_impl.cpp:285-330 | a call that returned before another was invoked has the earlier reservation and the smaller sequence numbers |
| `Block.RoundTrip` | minikv/src/core/block.cpp:18-61 | reading a finished block yields exactly the entries added, across restarts and shared prefixes, for every block under 2^32 bytes |
| `Block.SharedPrefix` | minikv/src/core/block.cpp:18-38 | the prefix loop finds the longest common prefix |
| `Block.BlockBuilder.Add` | minikv/src/core/block.cpp:18-38 | the buffer stays the encoding of the entries added, with restart points and counter in step |
| `Block.BlockBuilder.Finish` | minikv/src/core/block.cpp:40-61 | the result is the block encoding of all entries |
| `Block.ForEach` | minikv/src/core/block.cpp:123-147 | the decoding loop passes on exactly the entries of the block |
| `Block.GetByUserKey` | minikv/src/core/block.cpp:90-121 | the early-stopping scan of the encoded block equals the scan of its entries |
| `Bloom.NoFalseNegative` | minikv/src/core/bloom_filter.h:28-47 | every key ever added is reported, in whatever order keys were added |
| `Bloom.BloomFilter.Add` | minikv/src/core/bloom_filter.h:28-36 | the loop sets exactly the probe bits |
| `Bloom.BloomFilter.MightContain` | minikv/src/core/bloom_filter.h:38-47 | true exactly when all probe bits are set |
| `Bloom.PersistLoad` | minikv/src/core/bloom_filter.h:49-72 | a persisted filter loads back field by field and bit by bit |
| `BlockCache.FittingIsLongest` | minikv/src/core/block_cache.h:87-95 | the prefix kept by eviction fits, and every longer one does not |
| `BlockCache.BlockCache.Get` | minikv/src/core/block_cache.h:33-39 | a hit returns the stored bytes and moves the item to the front, a miss changes nothing |
| `BlockCache.BlockCache.Put` | minikv/src/core/block_cache.h:41-54 | afterwards the contents are the longest most-recently-used prefix that fits; map, list and byte count agree |
| `BlockCache.BlockCache.Evict` | minikv/src/core/block_cache.h:87-95 | the loop leaves the longest prefix that fits |
| `BlockCache.BlockCache.InvalidatePath` | minikv/src/core/block_cache.h:56-67 | exactly the items of the path go, order kept |
| `TableLookup.OneBlockSuffices` | minikv/src/core/sstable_reader.cpp:120-139 | scanning the one candidate block equals a flat search, even when versions of a key straddle blocks |
| `TableFormat.UnsealSealed` | minikv/src/core/sstable_builder.cpp:49-95 | a sealed block reads back wherever it lies, compressed or not |
| `TableFormat.ParseEncodedIndex` | minikv/src/core/sstable_reader.cpp:54-70 | a written index parses back entry by entry |
| `TableFormat.ReadIndex` | minikv/src/core/sstable_reader.cpp:54-70 | the parse loop returns the entries up to the first one that does not decode |
| `TableFormat.OpenTable` | minikv/src/core/sstable_reader.cpp:19-74 | opening returns the index, or nothing for a short file, a wrong magic number or a newer version |
| `TableFormat.OpenFile` | minikv/src/core/sstable_builder.cpp:97-130 | a finished file opens to its index |
| `TableFormat.ReadThroughIndex` | minikv/src/core/sstable_reader.cpp:76-118 | reading through the i-th index entry yields the i-th block |
| `SsTable.SSTableBuilder.Add` | minikv/src/core/sstable_builder.cpp:36-47 | the builder's state stays the written form of the entries added, for any block size |
| `SsTable.SSTableBuilder.FlushDataBlock` | minikv/src/core/sstable_builder.cpp:49-95 | a non-empty block is sealed, indexed and started anew; an empty one is not written |
| `SsTable.SSTableBuilder.Finish` | minikv/src/core/sstable_builder.cpp:97-130 | the file is the table of the entries added, in some cut into non-empty blocks, and the filter holds every user key |
| `SsTable.IndexPartitioned` | minikv/src/core/sstable_reader.cpp:120-139 | last keys ascend, so binary search is sound |
| `SsTable.SearchIndex` | minikv/src/core/sstable_reader.cpp:120-139 | the binary search returns the first block whose last user key is not below the key |
| `SsTable.FilterAdmits` | minikv/src/core/sstable_reader.cpp:120-139 | the table's filter never turns away a key the table has |
| `SsTable.TableRefinesFlatList` | minikv/src/core/sstable_builder.cpp:36-130 | for any block cut, index lookup plus one block scan equals the flat search of all entries |
| `SsTable.ReadBlock` | minikv/src/core/sstable_reader.cpp:76-118 | in any cache state, or without a cache, the result is that of the uncached read, and the cache stays sound |
| `SsTable.InvalidationKeepsSound` | minikv/src/core/block_cache.h:56-67 | dropping a path's blocks leaves a sound cache that holds nothing of that path |
| `SsTable.Invalidate` | minikv/src/core/block_cache.h:56-67 | after the invalidation the cache is sound for the disk with that file and for the disk without it |
| `SsTable.SSTableReader.Get` | minikv/src/core/sstable_reader.cpp:120-139 | filter, search, read and scan composed, against the functions they are specified by |
| `SsTable.LookUp` | minikv/src/core/sstable_reader.cpp:120-139 | end to end, a lookup in a built table equals the flat search, whatever the cut, the codec and the cache |
| `ManifestLog.DecodePayloadOf` | minikv/src/core/manifest.cpp:139-161 | an add or remove record decodes to the edit it was made of |
| `ManifestLog.ReplayEdits` | minikv/src/core/manifest.cpp:59-101 | any byte-prefix of an edit log replays to the edits whose records survived whole |
| `ManifestLog.SnapshotReplays` | minikv/src/core/manifest.cpp:163-185 | a snapshot replays to the roster it was taken of, order included |
| `ManifestLog.ReplayedIsStorable` | minikv/src/core/manifest.cpp:59-101 | whatever bytes are replayed, the roster fits a new snapshot |
| `ManifestFile.ReadRoster` | minikv/src/core/manifest.cpp:59-101 | the replay loop equals the fold of the decoded edits |
| `ManifestFile.SecuredIsCrashSafe` | minikv/src/core/manifest.cpp:40-57 | a secured roster is read back after every possible crash |
| `ManifestFile.SecuredThroughCrash` | minikv/src/core/manifest.cpp:40-57 | a crash followed by the path recovery keeps the roster secured, so any number of them does |
| `ManifestFile.CrashKeepsSyncedEdits` | minikv/src/core/manifest.cpp:109-161 | after a crash the roster is that of the synced edits and some of the following ones, in order |
| `ManifestFile.CrashLeavesSecured` | minikv/src/core/manifest.cpp:40-57 | whatever a crash leaves, what it reads as is again secured against the next one |
| `ManifestFile.OpenKeepsIff` | minikv/src/core/manifest.cpp:25-57 | opening keeps a secured roster exactly when MANIFEST is there, nothing could be promoted, or the promoting rename succeeds, or the roster is empty |
| `ManifestFile.FailedRecoveryForgets` | minikv/src/core/manifest.cpp:25-57 | when that rename fails, an empty MANIFEST is created and every later opening reads no files |
| `ManifestFile.Manifest.Open` | minikv/src/core/manifest.cpp:25-57 | opening, with any of its unlink, rename and create failing, leaves the disk of that outcome and reads the roster there |
| `ManifestFile.Manifest.WriteSnapshot` | minikv/src/core/manifest.cpp:170-186 | the loops write the whole snapshot, or clean up after a failed write, with the roster secured throughout |
| `ManifestFile.PublishKeepsIff` | minikv/src/core/manifest.cpp:194-206 | publishing keeps the roster exactly when no stale archive is rolled back, or the archive holds the same roster; up to that rename it is always secured |
| `ManifestFile.StaleArchiveReturns` | minikv/src/core/manifest.cpp:194-206 | an archive not unlinked, MANIFEST not archived, `.new` not promoted and a working rollback bring the old roster back |
| `ManifestFile.Manifest.Publish` | minikv/src/core/manifest.cpp:194-206 | unlink, archive, promote, or roll back, each of which may fail; unless a stale archive is rolled back the roster is secured after each of them |
| `ManifestFile.Manifest.RewriteSnapshot` | minikv/src/core/manifest.cpp:163-212 | with any of its file operations failing, the roster is lost only by rolling back a stale archive; otherwise every disk state passed through reads as the roster held before under every crash; on success MANIFEST is exactly the synced snapshot |
| `ManifestFile.Manifest.RecordAddFile` | minikv/src/core/manifest.cpp:109-114 | memory and log gain the file together |
| `ManifestFile.Manifest.RecordRemoveFile` | minikv/src/core/manifest.cpp:116-125 | memory and log lose the path together |
| `FileNames.NumberRoundTrip` | minikv/src/core/version.cpp:50-72 | a path built from a reserved number is read back as that number |
| `FileNames.PathInjective` | minikv/src/core/db_impl.cpp:539-540 | equal table paths have the same directory spelling, level and number |
| `RosterSpec.WithoutMeans` | minikv/src/core/version.cpp:81-94 | exactly the files with the given paths go |
| `RosterSpec.RemovalsFold` | minikv/src/core/version.cpp:81-94 | replaying the recorded removals takes exactly those files out of that level and no other |
| `Roster.Version.RestoreFrom` | minikv/src/core/version.cpp:16-29 | the roster is taken over and the next file number lies above every file in it |
| `Roster.Version.AddLevelFile` | minikv/src/core/version.cpp:45-79 | the file is appended in memory, object and bytes alike, recorded and synced; the three stay in agreement and below the counter |
| `Roster.Version.RemoveLevelFiles` | minikv/src/core/version.cpp:81-94 | exactly the given paths leave the level, in memory, object and bytes alike, in one synced run of records |
| `Roster.Version.NextFileNumber` | minikv/src/core/version.cpp:113-115 | each number handed out lies above every live table |
| `Roster.Version.EnsureNextFileNumberAtLeast` | minikv/src/core/version.cpp:117-122 | the counter is raised, never lowered |
| `Roster.BytesAgree` | minikv/src/core/version.cpp:45-94 | the bytes of MANIFEST replay to the roster in memory |
| `Roster.Store.RotateWal` | minikv/src/core/db_impl.cpp:215-231 | a new log's number lies above every live table and every live log |
| `Roster.Store.DropLogs` | minikv/src/core/db_impl.cpp:560-566 | dropping the oldest logs keeps numbers above the rest |
| `Roster.Store.ListTable` | minikv/src/core/db_impl.cpp:539-549 | a table built under a new number, above every table and log, is listed under its path |
| `Roster.Store.Retire` | minikv/src/core/compaction.cpp:156-158 | retired inputs leave their level and no other, with numbers still above every table and log |
| `Roster.RecoverWal` | minikv/src/core/db_impl.cpp:152-170 | file numbers lie above every log file, and a newly opened log above every live table |
| `Roster.Recover` | minikv/src/core/db_impl.cpp:121-171 | unless a stale archive is rolled back, the three copies of the roster agree again on what the disk held (on nothing, after a failed recovery rename), every state on the way survives a further crash, and new numbers exceed all live ones |
| `Roster.Reopen` | minikv/src/core/db_impl.cpp:121-171 | after any crash, a database that opens is one on which all of these operations may go on, with the roster that was secured before the crash |
| `RosterRuns.StepKeeps` | minikv/src/core/version.cpp:45-122 | every step of flush, compaction, rotation, snapshot, crash, recovery and purge keeps rosters, bytes, numbers and threads consistent |
| `RosterRuns.RostersAgree` | minikv/src/core/version.cpp:45-94 | in every state of every run the rosters in memory and the replay of MANIFEST's bytes are the same |
| `RosterRuns.NextNumberIsFresh` | minikv/src/core/version.cpp:113-122 | in every state of every run the next number lies above every log, every listed table and every table that a crash could list again |
| `RosterRuns.UnlinkBacked` | minikv/src/core/compaction.cpp:149-158 | an input may be unlinked: its removal is synced, and its name, being number and level, is not recorded again |
| `RosterRuns.ListedFilesExist` | minikv/src/core/db_impl.cpp:71-119 | in every run whose sessions spell the directory alike, whatever survives of MANIFEST, every file it lists exists |
| `RosterRuns.PurgeSparesIff` | minikv/src/core/db_impl.cpp:71-119 | an opening purges no listed file exactly when all are recorded in the spelling it was opened with |
| `RosterRuns.RespelledPurge` | minikv/src/core/db_impl.cpp:71-119 | a table recorded under another spelling is unlinked although MANIFEST goes on listing it |
| `RosterRuns.RespelledRun` | minikv/src/core/db_impl.cpp:71-119 | a run from an empty directory that ends so: open, flush, crash, open under another spelling, purge |
| `RosterRuns.PurgeOrphans` | minikv/src/core/db_impl.cpp:71-119 | of the table files found exactly those stay whose path, in this spelling, is listed; other files are left alone |
| `Compaction.Sort` | minikv/src/core/compaction.cpp:115-117 | an ordered permutation of all input entries |
| `Compaction.MergeFiles` | minikv/src/core/compaction.cpp:95-145 | the builder receives exactly the surviving versions of the ordered inputs |
| `Compaction.OutputIsTable` | minikv/src/core/compaction.cpp:126-139 | the output has strictly ascending user keys, one live entry each, taken from the inputs |
| `Compaction.OutputFinds` | minikv/src/core/compaction.cpp:126-139 | lookup in the output equals lookup over the inputs for every non-empty key |
| `Compaction.EmptyKeyIsLost` | minikv/src/core/compaction.cpp:126-132 | a stored value for the empty key is dropped (concrete input) |
| `Compaction.AllKeysSurviveIff` | minikv/src/core/compaction.cpp:126-139 | all lookups survive exactly when no live value is stored for the empty key |
| `Compaction.SwapKeepsViewIff` | minikv/src/core/compaction.cpp:95-160 | for every ordered merge, also with equal internal keys, swapping it for its output keeps the newest-version view of a key exactly when no file outside holds an older live version beneath a dropped tombstone |
| `Compaction.CompactionKeepsViewIff` | minikv/src/core/compaction.cpp:95-160 | the same for the inputs in any order, when their internal keys are distinct |
| `KeyLife.MergeKeepsKey` | minikv/src/core/compaction.cpp:101-139 | a merge keeps a non-empty key that is never deleted, with one of its values |
| `NoLostRead.StepKeeps` | minikv/src/core/db_impl.cpp:396-438 | every step of writers, flusher, compactor and reader keeps the read invariant |
| `NoLostRead.LevelKept` | minikv/src/core/compaction.cpp:147-160 | a listed file leaves its level only after the merge holding its keys is listed one level down |
| `NoLostRead.PresentKept` | minikv/src/core/db_impl.cpp:453-569 | a key that was put stays in a current memtable or a listed file through rotation and flush |
| `NoLostRead.RemainingKept` | minikv/src/core/db_impl.cpp:426-436 | a file unlinked under a reader has been merged into a level the reader has yet to fetch |
| `NoLostRead.FreshIsOpened` | minikv/src/core/db_impl.cpp:121-171 | an empty database is one that the runs of reads and writes start from |
| `NoLostRead.ReopenedIsOpened` | minikv/src/core/db_impl.cpp:121-171 | a database opened on a roster of existing tables and a replayed log is another |
| `NoLostRead.WriteIsKnown` | minikv/src/core/db_impl.cpp:285-330 | a write of the key makes it known, so that every read beginning later is promised it |
| `NoLostRead.NoReadIsLost` | minikv/src/core/db_impl.cpp:396-438 | no lost read, for every interleaving, from an empty or a reopened database |
| `Durability.ActiveReplay` | minikv/src/core/db_impl.cpp:354-378 | cut at any byte past its synced part, the current log, torn or not, replays to whole groups including all synced ones |
| `Durability.CrashReplay` | minikv/src/core/db_impl.cpp:152-157 | all logs together replay to a run of whole groups, also when a rotation was under way |
| `Durability.ReopenKeeps` | minikv/src/core/db_impl.cpp:121-171 | recovery re-establishes the invariant, also when the newest log was left torn |
| `Durability.SalvageKeeps` | minikv/src/core/db_impl.cpp:121-171 | recovery from hindered logs re-establishes it too, with a new history that begins with what replays, and no log hindered |
| `Durability.StepKeeps` | minikv/src/core/db_impl.cpp:453-569 | writes, failed appends, failed syncs, syncs, rotations, every step of a flush and both kinds of recovery keep the invariant |
| `Durability.OneFailureLeavesTorn` | minikv/src/core/db_impl.cpp:372-373 | a failed append does not hinder a log that had none |
| `Durability.TwoFailuresLeaveTorn` | minikv/src/core/db_impl.cpp:372-373 | nor does a second one behind it, if the first left its header and both stay below the length it promises |
| `Durability.AckedStays` | minikv/src/core/db_impl.cpp:372-377 | a synced group stays in the history through any number of crashes, as long as no recovery finds a hindered log |
| `Durability.CrashLeavesPrefix` | minikv/src/core/db_impl.cpp:527-569 | prefix durability, for every run and every crash with no live log hindered, back to the last recovery that found one; groups whose sync failed may be missing once flushed |
| `Durability.WholePrefixIff` | minikv/src/core/db_impl.cpp:372-390 | nothing is missing from the prefix exactly when no group whose sync failed has left the logs without being in a listed table |
| `Durability.NoneFailed` | minikv/src/core/db_impl.cpp:372-377 | in a run without failed syncs there is no such group |
| `DurabilityLimits.SoundGroupsReplay` | minikv/src/core/db_impl.cpp:152-157 | in every state of every run each log replays at least the groups before its first torn bytes, and exactly its groups unless it is hindered |
| `DurabilityLimits.SoundAcknowledgedReplay` | minikv/src/core/db_impl.cpp:152-157 | whatever a crash keeps of a log, hindered or not, all acknowledged groups before its torn bytes replay first |
| `DurabilityLimits.SalvageKeepsSound` | minikv/src/core/db_impl.cpp:121-171 | recovery from hindered logs keeps those groups, in their logs, and every listed table |
| `DurabilityLimits.LaterGroupsReplayIff` | minikv/src/core/db_impl.cpp:372-373 | what is appended to the current log replays, whatever the groups are, exactly when no torn bytes are in it |
| `DurabilityLimits.AcknowledgedAndLost` | minikv/src/core/db_impl.cpp:372-377 | after an append that failed behind its header, every group too short to fill the promised length is synced, acknowledged and not replayed |
| `DurabilityLimits.FailedSyncVanishes` | minikv/src/core/db_impl.cpp:374-390 | a run in which a group whose sync failed is in no log and no table, though a later one is in a table |
| `LastWrite.GetIsLastWriteIff` | minikv/src/core/db_impl.cpp:396-438 | in every state of every run a `get` at rest returns the last write exactly when no deleted key still has a live value in some layer, and no key in tables only has an overwritten value in the oldest table with a live one |
| `LastWrite.DeletedIsRead` | minikv/src/core/db_impl.cpp:412-437 | a run, for every key and value: put, flush, delete; the `get` returns the value |
| `LastWrite.OverwrittenIsRead` | minikv/src/core/db_impl.cpp:426-436 | a run, for every key and two values: put, flush, put, flush; the `get` returns the first |
| `MvccCompaction.KeyRoundTrip` | practice/module08_compaction_mvcc/main.cpp:29-52 | decoding inverts encoding over the full 64-bit sequence range |
| `MvccCompaction.KeyLessMeans` | practice/module08_compaction_mvcc/main.cpp:55-65 | encoded keys order by user key up, sequence down, type up |
| `MvccCompaction.MergeIsRun` | practice/module08_compaction_mvcc/main.cpp:127-139 | merging two sorted runs gives a sorted run |
| `MvccCompaction.MergeRuns` | practice/module08_compaction_mvcc/main.cpp:127-139 | the index loop computes that merge |
| `MvccCompaction.FilterGroup` | practice/module08_compaction_mvcc/main.cpp:152-170 | the loop over one key keeps what the specification keeps |
| `MvccCompaction.CompactRuns` | practice/module08_compaction_mvcc/main.cpp:124-173 | the whole function against its specification |
| `MvccCompaction.SnapshotsSurvive` | practice/module08_compaction_mvcc/main.cpp:124-173 | the output is sorted, and every read at or above the snapshot line or just below it is unchanged, also when a lone old tombstone is dropped |
| `MvccCompaction.SnapshotsSurviveIff` | practice/module08_compaction_mvcc/main.cpp:124-173 | all reads at a snapshot survive all compactions exactly when the snapshot is at most one below the line |
| `MvccCompaction.OldSnapshotsMayNot` | practice/module08_compaction_mvcc/main.cpp:141-163 | at every snapshot further below, for every key and value, two versions read as the older before and as nothing after |
| `MvccCompaction.MvccStore.Write` | practice/module08_compaction_mvcc/main.cpp:80-85 | the version chain of one key grows, all else stays |
| `MvccCompaction.MvccStore.Get` | practice/module08_compaction_mvcc/main.cpp:88-99 | the loop answers as a search of everything written |
| `Swrr.WeightedRoundRobin.Select` | skynet/src/proxy/load_balancer.cpp:28-49 | new weights and pick are those of the selection function, after a resize |
| `Swrr.WeightedRoundRobin.RaiseAll` | skynet/src/proxy/load_balancer.cpp:34-45 | the loop raises the healthy weights, sums them and finds the first maximum |
| `Swrr.RunIsFair` | skynet/src/proxy/load_balancer.cpp:28-49 | at every prefix of every run from zero: something is picked, weights sum to zero and stay above minus the total |
| `Swrr.NeverAFullPickAhead` | skynet/src/proxy/load_balancer.cpp:28-49 | no upstream is ever a full pick ahead of its share, and unhealthy ones are never picked |
| `Swrr.EveryRoundIsExact` | skynet/src/proxy/load_balancer.cpp:28-49 | after every full round each upstream was chosen exactly its weight times and the state is zero |
| `Swrr.CreditsStayBounded` | skynet/src/proxy/load_balancer.cpp:28-49 | both bounds on every current weight, so fixed-width arithmetic is exact while they fit |
| `Swrr.NothingSelectedIff` | skynet/src/proxy/load_balancer.cpp:35-46 | nothing is selected exactly when every raised healthy weight is negative |
| `Swrr.HealthChangeCanStarve` | skynet/src/proxy/load_balancer.cpp:35-46 | after a health change nothing may be selected although an upstream is healthy (concrete run) |
| `Connection.FramesOfStream` | minikv/src/network/connection.cpp:47-60 | the frames of a stream do not depend on how it is chunked |
| `Connection.Connection.OnReadable` | minikv/src/network/connection.cpp:28-45 | bytes are taken in, the invariant holds, and output is untouched |
| `Connection.Connection.TryDispatch` | minikv/src/network/connection.cpp:64-95 | at most one request is in the pool, and an idle connection holds no complete frame |
| `Connection.Connection.RunInPool` | minikv/src/network/connection.cpp:80-85 | the pool's part answers the one request in flight and touches no buffer |
| `Connection.Connection.MarkClosed` | minikv/src/network/connection.cpp:26-26 | closing keeps the invariant at any moment |
| `Connection.Connection.Complete` | minikv/src/network/connection.cpp:86-93 | a response is appended once, in order, and the next request dispatched |
| `Connection.Connection.OnWritable` | minikv/src/network/connection.cpp:97-107 | whatever the writes return, sent bytes and buffer together are unchanged |
| `Connection.Connection.OnReadableSync` | minikv/src/network/connection.cpp:47-61 | without a pool all complete requests are answered in order |
| `Connection.SameOutput` | minikv/src/network/connection.cpp:28-107 | for one stream, any chunking, any pool timing and either path give the same output: the responses in request order |
| `HttpParser.DriveResumes` | skynet/src/http/parser.cpp:20-76 | parsing a longer buffer is parsing the first part and resuming on what it left |
| `HttpParser.ChunkingIsInvisible` | skynet/src/http/parser.cpp:20-76 | outcome, request and body do not depend on how the bytes are split into feeds |
| `HttpParser.TextParses` | skynet/src/http/parser.cpp:42-71 | a delimited request, sent in any chunking and followed by anything, is parsed back exactly |
| `HttpParser.FinishedParser` | skynet/src/http/parser.cpp:20-76 | a finished parser keeps its request whatever it is fed, and reports success exactly when what it holds ends with a line |
| `HttpParser.Parser.Feed` | skynet/src/http/parser.cpp:20-76 | the position loop computes one resumed parse of the buffered bytes, on a finished parser too, and keeps what is left of them |

## Left out

- LastWrite.GetIsLastWriteIff: no compaction runs, so all tables are on level 0; the state has no failed sync and no recovery from hindered logs behind it.
- The merging iterator, Scan and DeleteRange: the heap orders raw bytes while its children use internal-key order.
- NoLostRead.NoReadIsLost: safety only, within one session; that a `get` takes all its steps is not stated. One reader stands for all, since readers change nothing others see; the block cache is treated apart, in `SsTable.ReadBlock`.
- Durability.CrashLeavesPrefix: the sync of a log at its rotation, whose result the source ignores, and table builds succeed; no compaction runs; a group's record is shorter than 2^32 bytes.
- Durability.Reopened: a log directory is never empty at a reopening; the legacy single-file log is not modelled.
- Durability.SalvageKeeps: each record that hindered logs replay to is the record of some group; one that torn bytes form by chance and no group has is excluded, as in `LogMeaning.ReplayRecord`.
- GroupCommit.OkWithSyncIsReplayed: of a record behind the bytes of a failed append it says nothing; there the exact condition is `DurabilityLimits.LaterGroupsReplayIff`.
- GroupWrite.Writer.DoWriteGroup: the hand-off of a full memtable to the flush thread is not part of it; it is a step of `NoLostRead` and `Durability`.
- LogMeaning.ReplayRecord: a record whose lengths run past its end is excluded; the source reads beyond the record there, so it has no defined outcome.
- LogMeaning.ReplayFile: a file holding such a record is excluded for the same reason; every byte-prefix of a log written here is covered.
- Roster.Version.AddLevelFile: file numbers are unbounded, so the wrap of the 64-bit counter at 2^64 is not modelled; results of manifest writes and syncs, which the source ignores, are successes; a path fits a manifest record.
- Roster.Store.ListTable: the same bounds on numbers and paths.
- RosterRuns.ListedFilesExist: a snapshot is one step and a recovery reads what is on disk, as `ManifestFile.Manifest.RewriteSnapshot` and `ManifestFile.OpenKeepsIff` allow while no operation of theirs fails; a path fits a manifest record. Runs that change the spelling are those of `RosterRuns.RespelledRun`.
- Compaction.CompactionKeepsViewIff: inputs with two values under one internal key, which reopened databases may hold, are covered by `Compaction.SwapKeepsViewIff` over the merge order.
- ManifestLog.DecodePayload: a path length near 2^32, whose sum with the header size would wrap in 32 bits, is treated as too long.
- `Manifest::recordReset`: it does not clear the roster in memory, so it is outside the roster invariant.
- SkipList.SkipList.Put: concurrent readers of one skip list are serialised by its lock; the lock is not modelled, nor the wrap of the memory counter.
- Block.ForEach: blocks whose lengths would make the source read past its buffer end at that entry instead; `BlockReader::get` is not modelled.
- LogMeaning.DecodeOp: a record whose lengths run past its end has no meaning here; the source would read beyond it.
- Compaction.Sort: an insertion sort stands for the library sort, of which only the ordered permutation is used.
- Bloom filter sizing and false-positive rate, Snappy and zstd, the hash function itself, and the durability of directories and of the filter sidecar: environment assumptions.
- HttpParser.TextParses: chunked transfer coding is not modelled; the source has a flag for it that nothing sets.
- HNSW and reranking, Raft, timers, thread pools, event loops, the consistent-hash ring, the Go services and the console: I/O, library wrappers or members that would only add easy claims.
