# seriesdb table layer, in Dafny

seriesdb is an embedded time-series store. It runs many named *tables* on
one ordered RocksDB key space. Every user key is stored as an *inner key*:
the table's 4-byte big-endian id followed by the user key.

- **Registry.** Three system tables hold the bookkeeping:
  - table 0 (info) holds a placeholder item and the TTL flag;
  - table 1 maps each table name to its id;
  - table 2 maps each id back to its name.
- **Ids.** A counter hands out userland ids from 1024 up. When the store
  opens, the counter is seeded from the largest id still registered.
- **TTL tables.** A TTL table stores a 4-byte write time in front of
  every value. A compaction filter drops userland entries whose time to
  live has elapsed.
- **Change feed.** Committed batches can be captured as change-feed
  records and replayed into another store.
- **Typed adapters.** Thin wrappers encode typed keys and values with a
  coder, then delegate to the byte-level layer.

This project models that layer and proves what it promises.

- **The store** is the class `Engine.RocksdbDb`:
  - an ordered map from byte strings to byte strings;
  - a merge operator, given as a parameter;
  - a script of upcoming write outcomes. An I/O error is a scripted outcome: the failing write changes nothing.
- **Batches** are sequences of Put, Delete, DeleteRange and Merge ops. A batch applies atomically and in order, and DeleteRange is half-open.
- **The raw iterator** (`RawIter.DbRawIterator`) works over a snapshot. It is confined to the 4-byte prefix of its last seek target, which models the store's fixed prefix extractor together with `prefix_same_as_start`. Its moves are specified as the least or greatest key of the right set.
- **The modules** follow the source:
  - `Utils` and `Consts`: the key codec;
  - `Tables`, `WriteBatches` and `Cursors`: the byte-level tables;
  - `WriteOps` and `WriteOpBatches`: the change-feed records;
  - `Registry` and `Dbs`: the `Db` trait's default methods, as the class `Dbs.Db`;
  - `CompactFilter`: the TTL compaction decision;
  - `TablesEnhanced`, `WriteBatchesEnhanced` and `CursorsEnhanced`: the typed adapters.
- **Proof-only modules:**
  - `Lex`: byte-wise order, proved a strict total order;
  - `Registry`: the functions that specify the `Db` methods, with lemmas about them.

## Model

| member | source | states |
|---|---|---|
| Types.FromStatus | src/error.rs:17-20 | a store status becomes Ok exactly when it is OK, and otherwise the store error it carries |
| Lex.LessTransitive | src/utils.rs:61-68 | byte-wise order on keys is transitive; with LessIrreflexive, LessAsymmetric and LessTotal it is a strict total order, the order the store keeps keys in |
| Lex.LessTotal | src/utils.rs:61-68 | any two distinct keys are ordered one way or the other |
| Lex.LessCommonPrefix | src/utils.rs:61-68 | a common prefix such as a table id does not change how two keys compare |
| Lex.RangeKeepsPrefix | src/write_batch/write_batch.rs:31-37 | a key between two bounds that share a prefix carries that prefix too |
| Lex.LessOnes | src/utils.rs:99-102 | a key sorts below n bytes of 0xFF exactly when it does not start with them |
| Utils.BigEndianOrder | src/utils.rs:11-21 | same-length byte strings compare byte-wise exactly as their big-endian values compare |
| Utils.U32ToU8a4 | src/utils.rs:11-16 | decoding the 4 big-endian bytes gives back the number |
| Utils.U8a4RoundTrip | src/utils.rs:18-21 | encoding a decoded 4-byte array gives back the array, so the two conversions are inverse bijections |
| Utils.U32OrderIsByteOrder | src/utils.rs:11-16 | x < y exactly when the encoding of x sorts byte-wise below the encoding of y |
| Utils.U8a4OrderIsNumericOrder | src/consts.rs:7-20 | comparing two 4-byte ids as arrays agrees with comparing their numbers |
| Utils.WrappingAdd | src/compact_filter.rs:29 | u32 addition as a release build does it: the exact sum below 2^32, the sum minus 2^32 above |
| Utils.U8sToU32 | src/utils.rs:28-31 | reads the first 4 bytes big-endian: encoding the result gives back those 4 bytes |
| Utils.U8sToU8a4 | src/utils.rs:23-26 | the result is exactly the first 4 bytes |
| Utils.BuildInnerKey | src/utils.rs:61-68 | an inner key is 4 bytes longer than its user key |
| Utils.ExtractTableId | src/utils.rs:79-82 | the extracted id is a prefix of the buffer |
| Utils.ExtractKey | src/utils.rs:84-87 | the extracted id and key rebuild the buffer exactly |
| Utils.InnerKeyRoundTrip | src/utils.rs:61-87 | extracting the id and the key from a built inner key gives back both |
| Utils.InnerKeyInjective | src/utils.rs:61-68 | distinct (table id, user key) pairs never share an inner key |
| Utils.BuildTimestampedValue | src/utils.rs:70-77 | a framed value is 4 bytes longer than the value |
| Utils.ExtractTimestamp | src/utils.rs:89-92 | the extracted timestamp is a prefix of the buffer |
| Utils.ExtractValue | src/utils.rs:94-97 | the extracted timestamp and value rebuild the buffer exactly |
| Utils.TimestampedValueRoundTrip | src/utils.rs:70-97 | extracting from a framed value gives back its timestamp and its value |
| Utils.BuildInfoTableInnerKey | src/utils.rs:36-39 | a 6-byte key of table 0 whose user key is the item id |
| Utils.BuildNameToIdTableInnerKey | src/utils.rs:41-44 | a key of table 1 whose user key is the name |
| Utils.BuildIdToNameTableInnerKey | src/utils.rs:46-49 | an 8-byte key of table 2 whose user key is the id |
| Utils.BuildUserlandTableAnchor | src/utils.rs:56-59 | the anchor is key_len + 5 bytes long; extracting from it gives back the table id and a user key of key_len + 1 bytes of 0xFF |
| Utils.BuildIdToNameTableAnchor | src/utils.rs:51-54 | it is table 2's userland anchor for 4-byte keys |
| Utils.AnchorBoundsTable | src/utils.rs:56-59 | an inner key of a table sorts below its anchor exactly when the user key does not start with key_len + 1 bytes of 0xFF |
| Utils.ShortKeysBelowAnchor | src/utils.rs:56-59 | every user key of at most key_len bytes sorts below the anchor |
| Utils.TableIdIsHeadAnchor | src/cursor/cursor.rs:36-40 | the bare table id sorts at or before every inner key of its table |
| Utils.InnerKeysOrderedByTableId | src/utils.rs:11-16 | every inner key of a lower id sorts before every inner key of a higher id, whatever the user keys |
| Utils.ReservedTableIds | src/consts.rs:7-20 | the reserved ids decode to 1024, 4294967294, 0, 1 and 2, and the three system ids sort below the userland minimum |
| Utils.CodecExamples | src/utils.rs:201-247 | all seven of the codec's own test vectors, each key built or split exactly as the test expects |
| Engine.ApplyOp | src/db/db.rs:142-163 | each op changes only the keys it touches: a Put stores its value, a Delete removes its key, a DeleteRange clears [begin, end), and a Merge stores the merge of the old value |
| Engine.Apply | src/db/db.rs:142-163 | a batch leaves every key that none of its ops touches unchanged |
| Engine.ApplyConcat | src/db/db.rs:142-163 | applying two batches in turn is applying their concatenation |
| Engine.RocksdbDb.Write | src/table/normal_table.rs:50-53 | a write applies the whole batch, or reports an I/O error and changes nothing |
| Engine.RocksdbDb.Put | src/table/normal_table.rs:37-43 | a single put sets exactly one key, or fails and changes nothing |
| Engine.RocksdbDb.Delete | src/table/normal_table.rs:55-58 | a single delete removes exactly one key, or fails and changes nothing |
| RawIter.LeastExists | src/cursor/cursor.rs:48-52 | a non-empty key set has a least key, so a seek always has a key to land on |
| RawIter.LeastUnique | src/cursor/cursor.rs:48-52 | where a seek lands is determined by the key set alone |
| RawIter.SeekPrefixCoversBucket | src/cursor/cursor.rs:36-40 | seeking to a bare prefix can reach every key that carries it |
| RawIter.SortedKeys | src/db/db.rs:94-109 | lists a key set in strictly increasing order, with exactly its members |
| RawIter.SortedStep | src/db/db.rs:94-109 | the key after the i-th sorted key is the (i+1)-th, and there is none after the last |
| RawIter.DbRawIterator.Seek | src/cursor/cursor.rs:48-52 | lands on the least key at or after the target that shares its 4-byte prefix, or nowhere |
| RawIter.DbRawIterator.SeekForPrev | src/cursor/cursor.rs:54-58 | lands on the greatest key at or before the target that shares its 4-byte prefix, or nowhere |
| RawIter.DbRawIterator.Next | src/cursor/cursor.rs:60-63 | moves to the least key after the current one under the same prefix, or off the end |
| RawIter.DbRawIterator.Prev | src/cursor/cursor.rs:65-68 | moves to the greatest key before the current one under the same prefix, or off the end |
| Tables.NormalTable.constructor | src/table/normal_table.rs:73-78 | the store, the id and the anchor are fixed at creation |
| Tables.NormalTable.Put | src/table/normal_table.rs:37-43 | stores the value unchanged at the inner key and changes nothing else, or fails and changes nothing |
| Tables.NormalTable.NewWriteBatch | src/table/normal_table.rs:45-48 | a fresh empty batch bound to this table's id |
| Tables.NormalTable.Write | src/table/normal_table.rs:50-53 | commits the batch's ops as one atomic unit, or nothing |
| Tables.NormalTable.Delete | src/table/normal_table.rs:55-58 | removes exactly the inner key, or fails and changes nothing |
| Tables.NormalTable.Get | src/table/normal_table.rs:60-63 | returns the value stored under the inner key, or None when that key is absent |
| Tables.NormalTable.NewCursor | src/table/normal_table.rs:65-70 | an unpositioned cursor over a snapshot of the store, bound to this table's id and anchor |
| Tables.TtlTable.constructor | src/table/ttl_table.rs:84-89 | the store, the id and the anchor are fixed at creation |
| Tables.TtlTable.Put | src/table/ttl_table.rs:38-48 | stores the clock reading's 4 bytes followed by the value at the inner key and changes nothing else, or nothing on failure |
| Tables.TtlTable.NewWriteBatch | src/table/ttl_table.rs:50-53 | a fresh empty TTL batch bound to this table's id |
| Tables.TtlTable.Write | src/table/ttl_table.rs:55-58 | commits the batch's ops as one atomic unit, or nothing |
| Tables.TtlTable.Delete | src/table/ttl_table.rs:60-63 | removes exactly the inner key, or fails and changes nothing |
| Tables.TtlTable.Get | src/table/ttl_table.rs:65-74 | returns the stored value with its 4-byte timestamp removed, or None when the key is absent |
| Tables.TablesIsolated | src/table/normal_table.rs:37-63 | a put or a delete through one (table, key) never changes what another (table, key) reads |
| Tables.TtlPutThenGet | src/table/ttl_table.rs:107-116 | a value put through a TTL table reads back unchanged, and its timestamp decodes to the clock reading |
| WriteBatches.PutOpFor | src/write_batch/normal_write_batch.rs:29-36 | a Put of the inner key under the batch's id, with the value unframed |
| WriteBatches.DeleteOpFor | src/write_batch/write_batch.rs:25-29 | a Delete of the inner key under the batch's id |
| WriteBatches.DeleteRangeOpFor | src/write_batch/write_batch.rs:31-37 | both bounds carry the batch's id, so every key the range can remove belongs to that table |
| WriteBatches.TableOpsConfined | src/write_batch/write_batch.rs:25-37 | every op a table batch builds touches only keys of its table |
| WriteBatches.ConfinedBatchIsolation | src/write_batch/write_batch.rs:25-37 | a batch built by one table leaves every key outside that table unchanged |
| WriteBatches.NormalWriteBatch.constructor | src/write_batch/normal_write_batch.rs:39-44 | no ops, and the given table id |
| WriteBatches.NormalWriteBatch.Put | src/write_batch/normal_write_batch.rs:29-36 | appends exactly one Put after the earlier ops, and the batch stays confined to its table |
| WriteBatches.NormalWriteBatch.Delete | src/write_batch/write_batch.rs:25-29 | appends exactly one Delete after the earlier ops, and the batch stays confined to its table |
| WriteBatches.NormalWriteBatch.DeleteRange | src/write_batch/write_batch.rs:31-37 | appends exactly one DeleteRange after the earlier ops, and the batch stays confined to its table |
| WriteBatches.TtlWriteBatch.constructor | src/write_batch/ttl_write_batch.rs:23-28 | no ops, and the given table id |
| WriteBatches.TtlWriteBatch.Delete | src/write_batch/ttl_write_batch.rs:11-21 | the inherited delete: appends one Delete and stays confined |
| WriteBatches.TtlWriteBatch.DeleteRange | src/write_batch/ttl_write_batch.rs:11-21 | the inherited delete_range: appends one DeleteRange and stays confined |
| WriteBatches.NormalWriteBatchX.constructor | src/write_batch/normal_write_batch_x.rs:16-21 | a cross-table batch with no ops |
| WriteBatches.NormalWriteBatchX.Delete | src/write_batch/write_batch_x.rs:22-25 | appends one Delete whose prefix is the id passed to that call |
| WriteBatches.NormalWriteBatchX.DeleteRange | src/write_batch/write_batch_x.rs:27-32 | appends one DeleteRange whose two bounds carry the id passed to that call |
| WriteBatches.ScenarioEffect | src/write_batch/normal_write_batch.rs:54-77 | for any five increasing keys, after five puts, a delete of the second and a range delete from the third to the fifth, the first and fifth keys hold their values and the other three are gone |
| WriteBatches.NormalBatchTest | src/write_batch/normal_write_batch.rs:54-77 | the batch test on k1..k5: k1 and k5 read back, and k2, k3 and k4 are absent |
| WriteOps.FromBatchOp | src/write_op/write_op_batch.rs:15-44 | the record captured for a store op replays as that same op |
| WriteOps.RecordRoundTrip | src/write_op/write_op.rs:34-44 | records and store ops correspond one to one |
| WriteOps.Captured | src/write_op/write_op_batch.rs:15-44 | a committed batch is captured as one present record per op, in order |
| WriteOps.CaptureThenReplay | src/db/db.rs:142-163 | replaying the records captured for a batch rebuilds that batch exactly |
| WriteOps.BatchOpsOfSnoc | src/db/db.rs:149-157 | absent records add nothing, and a present record's op lands after those of the earlier records |
| WriteOpBatches.WriteOpBatch.constructor | src/write_op/write_op_batch.rs:46-50 | sequence number 0 and no records |
| WriteOpBatches.WriteOpBatch.Put | src/write_op/write_op_batch.rs:16-22 | appends exactly one Put record, and the batch it replays as gains exactly that Put |
| WriteOpBatches.WriteOpBatch.Delete | src/write_op/write_op_batch.rs:24-27 | appends exactly one Delete record, and the batch it replays as gains exactly that Delete |
| WriteOpBatches.WriteOpBatch.DeleteRange | src/write_op/write_op_batch.rs:29-35 | appends exactly one DeleteRange record with unchanged bounds, and the replayed batch gains exactly that op |
| WriteOpBatches.WriteOpBatch.Merge | src/write_op/write_op_batch.rs:37-43 | appends exactly one Merge record, and the batch it replays as gains exactly that Merge |
| Cursors.InnerKeyPrefix | src/cursor/cursor.rs:48-58 | a seek target built from a user key carries the table id as its 4-byte prefix |
| Cursors.SeekToLastScope | src/cursor/cursor.rs:42-46 | seek_to_last chooses among the anchor and every key of the table whose user key does not start with five bytes of 0xFF |
| Cursors.NormalCursor.constructor | src/cursor/normal_cursor.rs:71-75 | the iterator, the table id and the anchor are fixed at creation |
| Cursors.NormalCursor.Status | src/cursor/normal_cursor.rs:21-24 | reading a snapshot reports no error |
| Cursors.NormalCursor.SeekToFirst | src/cursor/normal_cursor.rs:26-29 | lands on the table's least key, or nowhere when the table is empty |
| Cursors.NormalCursor.SeekToLast | src/cursor/normal_cursor.rs:31-34 | lands on the greatest key of the table at or before its tail anchor, or nowhere |
| Cursors.NormalCursor.Seek | src/cursor/normal_cursor.rs:36-39 | lands on the table's least key at or after the user key, or nowhere |
| Cursors.NormalCursor.SeekForPrev | src/cursor/normal_cursor.rs:41-44 | lands on the table's greatest key at or before the user key, or nowhere |
| Cursors.NormalCursor.Next | src/cursor/normal_cursor.rs:46-49 | moves to the table's next key, never into another table |
| Cursors.NormalCursor.Prev | src/cursor/normal_cursor.rs:51-54 | moves to the table's previous key, never into another table |
| Cursors.NormalCursor.Key | src/cursor/normal_cursor.rs:56-63 | the user key: with the table id in front it is the current inner key; None when the cursor stands nowhere |
| Cursors.NormalCursor.Value | src/cursor/normal_cursor.rs:65-68 | the stored value unchanged, or None when the cursor stands nowhere |
| Cursors.CursorTest | src/cursor/normal_cursor.rs:84-102 | with k1, k2 and k3 the only keys of a table, seek_to_first stands on k1 |
| CursorsEnhanced.CursorEnhanced.constructor | src/cursor/cursor_enhanced.rs:13-16 | wraps the cursor without moving it |
| CursorsEnhanced.CursorEnhanced.Status | src/cursor/cursor_enhanced.rs:23-26 | the wrapped cursor's status |
| CursorsEnhanced.CursorEnhanced.SeekToFirst | src/cursor/cursor_enhanced.rs:28-31 | as the wrapped cursor's seek_to_first |
| CursorsEnhanced.CursorEnhanced.SeekToLast | src/cursor/cursor_enhanced.rs:33-36 | as the wrapped cursor's seek_to_last |
| CursorsEnhanced.CursorEnhanced.Seek | src/cursor/cursor_enhanced.rs:38-41 | lands where the wrapped seek of the encoded key lands |
| CursorsEnhanced.CursorEnhanced.SeekForPrev | src/cursor/cursor_enhanced.rs:43-46 | lands where the wrapped seek_for_prev of the encoded key lands |
| CursorsEnhanced.CursorEnhanced.Next | src/cursor/cursor_enhanced.rs:48-51 | as the wrapped cursor's next |
| CursorsEnhanced.CursorEnhanced.Prev | src/cursor/cursor_enhanced.rs:53-56 | as the wrapped cursor's prev |
| CursorsEnhanced.CursorEnhanced.Key | src/cursor/cursor_enhanced.rs:58-61 | the wrapped cursor's user key as raw bytes, not decoded |
| CursorsEnhanced.CursorEnhanced.Value | src/cursor/cursor_enhanced.rs:63-66 | the stored value as raw bytes, not decoded |
| WriteBatchesEnhanced.WriteBatchEnhanced.constructor | src/write_batch/write_batch_enhanced.rs:13-16 | wraps the batch without changing its ops |
| WriteBatchesEnhanced.WriteBatchEnhanced.Put | src/write_batch/write_batch_enhanced.rs:18-21 | appends the wrapped batch's Put of the encoded key and value |
| WriteBatchesEnhanced.WriteBatchEnhanced.Delete | src/write_batch/write_batch_enhanced.rs:23-26 | appends the wrapped batch's Delete of the encoded key |
| WriteBatchesEnhanced.WriteBatchEnhanced.DeleteRange | src/write_batch/write_batch_enhanced.rs:28-31 | appends the wrapped batch's DeleteRange of both encoded bounds |
| WriteBatchesEnhanced.EncodedKeysSorted | src/write_batch/write_batch_enhanced.rs:84-107 | the big-endian encodings of 1..5 are strictly increasing byte strings |
| WriteBatchesEnhanced.EnhancedBatchTest | src/write_batch/write_batch_enhanced.rs:84-107 | with the big-endian u32 coder: put 1..5, delete 2, delete_range 3..5 leaves 1 and 5 and removes 2, 3 and 4 |
| TablesEnhanced.TableEnhanced.constructor | src/table/table_enhanced.rs:18-21 | wraps the table and the coder |
| TablesEnhanced.TableEnhanced.Put | src/table/table_enhanced.rs:28-31 | the wrapped put of the encoded key and value |
| TablesEnhanced.TableEnhanced.NewWriteBatch | src/table/table_enhanced.rs:33-36 | a fresh empty batch of the wrapped table's kind and id, with this coder |
| TablesEnhanced.TableEnhanced.Write | src/table/table_enhanced.rs:38-41 | commits the wrapped batch's ops as one unit, or nothing |
| TablesEnhanced.TableEnhanced.Delete | src/table/table_enhanced.rs:43-46 | the wrapped delete of the encoded key |
| TablesEnhanced.TableEnhanced.Get | src/table/table_enhanced.rs:48-51 | the wrapped get of the encoded key, undecoded |
| TablesEnhanced.TableEnhanced.Cursor | src/table/table_enhanced.rs:53-56 | an unpositioned typed cursor over the wrapped table |
| TablesEnhanced.TypedPutIsolated | src/table/table_enhanced.rs:28-31 | with an injective key coder, a typed put leaves every other (table, key) unchanged |
| CompactFilter.TableIdOf | src/compact_filter.rs:23 | the table id read from the key's first 4 bytes |
| CompactFilter.WriteTime | src/compact_filter.rs:28 | the write time read from the value's first 4 bytes, big-endian |
| CompactFilter.FilterAsWritten | src/compact_filter.rs:18-34 | the decision with the u32 sum wrapping as written; it only ever removes an inspected entry |
| CompactFilter.Filter | src/compact_filter.rs:18-34 | the decision on the exact sum; it only ever removes an inspected entry |
| CompactFilter.FilterRemovesExactlyExpired | src/compact_filter.rs:18-34 | an entry is removed exactly when key and value have at least 4 bytes, its table is a userland table, and its write time plus ttl is below now |
| CompactFilter.SystemTablesKept | src/compact_filter.rs:23-26 | entries of the three system tables are kept whatever their age |
| CompactFilter.ExpiryIsPermanent | src/compact_filter.rs:29 | an entry removed at one time would also be removed at any later time |
| CompactFilter.LongerTtlRemovesLess | src/compact_filter.rs:29 | an entry removed under a longer ttl is removed under a shorter one too |
| CompactFilter.WriteTimeOfPut | src/table/ttl_table.rs:46 | the filter reads back exactly the clock value a TTL put stored |
| CompactFilter.TtlPutLifetime | src/compact_filter.rs:28-31 | a value a TTL table put at time t is removed exactly when t + ttl < now |
| CompactFilter.AsWrittenAgreesWithoutOverflow | src/compact_filter.rs:29 | when timestamp + ttl fits in u32, the decision as written is the intended one |
| CompactFilter.AsWrittenRemovesLiveEntry | src/compact_filter.rs:29 | the overflow: a concrete entry whose ttl has not elapsed is removed as written and kept as intended |
| CompactFilter.Compact | src/compact_filter.rs:18-34 | a full compaction keeps exactly the entries the filter keeps, with their values unchanged |
| CompactFilter.CompactIdempotent | src/compact_filter.rs:18-34 | compacting twice at the same time is compacting once |
| CompactFilter.CompactionTest | src/db/ttl_db.rs:256-291 | with ttl 1, a compaction at the write time or one second later keeps k1 and the info table's placeholder; two or more seconds later it removes k1 and keeps the placeholder (the test's `_k`/`%k` puts and the registry records are not in the store) |
| CompactFilter.CompactionFilterImpl.constructor | src/compact_filter.rs:41-45 | the given ttl and the filter's name |
| CompactFilter.CompactionFilterImpl.Decide | src/compact_filter.rs:18-34 | the filter decision for this ttl at the given time, whatever the level |
| CompactFilter.CompactionFilterFactoryImpl.constructor | src/compact_filter.rs:64-70 | the given ttl and the factory's name |
| CompactFilter.CompactionFilterFactoryImpl.Create | src/compact_filter.rs:55-57 | a fresh filter with the factory's ttl |
| Registry.TableAnchor | src/db/db.rs:242 | a table's tail anchor is its userland anchor for user keys of 4 bytes |
| Registry.IdByName | src/db/db.rs:111-119 | an id exactly when the name has a record, and it is that record's first 4 bytes |
| Registry.SystemIdsNotUserland | src/consts.rs:7-20 | no userland id is one of the three system ids |
| Registry.RecordKeysDistinct | src/db/db.rs:267-274 | a table's two records live in tables 1 and 2, apart from each other and from any userland table |
| Registry.TableRangeScope | src/db/db.rs:58-78 | the range [id, anchor) holds only keys of the table, and every key of the table whose user key does not start with five bytes of 0xFF |
| Registry.RegisterEffect | src/db/db.rs:267-274 | after registering, the name resolves to the id and the id to the name, and no other key changes |
| Registry.DestroyEffect | src/db/db.rs:58-69 | destroying removes both records and every key of the table whose user key does not start with five bytes of 0xFF, and changes nothing outside the table and its records |
| Registry.TruncateEffect | src/db/db.rs:71-78 | truncating a userland table removes every key of the table whose user key does not start with five bytes of 0xFF, and keeps both records and every key outside the table |
| Registry.RenameEffect | src/db/db.rs:80-92 | renaming keeps the id: the new name resolves to it, the id maps to the new name, the old name no longer resolves when the two names differ, and no other key changes |
| Registry.IdKeyAt | src/db/db.rs:94-109 | the i-th key of table 2 in key order, at least 8 bytes long |
| Registry.TableInfos | src/db/db.rs:94-109 | one (name, id) pair per key of table 2, in key order |
| Registry.TableInfosListRegistry | src/db/db.rs:94-109 | each listed pair is a registered table, every registered table is listed, and the ids come out strictly increasing |
| Registry.LastIdKey | src/db/db.rs:201-214 | the greatest key of table 2 at or below its anchor |
| Registry.LastKeyCarriesSeed | src/db/db.rs:205-208 | the counter seed is the id carried by that greatest key |
| Registry.NoIdKeysSeed | src/db/db.rs:209-213 | with no key of table 2 below its anchor, the seed is 1023 |
| Registry.LastTableIdBoundsRegistered | src/db/db.rs:201-214 | every registered id is at most the seed, so the next id is above all of them |
| Registry.InfoWriteKeepsIdKeys | src/db/db.rs:174-197 | writing to table 0 leaves table 2 untouched |
| Registry.SameIdKeysSameSeed | src/db/db.rs:201-214 | the seed depends only on table 2's keys |
| Registry.EmptyRegistrySeed | src/db/db.rs:209-213 | on a store without id records the seed is 1023, one below the userland minimum |
| Registry.NextTableIdAsWritten | src/db/db.rs:252-263 | the allocator as written, with the counter wrapping; a successful id decodes to the new counter |
| Registry.NextTableId | src/db/db.rs:252-263 | the intended allocator, with the counter saturating; a successful id decodes to the new counter |
| Registry.AllocationAdvancesByOne | src/db/db.rs:252-263 | the counter advances by one even on failure, the call succeeds exactly while the new value is below 4294967294, and a failure reports the new value and that limit |
| Registry.AllocatedIdsAreUserland | src/db/db.rs:252-263 | from a seed of at least 1023, every id handed out is a userland id below the maximum |
| Registry.AllocationsIncrease | src/db/db.rs:252-263 | successive successful allocations give strictly increasing ids |
| Registry.ExhaustionIsPermanent | src/db/db.rs:252-263 | once an allocation fails, every later one fails |
| Registry.AsWrittenHandsOutInfoTable | src/db/db.rs:252-263 | the wrap-around: from 4294967293 the allocator as written fails twice and then hands out the info table's id 0, while the intended one keeps failing |
| Registry.FreshStoreIds | src/db/normal_db.rs:264-271 | on a fresh store the first two tables get ids 1024 and 1025 |
| Registry.CleanWrites | src/db/db.rs:142-163 | the number of writes before the first failure, at most the number attempted |
| Registry.ReplayAppliesCleanPrefix | src/db/db.rs:142-163 | replay leaves the store with exactly the batches before the first failing write applied, in order |
| Registry.ReplayReportsFirstFailure | src/db/db.rs:142-163 | replay returns the last batch's sequence number (0 for none) when every write succeeds, and the store error of the first failing write otherwise |
| Registry.Feed | src/write_op/write_op_batch.rs:15-50 | the change feed of a sequence of commits: one captured batch per commit |
| Registry.ReplayOfFeedRebuildsStore | src/db/db.rs:142-163 | replaying the feed of a sequence of commits rebuilds the store those commits produced |
| Registry.PlaceholderStep | src/db/db.rs:174-181 | afterwards the placeholder exists, an existing placeholder keeps its value, no other key changes, and a second step changes nothing |
| Registry.FlagBytes | src/db/db.rs:185-197 | the flag is [1] exactly when TTL is enabled |
| Registry.TtlCheck | src/db/db.rs:185-197 | Ok exactly when the stored flag matches the wanted one; otherwise InconsistentTtlEnabled with both values |
| Registry.TtlFlagRoundTrip | src/db/db.rs:185-197 | a stored flag reads back as written, so a second check in the same mode passes and one in the other mode fails |
| Registry.InfoItemsDistinct | src/db/db.rs:174-197 | the placeholder and the TTL flag are different keys |
| Registry.OpenPreparesStore | src/db/db.rs:174-214 | the two open-time writes add the placeholder and the wanted flag, change nothing else, and leave the seed as it was |
| Dbs.TryPutPlaceholder | src/db/db.rs:174-181 | writes the placeholder only when it is absent; otherwise returns Ok with no write |
| Dbs.EnsureTtlEnabledConsistent | src/db/db.rs:185-197 | an absent flag is written for the wanted mode; a present one is compared, with a mismatch reported as InconsistentTtlEnabled and no write |
| Dbs.GetLastTableId | src/db/db.rs:201-214 | returns the seed: the id of the greatest key of table 2, or 1023 when there is none |
| Dbs.Values | src/db/db.rs:142-163 | the captured batches as values, one per batch, in order |
| Dbs.ToWriteBatch | src/db/db.rs:149-157 | the store batch of one captured batch: the op of each present record, in order |
| Dbs.Open | src/db/normal_db.rs:81-98 | on success the store is the old one with the placeholder added when missing and the TTL flag added when missing, the stored flag is the wanted one, the cache is empty and the counter is seeded from the registry; a stored flag of the other mode fails the open; no other key changes |
| Dbs.Db.constructor | src/db/normal_db.rs:87-97 | the store, the TTL mode and the counter seed, with an empty cache, so every cached handle belongs to this store (`Valid`) |
| Dbs.Db.GetTableIdByName | src/db/db.rs:111-119 | Some exactly when the name is registered, and then the id its record holds |
| Dbs.Db.GetTableNameById | src/db/db.rs:121-129 | Some exactly when the id is registered, and then the name its record holds |
| Dbs.Db.NewTable | src/db/ttl_db.rs:66-68 | a fresh table of the store's kind with the given id and anchor |
| Dbs.Db.GenerateNextTableId | src/db/db.rs:252-263 | advances the counter and returns the allocation the intended allocator specifies |
| Dbs.Db.RegisterTable | src/db/db.rs:267-274 | writes both records in one atomic batch, or nothing |
| Dbs.Db.CreateTable | src/db/db.rs:217-249 | a registered name returns its id with no write and no id used; otherwise exactly one id is allocated and registered, and failures come back wrapped as a shared error |
| Dbs.Db.OpenTable | src/db/db.rs:43-56 | a cached name returns the cached handle with no store access; otherwise the result is create_table's (the same id, write outcome, store change and wrapped error), and a successful handle is cached under the name; every handle it returns belongs to this store, has the store's kind and its id's anchor |
| Dbs.Db.DestroyTable | src/db/db.rs:58-69 | writes the destroy batch (both records and the table's range; empty for an unknown name) in one unit, and evicts the name from the cache, keeping every cached handle bound to this store |
| Dbs.Db.TruncateTable | src/db/db.rs:71-78 | writes only the table's range delete, in one unit |
| Dbs.Db.RenameTable | src/db/db.rs:80-92 | writes the rename batch in one unit (nothing for an unknown old name), and evicts the old name from the cache, keeping every cached handle bound to this store |
| Dbs.Db.GetTableInfos | src/db/db.rs:94-109 | returns exactly the registry's (name, id) pairs in id order |
| Dbs.Db.Replay | src/db/db.rs:142-163 | leaves the store, the pending outcomes and the result exactly as the replay specification does |

## Left out

- The write-ahead-log readers are left out: `get_latest_sn` (src/db/db.rs:131-134), `get_write_op_batches_since` (src/db/db.rs:136-140) and the iterator wrappers in src/write_op/write_op_batch_iterator.rs. They read RocksDB's WAL, which is not visible here. `WriteOps.Captured` and `Registry.Feed` stand for what that capture produces.
- `new_write_batch_x` and `write` (src/db/db.rs:167-169) are declarations only. `WriteBatch::write` (src/write_batch/write_batch.rs:39) has no implementation in the normal or TTL batch, so a batch is committed through the table's `write`. `TtlWriteBatchX` and `WriteBatchXEnhanced` hold only constructors and are not modelled beyond `NormalWriteBatchX`.
- Concurrency is not modelled. The `ConcurrentInitializer` single flight becomes a sequential check-then-create, and the `AtomicU32` counter becomes a plain field. Only the wrapping of initializer errors as `ErrorPtr` is kept.
- The quick_cache weighers and eviction are not modelled. The cache is a map that `open_table` inserts into and `destroy_table` and `rename_table` remove from.
- Reads never fail in the model: `get`, `status` and the iterator always succeed. Write failures are scripted through `faults`, one outcome per write.
- The clock (`now`, src/utils.rs:107-110) is a parameter of TTL puts and of the compaction decision.
- The `Option<CompactionDecision>` wrapping and the filter's `name()` string accessor are left out. The names are kept as constructor fields.
- The protobuf encoding of the change-feed records is left out. The records are plain datatypes.
- The open functions in src/db/normal_db.rs and src/db/ttl_db.rs also build options, register the compaction filter and build the cache. `Dbs.Open` models only the store steps. The source calls the placeholder step `try_put_placeholder_to_fix_wal_bug`; the model uses `try_put_placeholder` from src/db/db.rs:174.
- Table names are kept as their bytes. The `from_utf8(...).unwrap()` in `get_table_name_by_id` and `get_table_infos` is not modelled.
- `u8s_to_u32` and `u8s_to_u8a4` panic on inputs shorter than 4 bytes. The model turns this into preconditions stating what the stored records must satisfy: `NameRecordReadable`, `IdToNameKeysReadable`, `LastIdKeyReadable`, and the value-length precondition of `TtlTable.Get`.
- `TTL_ITEM_ID` and `TIMESTAMP_LEN` are not defined in src/consts.rs. The model takes `TIMESTAMP_LEN` = 4, from the `Timestamp` type in src/types.rs:7. It takes `TTL_ITEM_ID` = [0, 1]; only its difference from the placeholder id is used.
- The TTL-table cursor (`TtlCursor`, src/cursor/ttl_cursor.rs) is not part of this model. For that reason `TablesEnhanced.TableEnhanced.Cursor` requires a normal table.
- `TtlWriteBatch` defines no `put` (src/write_batch/ttl_write_batch.rs:11-21). For that reason `WriteBatchesEnhanced.WriteBatchEnhanced.Put` requires a normal batch, and the TTL half of the enhanced-batch test (src/write_batch/write_batch_enhanced.rs:109-132) is not modelled.
- The coder is a pair of abstract encoding functions. The trait in src/coder.rs does not match how `Coder<K, V>` is used, and decoding is never called by the modelled code.
- Dbs.Db.Replay: it reads the captured batches into values before the loop, so aliasing between a `WriteOpBatch` and the store is not modelled.
- Dbs.Db.GenerateNextTableId: it follows the corrected, saturating allocator, not the wrapping one as written (see Findings).
- CompactFilter.CompactionFilterImpl.Decide: it follows the corrected decision on the exact sum, not the wrapping sum as written (see Findings). A debug build would panic on that overflow instead.
- Keys of a table whose user key starts with five bytes of 0xFF lie at or past the table's anchor, so destroying or truncating the table leaves them in place (`Registry.DestroyEffect`, `Registry.TruncateEffect`). The model does not follow such leftovers into a later table that is given the same id after a reopen.
- The store options in src/options.rs are not modelled. The one fact used is the 4-byte prefix extractor, built into `RawIter.DbRawIterator`.

## Findings

| source | as written | input that shows it | evidently intended | confidence | as-written member | corrected member |
|---|---|---|---|---|---|---|
| src/db/db.rs:252-263 | the counter's `fetch_add(1)` and the `+ 1` wrap at 2^32, so after the limit errors the counter comes back to 0 | counter 4294967293: three calls give an error, an error, then `Ok([0, 0, 0, 0])`, the info table's id | once the limit is reached, every later call fails | high, not executed | Registry.AsWrittenHandsOutInfoTable | Registry.ExhaustionIsPermanent |
| src/compact_filter.rs:29 | `timestamp + self.ttl` is a u32 sum that wraps in a release build | ttl 3000000000, timestamp 1700000000, now 1700000001: the sum wraps to 405032704 < now, so a live entry is removed | remove an entry exactly when its write time plus ttl, taken exactly, is below now | high, not executed | CompactFilter.AsWrittenRemovesLiveEntry | CompactFilter.FilterRemovesExactlyExpired |
