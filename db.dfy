/** The database (`src/db/db.rs`): the store, the table cache, the id
    counter and the registry operations, run one at a time. */
module Dbs {
  import opened Types
  import opened Lex
  import opened Consts
  import opened Utils
  import opened Engine
  import opened RawIter
  import opened WriteOps
  import opened WriteOpBatches
  import opened Cursors
  import opened Tables
  import opened Registry

  //////////////////////////////////////////////////////////////////////////
  // Open-time steps over the bare store
  //////////////////////////////////////////////////////////////////////////

  /** `try_put_placeholder`: writes the placeholder item when it is
      missing, and nothing otherwise. */
  method TryPutPlaceholder(db: RocksdbDb) returns (r: Result<()>)
    modifies db
    ensures PlaceholderKey() in old(db.data) ==> r == Ok(()) && db.faults == old(db.faults)
    ensures PlaceholderKey() !in old(db.data) ==> r == FromStatus(old(db.NextStatus())) && db.faults == Consume(old(db.faults))
    ensures db.data == if r.Ok? then WithPlaceholder(old(db.data)) else old(db.data)
  {
    var key := BuildInfoTableInnerKey(PLACEHOLDER_ITEM_ID);
    if db.Get(key).None? {
      var s := db.Put(key, PLACEHOLDER_ITEM_ID);
      r := FromStatus(s);
    } else {
      r := Ok(());
    }
  }

  /** `ensure_ttl_enabled_consistent`: checks the persisted flag against
      the mode the store is opened in, or persists the mode when no flag
      is stored yet. */
  method EnsureTtlEnabledConsistent(db: RocksdbDb, wanted: bool) returns (r: Result<()>)
    modifies db
    ensures TtlFlag(old(db.data)).Some? ==>
              r == TtlCheck(TtlFlag(old(db.data)).value, wanted) && db.data == old(db.data) && db.faults == old(db.faults)
    ensures TtlFlag(old(db.data)).None? ==>
              r == FromStatus(old(db.NextStatus())) && db.faults == Consume(old(db.faults)) &&
              db.data == if r.Ok? then old(db.data)[TtlFlagKey() := FlagBytes(wanted)] else old(db.data)
  {
    var key := BuildInfoTableInnerKey(TTL_ITEM_ID);
    match db.Get(key)
    case Some(stored) => {
      var current := stored == [1];
      if wanted != current {
        r := Err(InconsistentTtlEnabled(current, wanted));
      } else {
        r := Ok(());
      }
    }
    case None => {
      var s := db.Put(key, if wanted then [1] else [0]);
      r := FromStatus(s);
    }
  }

  /** `get_last_table_id`: `seek_to_last` on the id-to-name table; the id
      its key carries, or one below the first userland id when the table
      is empty. */
  method GetLastTableId(db: RocksdbDb) returns (r: Result<u32>)
    requires LastIdKeyReadable(db.data)
    ensures r == Ok(LastTableId(db.data))
  {
    var anchor := BuildIdToNameTableAnchor();
    var table := new NormalTable(db, ID_TO_NAME_TABLE_ID, anchor);
    var cursor := table.NewCursor();
    assert HasPrefix(anchor, ID_TO_NAME_TABLE_ID) by {
      assert anchor[..4] == ID_TO_NAME_TABLE_ID;
    }
    cursor.SeekToLast();
    ghost var keys := IdKeysToAnchor(db.data);
    assert AtOrBefore(cursor.inner.view, cursor.tableId, cursor.anchor) == keys;
    if cursor.IsValid() {
      var key := cursor.Key().value;
      LastKeyCarriesSeed(db.data, cursor.inner.current.value, key);
      r := Ok(U8sToU32(key));
    } else {
      NoIdKeysSeed(db.data);
      // Reading a snapshot does not fail here, so `status` is never an error.
      match cursor.Status()
      case Ok(_) => r := Ok(U8a4ToU32(MIN_USERLAND_TABLE_ID) - 1);
    }
  }

  /** A `WriteOpBatch` read as a value. */
  function Values(bs: seq<WriteOpBatch>): (r: seq<CapturedBatch>)
    reads set b | b in bs
    ensures |r| == |bs|
    ensures forall i :: 0 <= i < |bs| ==> r[i] == CapturedBatch(bs[i].sn, bs[i].writeOps)
  {
    if bs == [] then [] else [CapturedBatch(bs[0].sn, bs[0].writeOps)] + Values(bs[1..])
  }

  /** The inner loop of `replay`: the store batch for one captured batch,
      one op per present record, in order. */
  method ToWriteBatch(writeOps: seq<OptionalWriteOp>) returns (batch: seq<BatchOp>)
    ensures batch == BatchOpsOf(writeOps)
  {
    batch := [];
    var j := 0;
    while j < |writeOps|
      invariant 0 <= j <= |writeOps|
      invariant batch == BatchOpsOf(writeOps[..j])
    {
      var optionalWriteOp := writeOps[j];
      ghost var before := batch;
      if optionalWriteOp.inner.Some? {
        match optionalWriteOp.inner.value
        case PutOp(putOp) => batch := batch + [BatchOp.Put(putOp.innerKey, putOp.innerValue)];
        case DeleteOp(deleteOp) => batch := batch + [BatchOp.Delete(deleteOp.innerKey)];
        case DeleteRangeOp(deleteRangeOp) =>
          batch := batch + [BatchOp.DeleteRange(deleteRangeOp.beginInnerKey, deleteRangeOp.endInnerKey)];
        case MergeOp(mergeOp) => batch := batch + [BatchOp.Merge(mergeOp.innerKey, mergeOp.innerValue)];
        assert batch == before + [ToBatchOp(optionalWriteOp.inner.value)];
      }
      assert writeOps[..j + 1] == writeOps[..j] + [optionalWriteOp];
      BatchOpsOfSnoc(writeOps[..j], optionalWriteOp);
      j := j + 1;
    }
    assert writeOps[..j] == writeOps;
  }

  //////////////////////////////////////////////////////////////////////////
  // The database
  //////////////////////////////////////////////////////////////////////////

  class Db {
    const engine: RocksdbDb
    /** Whether this is a `TtlDb` (TTL tables) or a `NormalDb`. */
    const ttlEnabled: bool
    /** The table cache, by name; eviction is not modelled. */
    var cache: map<Bytes, TableHandle>
    /** The id counter: the last id handed out. */
    var lastTableId: u32

    /** Every cached handle is a table of this store, of its kind, bounded
        by the anchor its id calls for. */
    ghost predicate Valid()
      reads this`cache
    {
      forall n :: n in cache ==>
        cache[n].Db() == engine && cache[n].Anchor() == TableAnchor(cache[n].Id()) &&
        (cache[n].Ttl? <==> ttlEnabled)
    }

    constructor (engine: RocksdbDb, ttlEnabled: bool, lastTableId: u32)
      ensures this.engine == engine && this.ttlEnabled == ttlEnabled
      ensures this.lastTableId == lastTableId && cache == map[]
      ensures Valid()
    {
      this.engine := engine;
      this.ttlEnabled := ttlEnabled;
      this.lastTableId := lastTableId;
      cache := map[];
    }

    /** `get_table_id_by_name`: the id registered under the name. */
    function GetTableIdByName(name: Bytes): (r: Option<TableId>)
      reads engine
      requires NameRecordReadable(engine.data, name)
      ensures r.Some? <==> BuildNameToIdTableInnerKey(name) in engine.data
      ensures r.Some? ==> HasPrefix(engine.data[BuildNameToIdTableInnerKey(name)], r.value)
    {
      IdByName(engine.data, name)
    }

    /** `get_table_name_by_id`: the name registered under the id. */
    function GetTableNameById(id: TableId): (r: Option<Bytes>)
      reads engine
      ensures r.Some? <==> BuildIdToNameTableInnerKey(id) in engine.data
      ensures r.Some? ==> r.value == engine.data[BuildIdToNameTableInnerKey(id)]
    {
      engine.Get(BuildIdToNameTableInnerKey(id))
    }

    /** `new_table`: a handle of this store's kind. */
    method NewTable(id: TableId, anchor: Bytes) returns (t: TableHandle)
      ensures fresh(t.Obj()) && t.Id() == id && t.Anchor() == anchor && t.Db() == engine
      ensures t.Ttl? <==> ttlEnabled
    {
      if ttlEnabled {
        var table := new TtlTable(engine, id, anchor);
        t := Ttl(table);
      } else {
        var table := new NormalTable(engine, id, anchor);
        t := Normal(table);
      }
    }

    /** `generate_next_table_id`, with the counter saturating instead of
        wrapping. */
    method GenerateNextTableId() returns (r: Result<TableId>)
      modifies this`lastTableId
      ensures lastTableId == NextTableId(old(lastTableId)).counter
      ensures r == NextTableId(old(lastTableId)).result
    {
      var currentId: u32 := if lastTableId == U32_MAX then U32_MAX else lastTableId + 1;
      lastTableId := currentId;
      var currentId2 := U32ToU8a4(currentId);
      if !Less(currentId2, MAX_USERLAND_TABLE_ID) {
        r := Err(ExceededLimitError(currentId, U8a4ToU32(MAX_USERLAND_TABLE_ID)));
      } else {
        r := Ok(currentId2);
      }
    }

    /** `register_table`: both records in one batch. */
    method RegisterTable(nameToIdKey: Bytes, id: TableId, idToNameKey: Bytes, name: Bytes) returns (r: Result<()>)
      modifies engine
      ensures r == FromStatus(old(engine.NextStatus())) && engine.faults == Consume(old(engine.faults))
      ensures engine.data == if r.Ok? then Apply(engine.merge, old(engine.data), [BatchOp.Put(nameToIdKey, id), BatchOp.Put(idToNameKey, name)])
                             else old(engine.data)
    {
      var batch: seq<BatchOp> := [];
      batch := batch + [BatchOp.Put(nameToIdKey, id)];
      batch := batch + [BatchOp.Put(idToNameKey, name)];
      var s := engine.Write(batch);
      r := FromStatus(s);
    }

    /** `create_table`: a registered name keeps its id; otherwise one id is
        allocated and registered. Failures come back wrapped as the
        initializer's shared error. */
    method CreateTable(name: Bytes) returns (r: Result<TableHandle>)
      requires NameRecordReadable(engine.data, name)
      modifies this`lastTableId, engine
      ensures old(IdByName(engine.data, name)).Some? ==>
                r.Ok? && r.value.Id() == old(IdByName(engine.data, name)).value &&
                engine.data == old(engine.data) && engine.faults == old(engine.faults) && lastTableId == old(lastTableId)
      ensures old(IdByName(engine.data, name)).None? ==> lastTableId == NextTableId(old(lastTableId)).counter
      ensures old(IdByName(engine.data, name)).None? && NextTableId(old(lastTableId)).result.Err? ==>
                r == Err(ErrorPtr(NextTableId(old(lastTableId)).result.error)) &&
                engine.data == old(engine.data) && engine.faults == old(engine.faults)
      ensures old(IdByName(engine.data, name)).None? && NextTableId(old(lastTableId)).result.Ok? ==>
                engine.faults == Consume(old(engine.faults)) &&
                (r.Ok? <==> old(engine.NextStatus()).OK?) &&
                (r.Ok? ==> r.value.Id() == NextTableId(old(lastTableId)).result.value &&
                           engine.data == Apply(engine.merge, old(engine.data), RegisterOps(name, r.value.Id()))) &&
                (r.Err? ==> r == Err(ErrorPtr(RocksdbError(IOError))) && engine.data == old(engine.data))
      ensures r.Ok? ==> fresh(r.value.Obj()) && r.value.Db() == engine && r.value.Anchor() == TableAnchor(r.value.Id())
      ensures r.Ok? ==> (r.value.Ttl? <==> ttlEnabled)
    {
      var existing := GetTableIdByName(name);
      var id: TableId;
      if existing.Some? {
        id := existing.value;
      } else {
        var generated := GenerateNextTableId();
        if generated.Err? {
          return Err(ErrorPtr(generated.error));
        }
        id := generated.value;
        var nameToIdKey := BuildNameToIdTableInnerKey(name);
        var idToNameKey := BuildIdToNameTableInnerKey(id);
        var registered := RegisterTable(nameToIdKey, id, idToNameKey, name);
        if registered.Err? {
          return Err(ErrorPtr(registered.error));
        }
      }
      var t := NewTable(id, BuildUserlandTableAnchor(id, MAX_USERLAND_KEY_LEN));
      return Ok(t);
    }

    /** `open_table`: the cached handle when there is one; otherwise the
        registered table, or a newly created one, cached under the name. */
    method OpenTable(name: Bytes) returns (r: Result<TableHandle>)
      requires Valid() && NameRecordReadable(engine.data, name)
      modifies this, engine
      ensures Valid()
      ensures r.Ok? ==> r.value.Db() == engine && r.value.Anchor() == TableAnchor(r.value.Id()) &&
                        (r.value.Ttl? <==> ttlEnabled)
      ensures name in old(cache) ==>
                r == Ok(old(cache)[name]) && cache == old(cache) && lastTableId == old(lastTableId) &&
                engine.data == old(engine.data) && engine.faults == old(engine.faults)
      ensures name !in old(cache) && old(IdByName(engine.data, name)).Some? ==>
                r.Ok? && r.value.Id() == old(IdByName(engine.data, name)).value && fresh(r.value.Obj()) &&
                r.value.Anchor() == TableAnchor(r.value.Id()) && (r.value.Ttl? <==> ttlEnabled) &&
                engine.data == old(engine.data) && engine.faults == old(engine.faults) && lastTableId == old(lastTableId)
      ensures name !in old(cache) && old(IdByName(engine.data, name)).None? ==>
                lastTableId == NextTableId(old(lastTableId)).counter
      ensures name !in old(cache) && old(IdByName(engine.data, name)).None? && NextTableId(old(lastTableId)).result.Err? ==>
                r == Err(ErrorPtr(NextTableId(old(lastTableId)).result.error)) &&
                engine.data == old(engine.data) && engine.faults == old(engine.faults)
      ensures name !in old(cache) && old(IdByName(engine.data, name)).None? && NextTableId(old(lastTableId)).result.Ok? ==>
                engine.faults == Consume(old(engine.faults)) &&
                (r.Ok? <==> old(engine.NextStatus()).OK?) &&
                (r.Ok? ==> r.value.Id() == NextTableId(old(lastTableId)).result.value && fresh(r.value.Obj()) &&
                           engine.data == Apply(engine.merge, old(engine.data), RegisterOps(name, r.value.Id()))) &&
                (r.Err? ==> r == Err(ErrorPtr(RocksdbError(IOError))) && engine.data == old(engine.data))
      ensures name !in old(cache) ==> cache == if r.Ok? then old(cache)[name := r.value] else old(cache)
    {
      if name in cache {
        return Ok(cache[name]);
      }
      var existing := GetTableIdByName(name);
      var table: TableHandle;
      if existing.Some? {
        table := NewTable(existing.value, BuildUserlandTableAnchor(existing.value, MAX_USERLAND_KEY_LEN));
      } else {
        var created := CreateTable(name);
        if created.Err? {
          return created;
        }
        table := created.value;
      }
      cache := cache[name := table];
      return Ok(table);
    }

    /** `destroy_table`: for a registered name, both records and the
        table's key range go in one batch; the batch is written (empty for
        an unknown name) and the name leaves the cache either way. */
    method DestroyTable(name: Bytes) returns (r: Result<()>)
      requires Valid() && NameRecordReadable(engine.data, name)
      modifies this`cache, engine
      ensures Valid()
      ensures r == FromStatus(old(engine.NextStatus())) && engine.faults == Consume(old(engine.faults))
      ensures engine.data == if r.Ok? then Apply(engine.merge, old(engine.data), DestroyOps(old(engine.data), name)) else old(engine.data)
      ensures cache == old(cache) - {name}
    {
      var batch: seq<BatchOp> := [];
      var found := GetTableIdByName(name);
      if found.Some? {
        var id := found.value;
        batch := batch + [BatchOp.Delete(BuildNameToIdTableInnerKey(name))];
        batch := batch + [BatchOp.Delete(BuildIdToNameTableInnerKey(id))];
        var anchor := BuildUserlandTableAnchor(id, MAX_USERLAND_KEY_LEN);
        batch := batch + [BatchOp.DeleteRange(id, anchor)];
      }
      assert batch == DestroyOps(engine.data, name);
      var s := engine.Write(batch);
      cache := cache - {name};
      r := FromStatus(s);
    }

    /** `truncate_table`: the table's key range in one batch, the records
        kept. */
    method TruncateTable(name: Bytes) returns (r: Result<()>)
      requires NameRecordReadable(engine.data, name)
      modifies engine
      ensures r == FromStatus(old(engine.NextStatus())) && engine.faults == Consume(old(engine.faults))
      ensures engine.data == if r.Ok? then Apply(engine.merge, old(engine.data), TruncateOps(old(engine.data), name)) else old(engine.data)
    {
      var batch: seq<BatchOp> := [];
      var found := GetTableIdByName(name);
      if found.Some? {
        var id := found.value;
        var anchor := BuildUserlandTableAnchor(id, MAX_USERLAND_KEY_LEN);
        batch := batch + [BatchOp.DeleteRange(id, anchor)];
      }
      var s := engine.Write(batch);
      r := FromStatus(s);
    }

    /** `rename_table`: both records rewritten in one batch, the id kept;
        the old name leaves the cache either way. */
    method RenameTable(oldName: Bytes, newName: Bytes) returns (r: Result<()>)
      requires Valid() && NameRecordReadable(engine.data, oldName)
      modifies this`cache, engine
      ensures Valid()
      ensures r == FromStatus(old(engine.NextStatus())) && engine.faults == Consume(old(engine.faults))
      ensures engine.data == if r.Ok? then Apply(engine.merge, old(engine.data), RenameOps(old(engine.data), oldName, newName)) else old(engine.data)
      ensures cache == old(cache) - {oldName}
    {
      var batch: seq<BatchOp> := [];
      var found := GetTableIdByName(oldName);
      if found.Some? {
        var id := found.value;
        var idToNameKey := BuildIdToNameTableInnerKey(id);
        batch := batch + [BatchOp.Delete(BuildNameToIdTableInnerKey(oldName))];
        batch := batch + [BatchOp.Delete(idToNameKey)];
        batch := batch + [BatchOp.Put(BuildNameToIdTableInnerKey(newName), id)];
        batch := batch + [BatchOp.Put(idToNameKey, newName)];
      }
      assert batch == RenameOps(engine.data, oldName, newName);
      var s := engine.Write(batch);
      cache := cache - {oldName};
      r := FromStatus(s);
    }

    /** `get_table_infos`: walks the id-to-name table in key order. */
    method GetTableInfos() returns (infos: seq<(Bytes, u32)>)
      requires IdToNameKeysReadable(engine.data)
      ensures infos == TableInfos(engine.data)
    {
      var iter := new DbRawIterator(engine);
      iter.Seek(ID_TO_NAME_TABLE_ID);
      ghost var ks := SortedKeys(Bucket(engine.data, ID_TO_NAME_TABLE_ID));
      ghost var i: nat := 0;
      assert ID_TO_NAME_TABLE_ID[..TABLE_ID_LEN] == ID_TO_NAME_TABLE_ID;
      SeekPrefixLandsOnFirst(engine.data, ID_TO_NAME_TABLE_ID, iter.current);
      infos := [];
      while iter.IsValid()
        invariant iter.Valid() && iter.view == engine.data && iter.prefix == ID_TO_NAME_TABLE_ID
        invariant i <= |ks|
        invariant iter.current == if i < |ks| then Some(ks[i]) else None
        invariant infos == TableInfos(engine.data)[..i]
        decreases |ks| - i
      {
        var key := iter.Key().value;
        var value := iter.Value().value;
        assert key == IdKeyAt(engine.data, i);
        var id := U8sToU32(ExtractKey(key));
        TableInfosStep(engine.data, i);
        infos := infos + [(value, id)];
        iter.Next();
        NextLandsOnSuccessor(engine.data, ID_TO_NAME_TABLE_ID, i, iter.current);
        i := i + 1;
      }
      assert TableInfos(engine.data)[..i] == TableInfos(engine.data);
    }

    /** `replay`: one store write per captured batch, in order, skipping
        absent records; stops at the first failing write. */
    method Replay(writeOpBatches: seq<WriteOpBatch>) returns (r: Result<u64>)
      modifies engine
      ensures var o := ReplayFrom(engine.merge, old(engine.data), old(engine.faults), Values(writeOpBatches), 0);
              engine.data == o.data && engine.faults == o.faults && r == o.result
    {
      var all := Values(writeOpBatches);
      ghost var m0, f0 := engine.data, engine.faults;
      var sn: u64 := 0;
      var i := 0;
      while i < |all|
        invariant 0 <= i <= |all|
        invariant ReplayFrom(engine.merge, m0, f0, all, 0) == ReplayFrom(engine.merge, engine.data, engine.faults, all[i..], sn)
      {
        var writeOpBatch := all[i];
        ReplayFirst(engine.merge, engine.data, engine.faults, all[i..], sn);
        assert all[i..][1..] == all[i + 1..];
        sn := writeOpBatch.sn;
        var batch := ToWriteBatch(writeOpBatch.writeOps);
        var s := engine.Write(batch);
        if s.IOError? {
          return Err(RocksdbError(s));
        }
        i := i + 1;
      }
      assert all[i..] == [];
      return Ok(sn);
    }
  }

  /** Opening a store (`NormalDb::open`, `TtlDb::open`): the placeholder
      step, the TTL-flag check for the store's mode, then the counter
      seeded from the last registered id; the cache starts empty. */
  method Open(engine: RocksdbDb, ttlEnabled: bool) returns (r: Result<Db>)
    requires LastIdKeyReadable(engine.data)
    modifies engine
    ensures r.Ok? ==>
              fresh(r.value) && r.value.engine == engine && r.value.ttlEnabled == ttlEnabled && r.value.cache == map[] &&
              r.value.Valid() && r.value.lastTableId == LastTableId(old(engine.data)) &&
              engine.data == WithTtlFlag(WithPlaceholder(old(engine.data)), ttlEnabled) &&
              PlaceholderKey() in engine.data && TtlFlag(engine.data) == Some(ttlEnabled)
    ensures TtlFlag(old(engine.data)).Some? && TtlFlag(old(engine.data)).value != ttlEnabled ==> r.Err?
    ensures forall k :: k != PlaceholderKey() && k != TtlFlagKey() ==> Lookup(engine.data, k) == Lookup(old(engine.data), k)
  {
    ghost var m0 := engine.data;
    var placed := TryPutPlaceholder(engine);
    if placed.Err? {
      return Err(placed.error);
    }
    InfoItemsDistinct();
    var checked := EnsureTtlEnabledConsistent(engine, ttlEnabled);
    if checked.Err? {
      return Err(checked.error);
    }
    assert engine.data == WithTtlFlag(WithPlaceholder(m0), ttlEnabled);
    OpenPreparesStore(m0, ttlEnabled);
    var last := GetLastTableId(engine);
    var db := new Db(engine, ttlEnabled, last.value);
    return Ok(db);
  }
}
