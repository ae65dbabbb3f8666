/** Tables (`src/table/normal_table.rs`, `src/table/ttl_table.rs`): a
    table is a table id over the shared store. Every user key is rewritten
    into the inner key `table id ++ key`; a TTL table also frames every
    value with the 4-byte time of its write. */
module Tables {
  import opened Types
  import opened Lex
  import opened Consts
  import opened Utils
  import opened Engine
  import opened RawIter
  import opened WriteBatches
  import opened Cursors

  class NormalTable {
    const db: RocksdbDb
    const id: TableId
    const anchor: Bytes

    /** `new` */
    constructor (db: RocksdbDb, id: TableId, anchor: Bytes)
      ensures this.db == db && this.id == id && this.anchor == anchor
    {
      this.db := db;
      this.id := id;
      this.anchor := anchor;
    }

    /** `put`: stores the value unchanged under the inner key. */
    method Put(key: Bytes, value: Bytes) returns (r: Result<()>)
      modifies db
      ensures r == FromStatus(old(db.NextStatus())) && db.faults == Consume(old(db.faults))
      ensures db.data == if r.Ok? then old(db.data)[BuildInnerKey(id, key) := value] else old(db.data)
    {
      var s := db.Put(BuildInnerKey(id, key), value);
      r := FromStatus(s);
    }

    /** `new_write_batch`: an empty batch bound to this table. */
    method NewWriteBatch() returns (b: NormalWriteBatch)
      ensures fresh(b) && b.inner == [] && b.tableId == id
    {
      b := new NormalWriteBatch(id);
    }

    /** `write`: commits the batch as one unit. */
    method Write(batch: NormalWriteBatch) returns (r: Result<()>)
      modifies db
      ensures r == FromStatus(old(db.NextStatus())) && db.faults == Consume(old(db.faults))
      ensures db.data == if r.Ok? then Apply(db.merge, old(db.data), batch.inner) else old(db.data)
    {
      var s := db.Write(batch.inner);
      r := FromStatus(s);
    }

    /** `delete`: removes exactly the inner key. */
    method Delete(key: Bytes) returns (r: Result<()>)
      modifies db
      ensures r == FromStatus(old(db.NextStatus())) && db.faults == Consume(old(db.faults))
      ensures db.data == if r.Ok? then old(db.data) - {BuildInnerKey(id, key)} else old(db.data)
    {
      var s := db.Delete(BuildInnerKey(id, key));
      r := FromStatus(s);
    }

    /** `get`: the value stored under the inner key. */
    function Get(key: Bytes): (r: Option<Bytes>)
      reads db
      ensures r.Some? <==> BuildInnerKey(id, key) in db.data
      ensures r.Some? ==> r.value == db.data[BuildInnerKey(id, key)]
    {
      db.Get(BuildInnerKey(id, key))
    }

    /** `new_cursor`: an unpositioned cursor over a snapshot of the store,
        bound to this table's id and anchor. */
    method NewCursor() returns (c: NormalCursor)
      ensures fresh(c) && fresh(c.inner) && c.Valid() && c.inner.current.None?
      ensures c.inner.view == db.data && c.tableId == id && c.anchor == anchor
    {
      var it := new DbRawIterator(db);
      c := new NormalCursor(it, id, anchor);
    }
  }

  class TtlTable {
    const db: RocksdbDb
    const id: TableId
    const anchor: Bytes

    /** `new` */
    constructor (db: RocksdbDb, id: TableId, anchor: Bytes)
      ensures this.db == db && this.id == id && this.anchor == anchor
    {
      this.db := db;
      this.id := id;
      this.anchor := anchor;
    }

    /** `put`: stores the value framed with the write time `now` (the
        clock reading, passed in) under the inner key. */
    method Put(key: Bytes, value: Bytes, now: u32) returns (r: Result<()>)
      modifies db
      ensures r == FromStatus(old(db.NextStatus())) && db.faults == Consume(old(db.faults))
      ensures db.data == if r.Ok? then old(db.data)[BuildInnerKey(id, key) := BuildTimestampedValue(U32ToU8a4(now), value)]
                         else old(db.data)
    {
      var s := db.Put(BuildInnerKey(id, key), BuildTimestampedValue(U32ToU8a4(now), value));
      r := FromStatus(s);
    }

    /** `new_write_batch`: an empty batch bound to this table. */
    method NewWriteBatch() returns (b: TtlWriteBatch)
      ensures fresh(b) && b.inner == [] && b.tableId == id
    {
      b := new TtlWriteBatch(id);
    }

    /** `write`: commits the batch's ops as one unit. */
    method Write(batch: TtlWriteBatch) returns (r: Result<()>)
      modifies db
      ensures r == FromStatus(old(db.NextStatus())) && db.faults == Consume(old(db.faults))
      ensures db.data == if r.Ok? then Apply(db.merge, old(db.data), batch.inner) else old(db.data)
    {
      var s := db.Write(batch.inner);
      r := FromStatus(s);
    }

    /** `delete`: removes exactly the inner key. */
    method Delete(key: Bytes) returns (r: Result<()>)
      modifies db
      ensures r == FromStatus(old(db.NextStatus())) && db.faults == Consume(old(db.faults))
      ensures db.data == if r.Ok? then old(db.data) - {BuildInnerKey(id, key)} else old(db.data)
    {
      var s := db.Delete(BuildInnerKey(id, key));
      r := FromStatus(s);
    }

    /** `get`: the stored value with its 4-byte timestamp dropped; the
        stored value must be at least that long. */
    function Get(key: Bytes): (r: Option<Bytes>)
      reads db
      requires BuildInnerKey(id, key) in db.data ==> |db.data[BuildInnerKey(id, key)]| >= TIMESTAMP_LEN
      ensures r.Some? <==> BuildInnerKey(id, key) in db.data
      ensures r.Some? ==> var stored := db.data[BuildInnerKey(id, key)];
                          BuildTimestampedValue(ExtractTimestamp(stored), r.value) == stored
    {
      match db.Get(BuildInnerKey(id, key))
      case Some(stored) => Some(ExtractValue(stored))
      case None => None
    }
  }

  /** A table as the registry hands it out: normal or TTL, by the store's
      mode. */
  datatype TableHandle = Normal(normal: NormalTable) | Ttl(ttl: TtlTable) {
    function Obj(): object {
      if Normal? then normal else ttl
    }

    function Id(): TableId {
      if Normal? then normal.id else ttl.id
    }

    function Db(): RocksdbDb {
      if Normal? then normal.db else ttl.db
    }

    function Anchor(): Bytes {
      if Normal? then normal.anchor else ttl.anchor
    }

    /** The bytes a put of `value` at time `now` stores: the value itself,
        or for a TTL table the value framed with the time. */
    function Stored(value: Bytes, now: u32): Bytes {
      if Normal? then value else BuildTimestampedValue(U32ToU8a4(now), value)
    }
  }

  //////////////////////////////////////////////////////////////////////////
  // What the table operations promise together
  //////////////////////////////////////////////////////////////////////////

  /** A put through one table is invisible to every other (table, key)
      pair: tables with different ids never read each other's writes. */
  lemma TablesIsolated(m: Store, a: TableId, ka: Bytes, v: Bytes, b: TableId, kb: Bytes)
    requires a != b || ka != kb
    ensures Lookup(m[BuildInnerKey(a, ka) := v], BuildInnerKey(b, kb)) == Lookup(m, BuildInnerKey(b, kb))
    ensures Lookup(m - {BuildInnerKey(a, ka)}, BuildInnerKey(b, kb)) == Lookup(m, BuildInnerKey(b, kb))
  {
    if BuildInnerKey(a, ka) == BuildInnerKey(b, kb) {
      InnerKeyInjective(a, ka, b, kb);
    }
  }

  /** The TTL round trip: what a TTL put stores reads back as the original
      value, and its frame decodes to the write time. */
  lemma TtlPutThenGet(value: Bytes, now: u32)
    ensures var stored := BuildTimestampedValue(U32ToU8a4(now), value);
            |stored| >= TIMESTAMP_LEN && ExtractValue(stored) == value && U8a4ToU32(ExtractTimestamp(stored)) == now
  {
    TimestampedValueRoundTrip(U32ToU8a4(now), value);
  }
}
