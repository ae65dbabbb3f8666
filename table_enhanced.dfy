/** `TableEnhanced` (`src/table/table_enhanced.rs`): a table that takes
    typed keys and values, encodes them with its coder and delegates to the
    byte-level table it wraps. */
module TablesEnhanced {
  import opened Types
  import opened Consts
  import opened Utils
  import opened Engine
  import opened WriteBatches
  import opened Cursors
  import opened Tables
  import opened Coders
  import opened WriteBatchesEnhanced
  import opened CursorsEnhanced

  class TableEnhanced<K, V> {
    const raw: TableHandle
    const coder: Coder<K, V>

    /** `new`, and `enhance` of the wrapped table. */
    constructor (raw: TableHandle, coder: Coder<K, V>)
      ensures this.raw == raw && this.coder == coder
    {
      this.raw := raw;
      this.coder := coder;
    }

    /** `id`: the wrapped table's id. */
    function Id(): TableId {
      raw.Id()
    }

    /** `put`: the raw put of the encoded key and value; `now` is the clock
        reading a TTL table frames the value with. */
    method Put(key: K, value: V, now: u32) returns (r: Result<()>)
      modifies raw.Db()
      ensures r == FromStatus(old(raw.Db().NextStatus())) && raw.Db().faults == Consume(old(raw.Db().faults))
      ensures raw.Db().data ==
                if r.Ok? then old(raw.Db().data)[BuildInnerKey(Id(), coder.encodeKey(key)) := raw.Stored(coder.encodeValue(value), now)]
                else old(raw.Db().data)
    {
      match raw
      case Normal(t) => r := t.Put(coder.encodeKey(key), coder.encodeValue(value));
      case Ttl(t) => r := t.Put(coder.encodeKey(key), coder.encodeValue(value), now);
    }

    /** `new_write_batch`: an empty batch of the wrapped table's kind, bound
        to its id and to this coder. */
    method NewWriteBatch() returns (b: WriteBatchEnhanced<K, V>)
      ensures fresh(b) && fresh(b.raw.Obj()) && b.coder == coder
      ensures (b.raw.NormalBatch? <==> raw.Normal?) && b.raw.TableId() == Id() && b.raw.Inner() == []
    {
      match raw
      case Normal(t) =>
        var inner := t.NewWriteBatch();
        b := new WriteBatchEnhanced(NormalBatch(inner), coder);
      case Ttl(t) =>
        var inner := t.NewWriteBatch();
        b := new WriteBatchEnhanced(TtlBatch(inner), coder);
    }

    /** `write`: commits the wrapped batch as one unit. The batch has the
        wrapped table's kind, as the types demand. */
    method Write(batch: WriteBatchEnhanced<K, V>) returns (r: Result<()>)
      requires batch.raw.NormalBatch? <==> raw.Normal?
      modifies raw.Db()
      ensures r == FromStatus(old(raw.Db().NextStatus())) && raw.Db().faults == Consume(old(raw.Db().faults))
      ensures raw.Db().data == if r.Ok? then Apply(raw.Db().merge, old(raw.Db().data), old(batch.raw.Inner())) else old(raw.Db().data)
    {
      match raw
      case Normal(t) => r := t.Write(batch.raw.normal);
      case Ttl(t) => r := t.Write(batch.raw.ttl);
    }

    /** `delete`: the raw delete of the encoded key. */
    method Delete(key: K) returns (r: Result<()>)
      modifies raw.Db()
      ensures r == FromStatus(old(raw.Db().NextStatus())) && raw.Db().faults == Consume(old(raw.Db().faults))
      ensures raw.Db().data == if r.Ok? then old(raw.Db().data) - {BuildInnerKey(Id(), coder.encodeKey(key))} else old(raw.Db().data)
    {
      match raw
      case Normal(t) => r := t.Delete(coder.encodeKey(key));
      case Ttl(t) => r := t.Delete(coder.encodeKey(key));
    }

    /** `get`: the raw get of the encoded key; the value comes back as bytes,
        unframed for a TTL table. */
    function Get(key: K): (r: Option<Bytes>)
      reads raw.Db()
      requires var k := BuildInnerKey(Id(), coder.encodeKey(key));
               raw.Ttl? && k in raw.Db().data ==> |raw.Db().data[k]| >= TIMESTAMP_LEN
      ensures var k := BuildInnerKey(Id(), coder.encodeKey(key));
              (r.Some? <==> k in raw.Db().data) &&
              (r.Some? && raw.Normal? ==> r.value == raw.Db().data[k]) &&
              (r.Some? && raw.Ttl? ==> BuildTimestampedValue(ExtractTimestamp(raw.Db().data[k]), r.value) == raw.Db().data[k])
    {
      match raw
      case Normal(t) => t.Get(coder.encodeKey(key))
      case Ttl(t) => t.Get(coder.encodeKey(key))
    }

    /** `cursor`: an unpositioned typed cursor over a snapshot of the store,
        bound to this table; only normal tables have one here. */
    method Cursor() returns (c: CursorEnhanced<K, V>)
      requires raw.Normal?
      ensures fresh(c) && fresh(c.raw) && fresh(c.raw.inner) && c.coder == coder
      ensures c.raw.Valid() && c.raw.inner.current.None?
      ensures c.raw.inner.view == raw.Db().data && c.raw.tableId == Id() && c.raw.anchor == raw.Anchor()
    {
      var inner := raw.normal.NewCursor();
      c := new CursorEnhanced(inner, coder);
    }
  }

  /** A coder whose key encoding never maps two keys to the same bytes. */
  ghost predicate KeyInjective<K(!new), V>(coder: Coder<K, V>) {
    forall a: K, b: K :: coder.encodeKey(a) == coder.encodeKey(b) ==> a == b
  }

  /** With such a coder, a typed put of one key leaves every other key of
      every table as it was. */
  lemma TypedPutIsolated<K(!new), V>(coder: Coder<K, V>, m: Store, h: TableHandle, key: K, value: V, now: u32, other: TableId, otherKey: K)
    requires KeyInjective(coder)
    requires other != h.Id() || otherKey != key
    ensures var written := m[BuildInnerKey(h.Id(), coder.encodeKey(key)) := h.Stored(coder.encodeValue(value), now)];
            Lookup(written, BuildInnerKey(other, coder.encodeKey(otherKey))) == Lookup(m, BuildInnerKey(other, coder.encodeKey(otherKey)))
  {
    TablesIsolated(m, h.Id(), coder.encodeKey(key), h.Stored(coder.encodeValue(value), now), other, coder.encodeKey(otherKey));
  }
}
