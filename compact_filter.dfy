/** The TTL compaction filter (`src/compact_filter.rs`): during compaction
    the store asks, entry by entry, whether to keep it; an entry of a
    userland table whose value is framed with a write time older than the
    store's TTL is removed. The clock reading `now` is a parameter. */
module CompactFilter {
  import opened Types
  import opened Lex
  import opened Consts
  import opened Utils
  import opened Engine

  datatype Decision = Keep | Remove

  /** The entry is one the filter inspects at all: key and value each hold
      at least four bytes, and the key's table is not a system table. */
  predicate Inspected(key: Bytes, value: Bytes) {
    |key| >= TABLE_ID_LEN && |value| >= TIMESTAMP_LEN && !Less(ExtractTableId(key), MIN_USERLAND_TABLE_ID)
  }

  /** `u8s_to_u8a4` of the key's table-id bytes: the table id itself. */
  function TableIdOf(key: Bytes): (id: TableId)
    requires |key| >= TABLE_ID_LEN
    ensures id == ExtractTableId(key)
  {
    var id := U8sToU8a4(ExtractTableId(key));
    assert ExtractTableId(key)[..4] == ExtractTableId(key);
    id
  }

  /** The write time framed into a value. */
  function WriteTime(value: Bytes): (t: u32)
    requires |value| >= TIMESTAMP_LEN
    ensures U32ToU8a4(t) == ExtractTimestamp(value)
  {
    U8sToU32(ExtractTimestamp(value))
  }

  /** `filter` as written: the expiry test adds the write time and the TTL
      in `u32`, which wraps around when their sum passes 2^32 - 1. */
  function FilterAsWritten(ttl: u32, now: u32, key: Bytes, value: Bytes): (d: Decision)
    ensures d == Remove ==> Inspected(key, value)
  {
    if |key| < TABLE_ID_LEN || |value| < TIMESTAMP_LEN then Keep
    else if Less(TableIdOf(key), MIN_USERLAND_TABLE_ID) then Keep
    else if WrappingAdd(WriteTime(value), ttl) < now then Remove
    else Keep
  }

  /** `filter` as intended: the same tests, with the expiry test done on the
      unbounded sum. */
  function Filter(ttl: u32, now: u32, key: Bytes, value: Bytes): (d: Decision)
    ensures d == Remove ==> Inspected(key, value)
  {
    if |key| < TABLE_ID_LEN || |value| < TIMESTAMP_LEN then Keep
    else if Less(TableIdOf(key), MIN_USERLAND_TABLE_ID) then Keep
    else if WriteTime(value) as int + ttl as int < now as int then Remove
    else Keep
  }

  //////////////////////////////////////////////////////////////////////////
  // What the filter promises
  //////////////////////////////////////////////////////////////////////////

  /** An entry is removed exactly when it is inspected and more than `ttl`
      seconds have passed since its write time. */
  lemma FilterRemovesExactlyExpired(ttl: u32, now: u32, key: Bytes, value: Bytes)
    ensures Filter(ttl, now, key, value) == Remove
            <==> Inspected(key, value) && now as int - WriteTime(value) as int > ttl as int
  {
  }

  /** Entries of the info, name-to-id and id-to-name tables are never
      removed, whatever their values and however old. */
  lemma SystemTablesKept(ttl: u32, now: u32, tableId: TableId, key: Bytes, value: Bytes)
    requires tableId in {INFO_TABLE_ID, NAME_TO_ID_TABLE_ID, ID_TO_NAME_TABLE_ID}
    ensures Filter(ttl, now, BuildInnerKey(tableId, key), value) == Keep
  {
    ReservedTableIds();
    InnerKeyRoundTrip(tableId, key);
  }

  /** Once an entry has expired it stays expired as the clock moves on. */
  lemma ExpiryIsPermanent(ttl: u32, now: u32, later: u32, key: Bytes, value: Bytes)
    requires now <= later
    requires Filter(ttl, now, key, value) == Remove
    ensures Filter(ttl, later, key, value) == Remove
  {
  }

  /** A longer TTL never removes an entry a shorter one keeps. */
  lemma LongerTtlRemovesLess(ttl: u32, longer: u32, now: u32, key: Bytes, value: Bytes)
    requires ttl <= longer
    requires Filter(longer, now, key, value) == Remove
    ensures Filter(ttl, now, key, value) == Remove
  {
  }

  /** A value a TTL table wrote at time `t` reads back that write time. */
  lemma WriteTimeOfPut(t: u32, value: Bytes)
    ensures WriteTime(BuildTimestampedValue(U32ToU8a4(t), value)) == t
  {
    TimestampedValueRoundTrip(U32ToU8a4(t), value);
    var n := WriteTime(BuildTimestampedValue(U32ToU8a4(t), value));
    assert U32ToU8a4(n) == U32ToU8a4(t);
    assert U8a4ToU32(U32ToU8a4(n)) == U8a4ToU32(U32ToU8a4(t));
  }

  /** A TTL put to a userland table at time `t` survives compaction up to
      `t + ttl` inclusive and is removed at any later time. */
  lemma TtlPutLifetime(ttl: u32, now: u32, tableId: TableId, key: Bytes, t: u32, value: Bytes)
    requires !Less(tableId, MIN_USERLAND_TABLE_ID)
    ensures Filter(ttl, now, BuildInnerKey(tableId, key), BuildTimestampedValue(U32ToU8a4(t), value)) == Remove
            <==> now as int > t as int + ttl as int
  {
    WriteTimeOfPut(t, value);
    InnerKeyRoundTrip(tableId, key);
  }

  /** Where the sum does not pass 2^32 - 1 the written filter and the
      intended one agree. */
  lemma AsWrittenAgreesWithoutOverflow(ttl: u32, now: u32, key: Bytes, value: Bytes)
    requires |value| >= TIMESTAMP_LEN ==> WriteTime(value) as int + ttl as int < 0x1_0000_0000
    ensures FilterAsWritten(ttl, now, key, value) == Filter(ttl, now, key, value)
  {
  }

  /** The wrap-around: with a TTL of 3000000000 seconds, an entry written at
      time 1700000000 is removed one second later, long before it expires. */
  lemma AsWrittenRemovesLiveEntry()
    ensures var key := BuildInnerKey(MIN_USERLAND_TABLE_ID, [107, 49]);
            var value := BuildTimestampedValue(U32ToU8a4(1700000000), [97]);
            FilterAsWritten(3000000000, 1700000001, key, value) == Remove &&
            Filter(3000000000, 1700000001, key, value) == Keep
  {
    var key := BuildInnerKey(MIN_USERLAND_TABLE_ID, [107, 49]);
    var value := BuildTimestampedValue(U32ToU8a4(1700000000), [97]);
    WriteTimeOfPut(1700000000, [97]);
    InnerKeyRoundTrip(MIN_USERLAND_TABLE_ID, [107, 49]);
    LessIrreflexive(MIN_USERLAND_TABLE_ID);
    assert WrappingAdd(1700000000, 3000000000) == 405032704;
  }

  //////////////////////////////////////////////////////////////////////////
  // A compaction over the whole store
  //////////////////////////////////////////////////////////////////////////

  /** A full-range compaction under the filter: every entry it removes is
      dropped, the others are kept unchanged. */
  function Compact(ttl: u32, now: u32, m: Store): (r: Store)
    ensures forall k :: k in r <==> k in m && Filter(ttl, now, k, m[k]) == Keep
    ensures forall k :: k in r ==> r[k] == m[k]
  {
    map k | k in m && Filter(ttl, now, k, m[k]) == Keep :: m[k]
  }

  /** Compacting twice at the same time removes nothing more. */
  lemma CompactIdempotent(ttl: u32, now: u32, m: Store)
    ensures Compact(ttl, now, Compact(ttl, now, m)) == Compact(ttl, now, m)
  {
    var once := Compact(ttl, now, m);
    var twice := Compact(ttl, now, once);
    assert forall k :: k in twice <==> k in once;
  }

  /** The compaction test: a store with TTL 1 holds the placeholder item of
      the info table and a value written to the first userland table at
      time `t`. A compaction at time `t` or one second later keeps both; a
      compaction two or more seconds later drops the value and keeps the
      placeholder. The test's two further puts (keys `_k` and `%k`) and the
      table's registry records are left out of the store here; they do not
      bear on the fate of `k1` or of the placeholder. */
  lemma CompactionTest(t: u32, now: u32)
    requires t as int + 2 <= now as int
    ensures var placeholder := BuildInfoTableInnerKey(PLACEHOLDER_ITEM_ID);
            var k1 := BuildInnerKey(MIN_USERLAND_TABLE_ID, [107, 49]);
            var m := map[placeholder := [0, 0], k1 := BuildTimestampedValue(U32ToU8a4(t), [97])];
            Compact(1, t, m) == m &&
            Compact(1, (t as int + 1) as u32, m) == m &&
            Compact(1, now, m) == map[placeholder := [0, 0]]
  {
    var placeholder := BuildInfoTableInnerKey(PLACEHOLDER_ITEM_ID);
    var k1 := BuildInnerKey(MIN_USERLAND_TABLE_ID, [107, 49]);
    var v1 := BuildTimestampedValue(U32ToU8a4(t), [97]);
    var m := map[placeholder := [0, 0], k1 := v1];
    LessIrreflexive(MIN_USERLAND_TABLE_ID);
    TtlPutLifetime(1, t, MIN_USERLAND_TABLE_ID, [107, 49], t, [97]);
    var next := (t as int + 1) as u32;
    TtlPutLifetime(1, next, MIN_USERLAND_TABLE_ID, [107, 49], t, [97]);
    TtlPutLifetime(1, now, MIN_USERLAND_TABLE_ID, [107, 49], t, [97]);
    assert placeholder != k1 by {
      assert placeholder[2] != k1[2];
    }
    assert Filter(1, t, placeholder, [0, 0]) == Keep;
    assert Filter(1, next, placeholder, [0, 0]) == Keep;
    assert Filter(1, now, placeholder, [0, 0]) == Keep;
    assert Compact(1, t, m) == m;
    assert Compact(1, next, m) == m;
    assert Compact(1, now, m) == map[placeholder := [0, 0]];
  }

  //////////////////////////////////////////////////////////////////////////
  // The filter and its factory as the store holds them
  //////////////////////////////////////////////////////////////////////////

  class CompactionFilterImpl {
    const name: seq<char>
    const ttl: u32

    /** `new` */
    constructor (ttl: u32)
      ensures this.ttl == ttl && name == "seriesdb_compaction_filter"
    {
      this.ttl := ttl;
      name := "seriesdb_compaction_filter";
    }

    /** `filter`: the decision for one entry; the compaction level is not
        consulted. */
    method Decide(level: u32, key: Bytes, value: Bytes, now: u32) returns (d: Decision)
      ensures d == Filter(ttl, now, key, value)
    {
      if |key| < TABLE_ID_LEN || |value| < TIMESTAMP_LEN {
        return Keep;
      }
      var tableId := TableIdOf(key);
      if Less(tableId, MIN_USERLAND_TABLE_ID) {
        return Keep;
      }
      var timestamp := U8sToU32(ExtractTimestamp(value));
      if timestamp as int + ttl as int < now as int {
        return Remove;
      }
      return Keep;
    }
  }

  class CompactionFilterFactoryImpl {
    const name: seq<char>
    const ttl: u32

    /** `new` */
    constructor (ttl: u32)
      ensures this.ttl == ttl && name == "seriesdb_compaction_filter_factory"
    {
      this.ttl := ttl;
      name := "seriesdb_compaction_filter_factory";
    }

    /** `create`: a filter with the factory's TTL, for every compaction. */
    method Create() returns (f: CompactionFilterImpl)
      ensures fresh(f) && f.ttl == ttl
    {
      f := new CompactionFilterImpl(ttl);
    }
  }
}
