/** The key codec (`src/utils.rs`): big-endian conversion between `u32` and
    four bytes, inner keys (table id prefix + user key), timestamp framing
    of TTL values and the tail anchors that bound a table's key range. */
module Utils {
  import opened Types
  import opened Consts
  import opened Lex

  //////////////////////////////////////////////////////////////////////////
  // Big-endian conversion
  //////////////////////////////////////////////////////////////////////////

  function Pow256(n: nat): (r: nat)
    ensures r > 0
  {
    if n == 0 then 1 else 256 * Pow256(n - 1)
  }

  lemma {:induction false} ScaleBelow(x: nat, y: nat, p: nat)
    requires x < y
    ensures 0 <= x * p && x * p + p <= y * p
    decreases p
  {
    if p > 0 {
      ScaleBelow(x, y, p - 1);
      assert x * p == x * (p - 1) + x;
      assert y * p == y * (p - 1) + y;
    }
  }

  /** The unsigned big-endian number a byte string spells. */
  function BigEndianValue(s: Bytes): (v: nat)
    ensures v < Pow256(|s|)
    decreases |s|
  {
    if s == [] then 0
    else
      var p := Pow256(|s| - 1);
      assert Pow256(|s|) == 256 * p;
      var rest := BigEndianValue(s[1..]);
      ScaleBelow(s[0] as nat, 256, p);
      (s[0] as nat) * p + rest
  }

  /** Between byte strings of one length, the lexicographic order is the
      order of the numbers they spell. */
  lemma {:induction false} BigEndianOrder(a: Bytes, b: Bytes)
    requires |a| == |b|
    ensures Less(a, b) <==> BigEndianValue(a) < BigEndianValue(b)
    decreases |a|
  {
    if |a| > 0 {
      var p := Pow256(|a| - 1);
      BigEndianOrder(a[1..], b[1..]);
      if a[0] < b[0] {
        ScaleBelow(a[0] as nat, b[0] as nat, p);
      } else if b[0] < a[0] {
        ScaleBelow(b[0] as nat, a[0] as nat, p);
      }
    }
  }

  lemma BigEndianValue4(a: U8a4)
    ensures BigEndianValue(a) == (a[0] as int) * 0x100_0000 + (a[1] as int) * 0x1_0000 + (a[2] as int) * 0x100 + (a[3] as int)
  {
    assert Pow256(1) == 0x100 && Pow256(2) == 0x1_0000 && Pow256(3) == 0x100_0000;
    assert a[1..][1..] == a[2..];
    assert a[2..][1..] == a[3..];
    assert a[3..][1..] == [];
    assert BigEndianValue(a[3..]) == a[3] as int;
    assert BigEndianValue(a[2..]) == (a[2] as int) * 0x100 + a[3] as int;
    assert BigEndianValue(a[1..]) == (a[1] as int) * 0x1_0000 + (a[2] as int) * 0x100 + a[3] as int;
  }

  /** `u8a4_to_u32`: read four bytes as a big-endian `u32`. */
  function U8a4ToU32(a: U8a4): (n: u32)
  {
    BigEndianValue(a)
  }

  /** `u32_to_u8a4`: write a `u32` as four big-endian bytes. */
  function U32ToU8a4(n: u32): (a: U8a4)
    ensures U8a4ToU32(a) == n
  {
    var a: U8a4 := [n / 0x100_0000, (n / 0x1_0000) % 0x100, (n / 0x100) % 0x100, n % 0x100];
    BigEndianValue4(a);
    SplitU32(n);
    a
  }

  lemma SplitU32(n: u32)
    ensures n == (n / 0x100_0000) * 0x100_0000 + ((n / 0x1_0000) % 0x100) * 0x1_0000
                 + ((n / 0x100) % 0x100) * 0x100 + n % 0x100
  {
  }

  /** Division and remainder by a constant power of 256 take a number apart
      into its high and low digits. */
  lemma DivModSplit(q: nat, r: nat, d: nat)
    requires d == 0x100 || d == 0x1_0000 || d == 0x100_0000
    requires r < d
    ensures (q * d + r) / d == q && (q * d + r) % d == r
  {
  }

  lemma U8a4RoundTrip(a: U8a4)
    ensures U32ToU8a4(U8a4ToU32(a)) == a
  {
    BigEndianValue4(a);
    var n := U8a4ToU32(a);
    var a0, a1, a2, a3 := a[0] as nat, a[1] as nat, a[2] as nat, a[3] as nat;
    var hi1 := a0 * 0x100 + a1;
    var hi2 := hi1 * 0x100 + a2;
    assert n == hi2 * 0x100 + a3;
    assert n == hi1 * 0x1_0000 + (a2 * 0x100 + a3);
    assert n == a0 * 0x100_0000 + (a1 * 0x1_0000 + a2 * 0x100 + a3);
    DivModSplit(hi2, a3, 0x100);
    DivModSplit(hi1, a2 * 0x100 + a3, 0x1_0000);
    DivModSplit(a0, a1 * 0x1_0000 + a2 * 0x100 + a3, 0x100_0000);
    DivModSplit(hi1, a2, 0x100);
    DivModSplit(a0, a1, 0x100);
  }

  /** Comparing ids as numbers and comparing their 4-byte encodings as byte
      arrays agree; the allocator's limit check and the compaction filter's
      reserved-table check compare the arrays. */
  lemma U32OrderIsByteOrder(x: u32, y: u32)
    ensures x < y <==> Less(U32ToU8a4(x), U32ToU8a4(y))
  {
    BigEndianOrder(U32ToU8a4(x), U32ToU8a4(y));
  }

  lemma U8a4OrderIsNumericOrder(a: U8a4, b: U8a4)
    ensures Less(a, b) <==> U8a4ToU32(a) < U8a4ToU32(b)
  {
    BigEndianOrder(a, b);
  }

  /** `u32` addition as a release build performs it: modulo 2^32. */
  function WrappingAdd(a: u32, b: u32): (r: u32)
    ensures a as int + b as int < 0x1_0000_0000 ==> r as int == a as int + b as int
    ensures a as int + b as int >= 0x1_0000_0000 ==> r as int == a as int + b as int - 0x1_0000_0000
  {
    (a as int + b as int) % 0x1_0000_0000
  }

  /** `u8s_to_u32`: the big-endian number in the first four bytes; the
      rest of the slice is ignored. */
  function U8sToU32(s: Bytes): (n: u32)
    requires |s| >= 4
    ensures U32ToU8a4(n) == s[..4]
  {
    U8a4RoundTrip(s[..4]);
    U8a4ToU32(s[..4])
  }

  /** `u8s_to_u8a4` */
  function U8sToU8a4(s: Bytes): (a: U8a4)
    requires |s| >= 4
    ensures a == s[..4]
  {
    U32ToU8a4(U8sToU32(s))
  }

  //////////////////////////////////////////////////////////////////////////
  // Keys and values
  //////////////////////////////////////////////////////////////////////////

  /** `build_inner_key`: the table id followed by the user key. */
  function BuildInnerKey(tableId: TableId, key: Bytes): (r: Bytes)
    ensures |r| == TABLE_ID_LEN + |key|
  {
    tableId + key
  }

  /** `extract_table_id` */
  function ExtractTableId(buf: Bytes): (id: TableId)
    requires |buf| >= TABLE_ID_LEN
    ensures HasPrefix(buf, id)
  {
    buf[..TABLE_ID_LEN]
  }

  /** `extract_key`: what follows the table id; with `ExtractTableId` it
      takes an inner key apart exactly. */
  function ExtractKey(buf: Bytes): (key: Bytes)
    requires |buf| >= TABLE_ID_LEN
    ensures BuildInnerKey(ExtractTableId(buf), key) == buf
  {
    buf[TABLE_ID_LEN..]
  }

  lemma InnerKeyRoundTrip(tableId: TableId, key: Bytes)
    ensures ExtractTableId(BuildInnerKey(tableId, key)) == tableId
    ensures ExtractKey(BuildInnerKey(tableId, key)) == key
  {
  }

  /** Distinct (table id, user key) pairs have distinct inner keys. */
  lemma InnerKeyInjective(a: TableId, x: Bytes, b: TableId, y: Bytes)
    requires BuildInnerKey(a, x) == BuildInnerKey(b, y)
    ensures a == b && x == y
  {
    InnerKeyRoundTrip(a, x);
    InnerKeyRoundTrip(b, y);
  }

  /** `build_timestamped_value`: the timestamp followed by the user value. */
  function BuildTimestampedValue(timestamp: Timestamp, value: Bytes): (r: Bytes)
    ensures |r| == TIMESTAMP_LEN + |value|
  {
    timestamp + value
  }

  /** `extract_timestamp` */
  function ExtractTimestamp(buf: Bytes): (ts: Timestamp)
    requires |buf| >= TIMESTAMP_LEN
    ensures HasPrefix(buf, ts)
  {
    buf[..TIMESTAMP_LEN]
  }

  /** `extract_value`: what follows the timestamp. */
  function ExtractValue(buf: Bytes): (value: Bytes)
    requires |buf| >= TIMESTAMP_LEN
    ensures BuildTimestampedValue(ExtractTimestamp(buf), value) == buf
  {
    buf[TIMESTAMP_LEN..]
  }

  lemma TimestampedValueRoundTrip(timestamp: Timestamp, value: Bytes)
    ensures ExtractTimestamp(BuildTimestampedValue(timestamp, value)) == timestamp
    ensures ExtractValue(BuildTimestampedValue(timestamp, value)) == value
  {
  }

  /** `build_info_table_inner_key` */
  function BuildInfoTableInnerKey(itemId: ItemId): (r: Bytes)
    ensures |r| == 6 && ExtractTableId(r) == INFO_TABLE_ID && ExtractKey(r) == itemId
  {
    BuildInnerKey(INFO_TABLE_ID, itemId)
  }

  /** `build_name_to_id_table_inner_key` */
  function BuildNameToIdTableInnerKey(name: Bytes): (r: Bytes)
    ensures |r| >= TABLE_ID_LEN && ExtractTableId(r) == NAME_TO_ID_TABLE_ID && ExtractKey(r) == name
  {
    BuildInnerKey(NAME_TO_ID_TABLE_ID, name)
  }

  /** `build_id_to_name_table_inner_key` */
  function BuildIdToNameTableInnerKey(tableId: TableId): (r: Bytes)
    ensures |r| == 8 && ExtractTableId(r) == ID_TO_NAME_TABLE_ID && ExtractKey(r) == tableId
  {
    BuildInnerKey(ID_TO_NAME_TABLE_ID, tableId)
  }

  /** `build_userland_table_anchor`: the table id followed by `keyLen + 1`
      bytes of 0xFF. */
  function BuildUserlandTableAnchor(tableId: TableId, keyLen: nat): (r: Bytes)
    ensures |r| == TABLE_ID_LEN + keyLen + 1
    ensures ExtractTableId(r) == tableId && ExtractKey(r) == Ones(keyLen + 1)
  {
    BuildInnerKey(tableId, Ones(keyLen + 1))
  }

  /** `build_id_to_name_table_anchor`: the id-to-name table's id followed by
      five bytes of 0xFF. */
  function BuildIdToNameTableAnchor(): (r: Bytes)
    ensures r == BuildUserlandTableAnchor(ID_TO_NAME_TABLE_ID, TABLE_ID_LEN)
  {
    BuildInnerKey(ID_TO_NAME_TABLE_ID, Ones(TABLE_ID_LEN + 1))
  }

  //////////////////////////////////////////////////////////////////////////
  // Properties of the layout
  //////////////////////////////////////////////////////////////////////////

  /** The tail anchor bounds a table: an inner key of the table sorts below
      the anchor exactly when its user key does not start with `keyLen + 1`
      bytes of 0xFF. */
  lemma AnchorBoundsTable(tableId: TableId, keyLen: nat, key: Bytes)
    ensures Less(BuildInnerKey(tableId, key), BuildUserlandTableAnchor(tableId, keyLen))
            <==> !HasPrefix(key, Ones(keyLen + 1))
  {
    LessCommonPrefix(tableId, key, Ones(keyLen + 1));
    LessOnes(key, keyLen + 1);
  }

  /** In particular every user key of at most `keyLen` bytes lies below it. */
  lemma ShortKeysBelowAnchor(tableId: TableId, keyLen: nat, key: Bytes)
    requires |key| <= keyLen
    ensures Less(BuildInnerKey(tableId, key), BuildUserlandTableAnchor(tableId, keyLen))
  {
    AnchorBoundsTable(tableId, keyLen, key);
  }

  /** The bare table id sorts at or before every inner key of its table. */
  lemma TableIdIsHeadAnchor(tableId: TableId, key: Bytes)
    ensures Le(tableId, BuildInnerKey(tableId, key))
  {
    PrefixLe(tableId, key);
  }

  /** Every inner key of a lower id sorts before every inner key of a higher
      id, whatever the user keys: one flat keyspace emulates separate
      ordered tables. */
  lemma InnerKeysOrderedByTableId(a: TableId, b: TableId, x: Bytes, y: Bytes)
    requires U8a4ToU32(a) < U8a4ToU32(b)
    ensures Less(BuildInnerKey(a, x), BuildInnerKey(b, y))
  {
    U8a4OrderIsNumericOrder(a, b);
    LessSameLengthHeads(a, b, x, y);
  }

  /** The reserved and limit ids decode to the numbers their comments give;
      the three system tables lie below the userland range. */
  lemma ReservedTableIds()
    ensures U8a4ToU32(MIN_USERLAND_TABLE_ID) == 1024
    ensures U8a4ToU32(MAX_USERLAND_TABLE_ID) == 4294967294
    ensures U8a4ToU32(INFO_TABLE_ID) == 0
    ensures U8a4ToU32(NAME_TO_ID_TABLE_ID) == 1
    ensures U8a4ToU32(ID_TO_NAME_TABLE_ID) == 2
    ensures Less(INFO_TABLE_ID, MIN_USERLAND_TABLE_ID)
    ensures Less(NAME_TO_ID_TABLE_ID, MIN_USERLAND_TABLE_ID)
    ensures Less(ID_TO_NAME_TABLE_ID, MIN_USERLAND_TABLE_ID)
  {
    BigEndianValue4(MIN_USERLAND_TABLE_ID);
    BigEndianValue4(MAX_USERLAND_TABLE_ID);
    BigEndianValue4(INFO_TABLE_ID);
    BigEndianValue4(NAME_TO_ID_TABLE_ID);
    BigEndianValue4(ID_TO_NAME_TABLE_ID);
  }

  /** The table name of the codec's name-to-id example, "huobi.btc.usdt.1m",
      as bytes. */
  const HUOBI_BTC_USDT_1M: Bytes :=
    [104, 117, 111, 98, 105, 46, 98, 116, 99, 46, 117, 115, 100, 116, 46, 49, 109]

  /** The examples the codec's own tests check. */
  lemma CodecExamples()
    ensures BuildInfoTableInnerKey(PLACEHOLDER_ITEM_ID) == [0, 0, 0, 0, 0, 0]
    ensures BuildNameToIdTableInnerKey(HUOBI_BTC_USDT_1M)
            == [0, 0, 0, 1, 104, 117, 111, 98, 105, 46, 98, 116, 99, 46, 117, 115, 100, 116, 46, 49, 109]
    ensures BuildIdToNameTableInnerKey([0, 0, 4, 0]) == [0, 0, 0, 2, 0, 0, 4, 0]
    ensures BuildUserlandTableAnchor([0, 0, 4, 0], 4) == [0, 0, 4, 0, 255, 255, 255, 255, 255]
    ensures BuildIdToNameTableAnchor() == [0, 0, 0, 2, 255, 255, 255, 255, 255]
    ensures BuildInnerKey([0, 0, 4, 0], [0, 0, 0, 0]) == [0, 0, 4, 0, 0, 0, 0, 0]
    ensures ExtractTableId([0, 0, 4, 0, 0, 0, 0, 0]) == [0, 0, 4, 0]
    ensures ExtractKey([0, 0, 4, 0, 0, 0, 0, 128, 0, 254]) == [0, 0, 0, 128, 0, 254]
  {
    assert Ones(5) == [255, 255, 255, 255, 255];
  }
}
