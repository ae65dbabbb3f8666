/** `NormalCursor` (`src/cursor/normal_cursor.rs`, with the identical
    defaults of the `Cursor` trait in `src/cursor/cursor.rs`): a raw
    iterator bound to one table, whose seeks prefix their target with the
    table id and whose keys come back without it. */
module Cursors {
  import opened Types
  import opened Lex
  import opened Consts
  import opened Utils
  import opened Engine
  import opened RawIter

  /** The inner key `BuildInnerKey(tableId, key)` carries the table id as
      its seek prefix. */
  lemma InnerKeyPrefix(tableId: TableId, key: Bytes)
    ensures |BuildInnerKey(tableId, key)| >= TABLE_ID_LEN
    ensures BuildInnerKey(tableId, key)[..TABLE_ID_LEN] == tableId
  {
    InnerKeyRoundTrip(tableId, key);
  }

  /** What `seek_to_last` can reach: the keys of the table at or below its
      tail anchor are the anchor itself and every key whose user key does
      not start with `keyLen + 1` bytes of 0xFF. */
  lemma SeekToLastScope(view: Store, tableId: TableId, keyLen: nat, k: Bytes)
    ensures k in AtOrBefore(view, tableId, BuildUserlandTableAnchor(tableId, keyLen)) <==>
            k in Bucket(view, tableId) &&
            (k == BuildUserlandTableAnchor(tableId, keyLen) || !HasPrefix(k[TABLE_ID_LEN..], Ones(keyLen + 1)))
  {
    if k in view && HasPrefix(k, tableId) {
      var u := k[TABLE_ID_LEN..];
      assert k == BuildInnerKey(tableId, u);
      AnchorBoundsTable(tableId, keyLen, u);
    }
  }

  class NormalCursor {
    const inner: DbRawIterator
    const tableId: TableId
    const anchor: Bytes

    /** The iterator stands, if anywhere, on a key of this table. */
    ghost predicate Valid()
      reads this, inner
    {
      inner.Valid() && (inner.current.Some? ==> inner.prefix == tableId)
    }

    /** `new`: the table id and the tail anchor are fixed here. */
    constructor (inner: DbRawIterator, tableId: TableId, anchor: Bytes)
      requires inner.Valid() && inner.current.None?
      ensures this.inner == inner && this.tableId == tableId && this.anchor == anchor && Valid()
    {
      this.inner := inner;
      this.tableId := tableId;
      this.anchor := anchor;
    }

    /** `is_valid` */
    function IsValid(): bool
      reads this, inner
    {
      inner.IsValid()
    }

    /** `status` */
    function Status(): (r: Result<()>)
      ensures r.Ok?
    {
      inner.Status()
    }

    /** `seek_to_first`: seeks to the bare table id, which lands on the
        table's least key. */
    method SeekToFirst()
      modifies inner
      ensures Valid()
      ensures inner.current.None? <==> Bucket(inner.view, tableId) == {}
      ensures inner.current.Some? ==> IsLeast(inner.current.value, Bucket(inner.view, tableId))
    {
      inner.Seek(tableId);
      SeekPrefixCoversBucket(inner.view, tableId);
    }

    /** `seek_to_last`: seeks for the previous key from the tail anchor. */
    method SeekToLast()
      requires HasPrefix(anchor, tableId)
      modifies inner
      ensures Valid()
      ensures inner.current.None? <==> AtOrBefore(inner.view, tableId, anchor) == {}
      ensures inner.current.Some? ==> IsGreatest(inner.current.value, AtOrBefore(inner.view, tableId, anchor))
    {
      inner.SeekForPrev(anchor);
    }

    /** `seek`: the least key of the table at or after the user key. */
    method Seek(key: Bytes)
      modifies inner
      ensures Valid()
      ensures inner.current.None? <==> AtOrAfter(inner.view, tableId, BuildInnerKey(tableId, key)) == {}
      ensures inner.current.Some? ==> IsLeast(inner.current.value, AtOrAfter(inner.view, tableId, BuildInnerKey(tableId, key)))
    {
      InnerKeyPrefix(tableId, key);
      inner.Seek(BuildInnerKey(tableId, key));
    }

    /** `seek_for_prev`: the greatest key of the table at or before the user
        key. */
    method SeekForPrev(key: Bytes)
      modifies inner
      ensures Valid()
      ensures inner.current.None? <==> AtOrBefore(inner.view, tableId, BuildInnerKey(tableId, key)) == {}
      ensures inner.current.Some? ==> IsGreatest(inner.current.value, AtOrBefore(inner.view, tableId, BuildInnerKey(tableId, key)))
    {
      InnerKeyPrefix(tableId, key);
      inner.SeekForPrev(BuildInnerKey(tableId, key));
    }

    /** `next`: the next key of the table. */
    method Next()
      requires Valid() && IsValid()
      modifies inner`current
      ensures Valid()
      ensures inner.current.None? <==> After(inner.view, tableId, old(inner.current.value)) == {}
      ensures inner.current.Some? ==> IsLeast(inner.current.value, After(inner.view, tableId, old(inner.current.value)))
    {
      inner.Next();
    }

    /** `prev`: the previous key of the table. */
    method Prev()
      requires Valid() && IsValid()
      modifies inner`current
      ensures Valid()
      ensures inner.current.None? <==> Before(inner.view, tableId, old(inner.current.value)) == {}
      ensures inner.current.Some? ==> IsGreatest(inner.current.value, Before(inner.view, tableId, old(inner.current.value)))
    {
      inner.Prev();
    }

    /** `key`: the user key, that is, the current inner key with the table
        id stripped. */
    function Key(): (r: Option<Bytes>)
      reads this, inner
      requires Valid()
      ensures r.Some? <==> inner.current.Some?
      ensures r.Some? ==> BuildInnerKey(tableId, r.value) == inner.current.value
    {
      if inner.current.Some? then Some(ExtractKey(inner.current.value)) else None
    }

    /** `value`: the stored value, unchanged. */
    function Value(): (r: Option<Bytes>)
      reads this, inner
      requires Valid()
      ensures r.Some? <==> inner.current.Some?
      ensures r.Some? ==> r.value == inner.view[inner.current.value]
    {
      inner.Value()
    }
  }

  /** The cursor test: with "k1", "k2" and "k3" the only keys of the table,
      `seek_to_first` stands on the inner key whose user key is "k1". */
  lemma CursorTest(view: Store, tableId: TableId, c: Bytes)
    requires Bucket(view, tableId) == {BuildInnerKey(tableId, [107, 49]), BuildInnerKey(tableId, [107, 50]), BuildInnerKey(tableId, [107, 51])}
    requires IsLeast(c, Bucket(view, tableId))
    ensures c[TABLE_ID_LEN..] == [107, 49]
  {
    var k1, k2, k3 := BuildInnerKey(tableId, [107, 49]), BuildInnerKey(tableId, [107, 50]), BuildInnerKey(tableId, [107, 51]);
    LessCommonPrefix(tableId, [107, 49], [107, 50]);
    LessCommonPrefix(tableId, [107, 49], [107, 51]);
    assert Less([107, 49], [107, 50]) && Less([107, 49], [107, 51]) by {
      assert [107, 49][1..] == [49] && [107, 50][1..] == [50] && [107, 51][1..] == [51];
    }
    if c != k1 {
      assert Le(c, k1);
      LessAsymmetric(c, k1);
      assert false;
    }
    InnerKeyRoundTrip(tableId, [107, 49]);
  }
}
