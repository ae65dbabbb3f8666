/** `CursorEnhanced` (`src/cursor/cursor_enhanced.rs`): a table cursor that
    takes typed seek targets, encodes them and delegates; keys and values
    come back as raw bytes. */
module CursorsEnhanced {
  import opened Types
  import opened Lex
  import opened Utils
  import opened RawIter
  import opened Cursors
  import opened Coders

  class CursorEnhanced<K, V> {
    const raw: NormalCursor
    const coder: Coder<K, V>

    /** `new`, and `enhance` of the wrapped cursor: it is not moved. */
    constructor (raw: NormalCursor, coder: Coder<K, V>)
      ensures this.raw == raw && this.coder == coder
    {
      this.raw := raw;
      this.coder := coder;
    }

    /** `is_valid` */
    function IsValid(): bool
      reads raw, raw.inner
    {
      raw.IsValid()
    }

    /** `status` */
    function Status(): (r: Result<()>)
      ensures r.Ok?
    {
      raw.Status()
    }

    /** `seek_to_first`, unchanged. */
    method SeekToFirst()
      modifies raw.inner
      ensures raw.Valid()
      ensures raw.inner.current.None? <==> Bucket(raw.inner.view, raw.tableId) == {}
      ensures raw.inner.current.Some? ==> IsLeast(raw.inner.current.value, Bucket(raw.inner.view, raw.tableId))
    {
      raw.SeekToFirst();
    }

    /** `seek_to_last`, unchanged. */
    method SeekToLast()
      requires HasPrefix(raw.anchor, raw.tableId)
      modifies raw.inner
      ensures raw.Valid()
      ensures raw.inner.current.None? <==> AtOrBefore(raw.inner.view, raw.tableId, raw.anchor) == {}
      ensures raw.inner.current.Some? ==> IsGreatest(raw.inner.current.value, AtOrBefore(raw.inner.view, raw.tableId, raw.anchor))
    {
      raw.SeekToLast();
    }

    /** `seek`: the raw seek of the encoded key. */
    method Seek(key: K)
      modifies raw.inner
      ensures raw.Valid()
      ensures var target := BuildInnerKey(raw.tableId, coder.encodeKey(key));
              (raw.inner.current.None? <==> AtOrAfter(raw.inner.view, raw.tableId, target) == {}) &&
              (raw.inner.current.Some? ==> IsLeast(raw.inner.current.value, AtOrAfter(raw.inner.view, raw.tableId, target)))
    {
      raw.Seek(coder.encodeKey(key));
    }

    /** `seek_for_prev`: the raw seek_for_prev of the encoded key. */
    method SeekForPrev(key: K)
      modifies raw.inner
      ensures raw.Valid()
      ensures var target := BuildInnerKey(raw.tableId, coder.encodeKey(key));
              (raw.inner.current.None? <==> AtOrBefore(raw.inner.view, raw.tableId, target) == {}) &&
              (raw.inner.current.Some? ==> IsGreatest(raw.inner.current.value, AtOrBefore(raw.inner.view, raw.tableId, target)))
    {
      raw.SeekForPrev(coder.encodeKey(key));
    }

    /** `next`, unchanged. */
    method Next()
      requires raw.Valid() && IsValid()
      modifies raw.inner`current
      ensures raw.Valid()
      ensures raw.inner.current.None? <==> After(raw.inner.view, raw.tableId, old(raw.inner.current.value)) == {}
      ensures raw.inner.current.Some? ==> IsLeast(raw.inner.current.value, After(raw.inner.view, raw.tableId, old(raw.inner.current.value)))
    {
      raw.Next();
    }

    /** `prev`, unchanged. */
    method Prev()
      requires raw.Valid() && IsValid()
      modifies raw.inner`current
      ensures raw.Valid()
      ensures raw.inner.current.None? <==> Before(raw.inner.view, raw.tableId, old(raw.inner.current.value)) == {}
      ensures raw.inner.current.Some? ==> IsGreatest(raw.inner.current.value, Before(raw.inner.view, raw.tableId, old(raw.inner.current.value)))
    {
      raw.Prev();
    }

    /** `key`: the raw user key, not decoded. */
    function Key(): (r: Option<Bytes>)
      reads raw, raw.inner
      requires raw.Valid()
      ensures r.Some? <==> raw.inner.current.Some?
      ensures r.Some? ==> BuildInnerKey(raw.tableId, r.value) == raw.inner.current.value
    {
      raw.Key()
    }

    /** `value`: the raw stored value, not decoded. */
    function Value(): (r: Option<Bytes>)
      reads raw, raw.inner
      requires raw.Valid()
      ensures r.Some? <==> raw.inner.current.Some?
      ensures r.Some? ==> r.value == raw.inner.view[raw.inner.current.value]
    {
      raw.Value()
    }
  }
}
