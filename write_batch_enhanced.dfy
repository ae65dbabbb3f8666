/** `WriteBatchEnhanced` (`src/write_batch/write_batch_enhanced.rs`): a
    table batch that takes typed keys and values, encodes them, and
    delegates to the byte-level batch it wraps. */
module WriteBatchesEnhanced {
  import opened Types
  import opened Lex
  import opened Utils
  import opened Engine
  import opened WriteBatches
  import opened Coders

  /** The byte-level batch being wrapped. */
  datatype RawBatch = NormalBatch(normal: NormalWriteBatch) | TtlBatch(ttl: TtlWriteBatch) {
    function Obj(): object {
      if NormalBatch? then normal else ttl
    }

    function TableId(): TableId {
      if NormalBatch? then normal.tableId else ttl.tableId
    }

    function Inner(): seq<BatchOp>
      reads Obj()
    {
      if NormalBatch? then normal.inner else ttl.inner
    }
  }

  class WriteBatchEnhanced<K, V> {
    const raw: RawBatch
    const coder: Coder<K, V>

    /** `new`, and `enhance` of the wrapped batch: the ops are untouched. */
    constructor (raw: RawBatch, coder: Coder<K, V>)
      ensures this.raw == raw && this.coder == coder
    {
      this.raw := raw;
      this.coder := coder;
    }

    /** `put`: the raw put of the encoded key and value. */
    method Put(key: K, value: V)
      requires raw.NormalBatch?
      modifies raw.Obj()
      ensures raw.Inner() == old(raw.Inner()) + [PutOpFor(raw.TableId(), coder.encodeKey(key), coder.encodeValue(value))]
    {
      raw.normal.Put(coder.encodeKey(key), coder.encodeValue(value));
    }

    /** `delete`: the raw delete of the encoded key. */
    method Delete(key: K)
      modifies raw.Obj()
      ensures raw.Inner() == old(raw.Inner()) + [DeleteOpFor(raw.TableId(), coder.encodeKey(key))]
    {
      match raw
      case NormalBatch(b) => b.Delete(coder.encodeKey(key));
      case TtlBatch(b) => b.Delete(coder.encodeKey(key));
    }

    /** `delete_range`: the raw delete_range of both encoded bounds. */
    method DeleteRange(fromKey: K, toKey: K)
      modifies raw.Obj()
      ensures raw.Inner() == old(raw.Inner()) + [DeleteRangeOpFor(raw.TableId(), coder.encodeKey(fromKey), coder.encodeKey(toKey))]
    {
      match raw
      case NormalBatch(b) => b.DeleteRange(coder.encodeKey(fromKey), coder.encodeKey(toKey));
      case TtlBatch(b) => b.DeleteRange(coder.encodeKey(fromKey), coder.encodeKey(toKey));
    }
  }

  /** The typed-batch test: keys and values are `u32`s written big-endian,
      an encoding that keeps their order. Putting 1..5, deleting 2 and
      deleting the range [3, 5) leaves 1 and 5 and removes 2, 3 and 4. */
  lemma EnhancedBatchTest(merge: MergeOperator, m: Store, tableId: TableId)
    ensures var ks: seq<Bytes> := [U32ToU8a4(1), U32ToU8a4(2), U32ToU8a4(3), U32ToU8a4(4), U32ToU8a4(5)];
            var r := Apply(merge, m, ScenarioBatch(tableId, ks, ks));
            Lookup(r, BuildInnerKey(tableId, U32ToU8a4(1))) == Some(U32ToU8a4(1)) &&
            Lookup(r, BuildInnerKey(tableId, U32ToU8a4(5))) == Some(U32ToU8a4(5)) &&
            Lookup(r, BuildInnerKey(tableId, U32ToU8a4(2))) == None &&
            Lookup(r, BuildInnerKey(tableId, U32ToU8a4(3))) == None &&
            Lookup(r, BuildInnerKey(tableId, U32ToU8a4(4))) == None
  {
    var ks: seq<Bytes> := [U32ToU8a4(1), U32ToU8a4(2), U32ToU8a4(3), U32ToU8a4(4), U32ToU8a4(5)];
    EncodedKeysSorted(ks);
    ScenarioEffect(merge, m, tableId, ks, ks);
  }

  /** The encodings of 1 .. 5 are in increasing byte order. */
  lemma EncodedKeysSorted(ks: seq<Bytes>)
    requires ks == [U32ToU8a4(1), U32ToU8a4(2), U32ToU8a4(3), U32ToU8a4(4), U32ToU8a4(5)]
    ensures StrictlySorted(ks)
  {
    forall i, j | 0 <= i < j < 5 ensures Less(ks[i], ks[j]) {
      assert ks[i] == U32ToU8a4(i + 1) && ks[j] == U32ToU8a4(j + 1);
      U32OrderIsByteOrder(i + 1, j + 1);
    }
  }
}
