/** The change-feed records (`src/write_op/write_op.rs`): one record per
    op of a committed batch, as captured from the write-ahead log and as
    consumed again by `replay`. */
module WriteOps {
  import opened Types
  import opened Engine

  datatype PutOp = PutOp(innerKey: Bytes, innerValue: Bytes)

  datatype DeleteOp = DeleteOp(innerKey: Bytes)

  datatype DeleteRangeOp = DeleteRangeOp(beginInnerKey: Bytes, endInnerKey: Bytes)

  datatype MergeOp = MergeOp(innerKey: Bytes, innerValue: Bytes)

  /** The four kinds of record. */
  datatype WriteOp =
    | PutOp(put: PutOp)
    | DeleteOp(delete: DeleteOp)
    | DeleteRangeOp(deleteRange: DeleteRangeOp)
    | MergeOp(merge: MergeOp)

  /** Zero or one record (the `oneof` wrapper). */
  datatype OptionalWriteOp = OptionalWriteOp(inner: Option<WriteOp>)

  /** The store op a record stands for: `replay`'s dispatch on the record
      kind (`src/db/db.rs`). */
  function ToBatchOp(op: WriteOp): (b: BatchOp)
  {
    match op
    case PutOp(p) => BatchOp.Put(p.innerKey, p.innerValue)
    case DeleteOp(d) => BatchOp.Delete(d.innerKey)
    case DeleteRangeOp(r) => BatchOp.DeleteRange(r.beginInnerKey, r.endInnerKey)
    case MergeOp(m) => BatchOp.Merge(m.innerKey, m.innerValue)
  }

  /** The record the capture callbacks build for a store op
      (`src/write_op/write_op_batch.rs`); replaying it gives the op back. */
  function FromBatchOp(b: BatchOp): (op: WriteOp)
    ensures ToBatchOp(op) == b
  {
    match b
    case Put(k, v) => WriteOp.PutOp(PutOp.PutOp(k, v))
    case Delete(k) => WriteOp.DeleteOp(DeleteOp.DeleteOp(k))
    case DeleteRange(b, e) => WriteOp.DeleteRangeOp(DeleteRangeOp.DeleteRangeOp(b, e))
    case Merge(k, v) => WriteOp.MergeOp(MergeOp.MergeOp(k, v))
  }

  /** Records and store ops correspond one to one. */
  lemma RecordRoundTrip(op: WriteOp)
    ensures FromBatchOp(ToBatchOp(op)) == op
  {
  }

  /** The store batch `replay` builds from one captured batch: the op of
      every present record, in order; absent records are skipped. */
  function BatchOpsOf(ops: seq<OptionalWriteOp>): (r: seq<BatchOp>)
    ensures |r| <= |ops|
    decreases |ops|
  {
    if ops == [] then []
    else
      var last := ops[|ops| - 1];
      BatchOpsOf(ops[..|ops| - 1]) + (if last.inner.Some? then [ToBatchOp(last.inner.value)] else [])
  }

  /** The records the capture callbacks append for a committed batch. */
  function Captured(batch: seq<BatchOp>): (r: seq<OptionalWriteOp>)
    ensures |r| == |batch|
    ensures forall i :: 0 <= i < |batch| ==> r[i].inner == Some(FromBatchOp(batch[i]))
  {
    seq(|batch|, i requires 0 <= i < |batch| => OptionalWriteOp(Some(FromBatchOp(batch[i]))))
  }

  /** Replaying what was captured rebuilds the committed batch exactly. */
  lemma {:induction false} CaptureThenReplay(batch: seq<BatchOp>)
    ensures BatchOpsOf(Captured(batch)) == batch
    decreases |batch|
  {
    if batch != [] {
      var init := batch[..|batch| - 1];
      assert Captured(batch)[..|batch| - 1] == Captured(init);
      CaptureThenReplay(init);
      assert batch == init + [batch[|batch| - 1]];
    }
  }

  /** Absent records contribute nothing; a record's op lands after those of
      the records before it. */
  lemma BatchOpsOfSnoc(ops: seq<OptionalWriteOp>, op: OptionalWriteOp)
    ensures BatchOpsOf(ops + [op]) == BatchOpsOf(ops) + (if op.inner.Some? then [ToBatchOp(op.inner.value)] else [])
  {
    assert (ops + [op])[..|ops|] == ops;
  }
}
