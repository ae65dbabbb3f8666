/** `WriteOpBatch` (`src/write_op/write_op_batch.rs`): the records of one
    committed batch together with its sequence number, filled in by the
    store's batch-iteration callbacks, one record per op. */
module WriteOpBatches {
  import opened Types
  import opened Engine
  import opened WriteOps

  class WriteOpBatch {
    var sn: u64
    var writeOps: seq<OptionalWriteOp>

    /** `new`: sequence number 0 and no records. */
    constructor ()
      ensures sn == 0 && writeOps == []
    {
      sn := 0;
      writeOps := [];
    }

    /** The `put` callback: records a Put. */
    method Put(innerKey: Bytes, innerValue: Bytes)
      modifies this`writeOps
      ensures writeOps == old(writeOps) + [OptionalWriteOp(Some(FromBatchOp(BatchOp.Put(innerKey, innerValue))))]
      ensures BatchOpsOf(writeOps) == BatchOpsOf(old(writeOps)) + [BatchOp.Put(innerKey, innerValue)]
    {
      writeOps := writeOps + [OptionalWriteOp(Some(WriteOp.PutOp(PutOp.PutOp(innerKey, innerValue))))];
      BatchOpsOfSnoc(old(writeOps), writeOps[|writeOps| - 1]);
    }

    /** The `delete` callback: records a Delete. */
    method Delete(innerKey: Bytes)
      modifies this`writeOps
      ensures writeOps == old(writeOps) + [OptionalWriteOp(Some(FromBatchOp(BatchOp.Delete(innerKey))))]
      ensures BatchOpsOf(writeOps) == BatchOpsOf(old(writeOps)) + [BatchOp.Delete(innerKey)]
    {
      writeOps := writeOps + [OptionalWriteOp(Some(WriteOp.DeleteOp(DeleteOp.DeleteOp(innerKey))))];
      BatchOpsOfSnoc(old(writeOps), writeOps[|writeOps| - 1]);
    }

    /** The `delete_range` callback: records a DeleteRange with its bounds
        unchanged. */
    method DeleteRange(beginInnerKey: Bytes, endInnerKey: Bytes)
      modifies this`writeOps
      ensures writeOps == old(writeOps) + [OptionalWriteOp(Some(FromBatchOp(BatchOp.DeleteRange(beginInnerKey, endInnerKey))))]
      ensures BatchOpsOf(writeOps) == BatchOpsOf(old(writeOps)) + [BatchOp.DeleteRange(beginInnerKey, endInnerKey)]
    {
      writeOps := writeOps + [OptionalWriteOp(Some(WriteOp.DeleteRangeOp(DeleteRangeOp.DeleteRangeOp(beginInnerKey, endInnerKey))))];
      BatchOpsOfSnoc(old(writeOps), writeOps[|writeOps| - 1]);
    }

    /** The `merge` callback: records a Merge. */
    method Merge(innerKey: Bytes, innerValue: Bytes)
      modifies this`writeOps
      ensures writeOps == old(writeOps) + [OptionalWriteOp(Some(FromBatchOp(BatchOp.Merge(innerKey, innerValue))))]
      ensures BatchOpsOf(writeOps) == BatchOpsOf(old(writeOps)) + [BatchOp.Merge(innerKey, innerValue)]
    {
      writeOps := writeOps + [OptionalWriteOp(Some(WriteOp.MergeOp(MergeOp.MergeOp(innerKey, innerValue))))];
      BatchOpsOfSnoc(old(writeOps), writeOps[|writeOps| - 1]);
    }
  }
}
