/** Per-table write batches (`src/write_batch/`): a store batch bound to
    one table id, whose ops take user keys and write inner keys, plus the
    cross-table batch whose ops name their table explicitly. */
module WriteBatches {
  import opened Types
  import opened Lex
  import opened Consts
  import opened Utils
  import opened Engine

  //////////////////////////////////////////////////////////////////////////
  // The ops a table batch appends
  //////////////////////////////////////////////////////////////////////////

  /** `put` of a normal batch: the value is stored unframed. */
  function PutOpFor(tableId: TableId, key: Bytes, value: Bytes): (op: BatchOp)
    ensures op.Put? && op.value == value
    ensures |op.key| >= TABLE_ID_LEN && ExtractTableId(op.key) == tableId && ExtractKey(op.key) == key
  {
    InnerKeyRoundTrip(tableId, key);
    BatchOp.Put(BuildInnerKey(tableId, key), value)
  }

  /** The trait's default `delete`. */
  function DeleteOpFor(tableId: TableId, key: Bytes): (op: BatchOp)
    ensures op.Delete?
    ensures |op.key| >= TABLE_ID_LEN && ExtractTableId(op.key) == tableId && ExtractKey(op.key) == key
  {
    InnerKeyRoundTrip(tableId, key);
    BatchOp.Delete(BuildInnerKey(tableId, key))
  }

  /** The trait's default `delete_range`: both bounds carry the table id,
      so every key the range can remove belongs to the table. */
  function DeleteRangeOpFor(tableId: TableId, fromKey: Bytes, toKey: Bytes): (op: BatchOp)
    ensures op.DeleteRange?
    ensures |op.begin| >= TABLE_ID_LEN && ExtractTableId(op.begin) == tableId && ExtractKey(op.begin) == fromKey
    ensures |op.end| >= TABLE_ID_LEN && ExtractTableId(op.end) == tableId && ExtractKey(op.end) == toKey
    ensures forall k :: Touches(op, k) ==> HasPrefix(k, tableId)
  {
    InnerKeyRoundTrip(tableId, fromKey);
    InnerKeyRoundTrip(tableId, toKey);
    var op := BatchOp.DeleteRange(BuildInnerKey(tableId, fromKey), BuildInnerKey(tableId, toKey));
    forall k | Touches(op, k) ensures HasPrefix(k, tableId) {
      RangeKeepsPrefix(tableId, fromKey, toKey, k);
    }
    op
  }

  /** Every op of `ops` touches only keys of table `tableId`. */
  ghost predicate ConfinedTo(ops: seq<BatchOp>, tableId: TableId) {
    forall i, k :: 0 <= i < |ops| && Touches(ops[i], k) ==> HasPrefix(k, tableId)
  }

  /** The ops a table batch builds stay inside the table. */
  lemma TableOpsConfined(tableId: TableId, key: Bytes, value: Bytes, fromKey: Bytes, toKey: Bytes)
    ensures ConfinedTo([PutOpFor(tableId, key, value)], tableId)
    ensures ConfinedTo([DeleteOpFor(tableId, key)], tableId)
    ensures ConfinedTo([DeleteRangeOpFor(tableId, fromKey, toKey)], tableId)
  {
  }

  lemma ConfinedSnoc(ops: seq<BatchOp>, op: BatchOp, tableId: TableId)
    requires ConfinedTo(ops, tableId) && ConfinedTo([op], tableId)
    ensures ConfinedTo(ops + [op], tableId)
  {
    forall i, k | 0 <= i < |ops| + 1 && Touches((ops + [op])[i], k) ensures HasPrefix(k, tableId) {
      if i == |ops| {
        assert Touches([op][0], k);
      }
    }
  }

  /** A batch confined to one table leaves every key outside that table as
      it was: tables never write each other's keys. */
  lemma ConfinedBatchIsolation(merge: MergeOperator, m: Store, ops: seq<BatchOp>, tableId: TableId, k: Bytes)
    requires ConfinedTo(ops, tableId) && !HasPrefix(k, tableId)
    ensures Lookup(Apply(merge, m, ops), k) == Lookup(m, k)
  {
    assert Untouched(ops, k);
  }

  //////////////////////////////////////////////////////////////////////////
  // Batches
  //////////////////////////////////////////////////////////////////////////

  /** `NormalWriteBatch`: the batch of a normal table. */
  class NormalWriteBatch {
    var inner: seq<BatchOp>
    const tableId: TableId

    /** `new`: no ops, bound to `tableId`. */
    constructor (tableId: TableId)
      ensures inner == [] && this.tableId == tableId && ConfinedTo(inner, tableId)
    {
      inner := [];
      this.tableId := tableId;
    }

    /** `put`: appends one Put of the inner key, value unframed. */
    method Put(key: Bytes, value: Bytes)
      modifies this`inner
      ensures inner == old(inner) + [PutOpFor(tableId, key, value)]
      ensures old(ConfinedTo(inner, tableId)) ==> ConfinedTo(inner, tableId)
    {
      inner := inner + [PutOpFor(tableId, key, value)];
      TableOpsConfined(tableId, key, value, [], []);
      if ConfinedTo(old(inner), tableId) {
        ConfinedSnoc(old(inner), PutOpFor(tableId, key, value), tableId);
      }
    }

    /** `delete` (the trait's default): appends one Delete of the inner key. */
    method Delete(key: Bytes)
      modifies this`inner
      ensures inner == old(inner) + [DeleteOpFor(tableId, key)]
      ensures old(ConfinedTo(inner, tableId)) ==> ConfinedTo(inner, tableId)
    {
      inner := inner + [DeleteOpFor(tableId, key)];
      TableOpsConfined(tableId, key, [], [], []);
      if ConfinedTo(old(inner), tableId) {
        ConfinedSnoc(old(inner), DeleteOpFor(tableId, key), tableId);
      }
    }

    /** `delete_range` (the trait's default): appends one DeleteRange whose
        bounds both carry the table id. */
    method DeleteRange(fromKey: Bytes, toKey: Bytes)
      modifies this`inner
      ensures inner == old(inner) + [DeleteRangeOpFor(tableId, fromKey, toKey)]
      ensures old(ConfinedTo(inner, tableId)) ==> ConfinedTo(inner, tableId)
    {
      inner := inner + [DeleteRangeOpFor(tableId, fromKey, toKey)];
      TableOpsConfined(tableId, [], [], fromKey, toKey);
      if ConfinedTo(old(inner), tableId) {
        ConfinedSnoc(old(inner), DeleteRangeOpFor(tableId, fromKey, toKey), tableId);
      }
    }
  }

  /** `TtlWriteBatch`: the batch of a TTL table. It defines no `put` of its
      own and inherits the trait's `delete` and `delete_range`. */
  class TtlWriteBatch {
    var inner: seq<BatchOp>
    const tableId: TableId

    /** `new`: no ops, bound to `tableId`. */
    constructor (tableId: TableId)
      ensures inner == [] && this.tableId == tableId && ConfinedTo(inner, tableId)
    {
      inner := [];
      this.tableId := tableId;
    }

    /** `delete` (the trait's default). */
    method Delete(key: Bytes)
      modifies this`inner
      ensures inner == old(inner) + [DeleteOpFor(tableId, key)]
      ensures old(ConfinedTo(inner, tableId)) ==> ConfinedTo(inner, tableId)
    {
      inner := inner + [DeleteOpFor(tableId, key)];
      TableOpsConfined(tableId, key, [], [], []);
      if ConfinedTo(old(inner), tableId) {
        ConfinedSnoc(old(inner), DeleteOpFor(tableId, key), tableId);
      }
    }

    /** `delete_range` (the trait's default). */
    method DeleteRange(fromKey: Bytes, toKey: Bytes)
      modifies this`inner
      ensures inner == old(inner) + [DeleteRangeOpFor(tableId, fromKey, toKey)]
      ensures old(ConfinedTo(inner, tableId)) ==> ConfinedTo(inner, tableId)
    {
      inner := inner + [DeleteRangeOpFor(tableId, fromKey, toKey)];
      TableOpsConfined(tableId, [], [], fromKey, toKey);
      if ConfinedTo(old(inner), tableId) {
        ConfinedSnoc(old(inner), DeleteRangeOpFor(tableId, fromKey, toKey), tableId);
      }
    }
  }

  /** `NormalWriteBatchX`: one batch across tables; each op names its table
      (`WriteBatchX`'s default `delete` and `delete_range`). */
  class NormalWriteBatchX {
    var inner: seq<BatchOp>

    constructor ()
      ensures inner == []
    {
      inner := [];
    }

    /** `delete`: appends one Delete prefixed with the given id. */
    method Delete(tableId: TableId, key: Bytes)
      modifies this`inner
      ensures inner == old(inner) + [DeleteOpFor(tableId, key)]
    {
      inner := inner + [DeleteOpFor(tableId, key)];
    }

    /** `delete_range`: appends one DeleteRange whose bounds carry the
        given id. */
    method DeleteRange(tableId: TableId, fromKey: Bytes, toKey: Bytes)
      modifies this`inner
      ensures inner == old(inner) + [DeleteRangeOpFor(tableId, fromKey, toKey)]
    {
      inner := inner + [DeleteRangeOpFor(tableId, fromKey, toKey)];
    }
  }

  //////////////////////////////////////////////////////////////////////////
  // The batch of the batch tests
  //////////////////////////////////////////////////////////////////////////

  /** Put five keys, delete the second, delete the range from the third to
      the fifth. */
  function ScenarioBatch(tableId: TableId, ks: seq<Bytes>, vs: seq<Bytes>): seq<BatchOp>
    requires |ks| == 5 && |vs| == 5
  {
    [PutOpFor(tableId, ks[0], vs[0]), PutOpFor(tableId, ks[1], vs[1]), PutOpFor(tableId, ks[2], vs[2]),
     PutOpFor(tableId, ks[3], vs[3]), PutOpFor(tableId, ks[4], vs[4]),
     DeleteOpFor(tableId, ks[1]), DeleteRangeOpFor(tableId, ks[2], ks[4])]
  }

  lemma SortedKeysDistinct(tableId: TableId, ks: seq<Bytes>, i: nat, j: nat)
    requires StrictlySorted(ks) && i < |ks| && j < |ks| && i != j
    ensures BuildInnerKey(tableId, ks[i]) != BuildInnerKey(tableId, ks[j])
  {
    if BuildInnerKey(tableId, ks[i]) == BuildInnerKey(tableId, ks[j]) {
      InnerKeyInjective(tableId, ks[i], tableId, ks[j]);
      if i < j {
        LessIrreflexive(ks[i]);
      } else {
        LessIrreflexive(ks[j]);
      }
    }
  }

  /** After the five puts every key holds its value. */
  lemma ScenarioPuts(merge: MergeOperator, m: Store, tableId: TableId, ks: seq<Bytes>, vs: seq<Bytes>)
    requires |ks| == 5 && |vs| == 5 && StrictlySorted(ks)
    ensures forall n :: 0 <= n < 5 ==>
              Lookup(Apply(merge, m, ScenarioBatch(tableId, ks, vs)[..5]), BuildInnerKey(tableId, ks[n])) == Some(vs[n])
  {
    var ops := ScenarioBatch(tableId, ks, vs);
    var i := 0;
    while i < 5
      invariant 0 <= i <= 5
      invariant forall n :: 0 <= n < i ==> Lookup(Apply(merge, m, ops[..i]), BuildInnerKey(tableId, ks[n])) == Some(vs[n])
    {
      ApplySnoc(merge, m, ops[..i], ops[i]);
      assert ops[..i] + [ops[i]] == ops[..i + 1];
      assert ops[i] == PutOpFor(tableId, ks[i], vs[i]);
      forall n | 0 <= n < i
        ensures !Touches(ops[i], BuildInnerKey(tableId, ks[n]))
      {
        SortedKeysDistinct(tableId, ks, n, i);
      }
      i := i + 1;
    }
  }

  /** Which keys the range from the third to the fifth key covers. */
  lemma ScenarioRange(tableId: TableId, ks: seq<Bytes>)
    requires |ks| == 5 && StrictlySorted(ks)
    ensures var lo, hi := BuildInnerKey(tableId, ks[2]), BuildInnerKey(tableId, ks[4]);
            !InRange(BuildInnerKey(tableId, ks[0]), lo, hi) && !InRange(BuildInnerKey(tableId, ks[1]), lo, hi) &&
            InRange(BuildInnerKey(tableId, ks[2]), lo, hi) && InRange(BuildInnerKey(tableId, ks[3]), lo, hi) &&
            !InRange(hi, lo, hi)
  {
    var lo, hi := BuildInnerKey(tableId, ks[2]), BuildInnerKey(tableId, ks[4]);
    LessCommonPrefix(tableId, ks[0], ks[2]);
    LessCommonPrefix(tableId, ks[1], ks[2]);
    LessCommonPrefix(tableId, ks[2], ks[3]);
    LessCommonPrefix(tableId, ks[3], ks[4]);
    LessCommonPrefix(tableId, ks[2], ks[4]);
    assert Less(ks[0], ks[2]) && Less(ks[1], ks[2]) && Less(ks[2], ks[3]) && Less(ks[3], ks[4]) && Less(ks[2], ks[4]);
    LessIrreflexive(hi);
    LessAsymmetric(BuildInnerKey(tableId, ks[0]), lo);
    LessAsymmetric(BuildInnerKey(tableId, ks[1]), lo);
  }

  /** Ops apply in order and the range excludes its end: for any five
      increasing keys, the first and the fifth survive and the second, third
      and fourth are gone. */
  lemma ScenarioEffect(merge: MergeOperator, m: Store, tableId: TableId, ks: seq<Bytes>, vs: seq<Bytes>)
    requires |ks| == 5 && |vs| == 5 && StrictlySorted(ks)
    ensures var r := Apply(merge, m, ScenarioBatch(tableId, ks, vs));
            Lookup(r, BuildInnerKey(tableId, ks[0])) == Some(vs[0]) &&
            Lookup(r, BuildInnerKey(tableId, ks[4])) == Some(vs[4]) &&
            Lookup(r, BuildInnerKey(tableId, ks[1])) == None &&
            Lookup(r, BuildInnerKey(tableId, ks[2])) == None &&
            Lookup(r, BuildInnerKey(tableId, ks[3])) == None
  {
    var ops := ScenarioBatch(tableId, ks, vs);
    var k1, k2, k5 := BuildInnerKey(tableId, ks[0]), BuildInnerKey(tableId, ks[1]), BuildInnerKey(tableId, ks[4]);
    var r5 := Apply(merge, m, ops[..5]);
    ScenarioPuts(merge, m, tableId, ks, vs);
    assert Lookup(r5, k1) == Some(vs[0]) && Lookup(r5, k5) == Some(vs[4]);
    ApplySnoc(merge, m, ops[..5], ops[5]);
    assert ops[..5] + [ops[5]] == ops[..6];
    var r6 := Apply(merge, m, ops[..6]);
    SortedKeysDistinct(tableId, ks, 0, 1);
    SortedKeysDistinct(tableId, ks, 4, 1);
    assert Lookup(r6, k1) == Some(vs[0]) && Lookup(r6, k5) == Some(vs[4]) && Lookup(r6, k2) == None;
    ApplySnoc(merge, m, ops[..6], ops[6]);
    assert ops[..6] + [ops[6]] == ops;
    ScenarioRange(tableId, ks);
  }

  /** The keys of the normal-batch test: "k1" .. "k5". */
  function TestKeys(): (ks: seq<Bytes>)
    ensures |ks| == 5 && StrictlySorted(ks)
  {
    var ks: seq<Bytes> := [[107, 49], [107, 50], [107, 51], [107, 52], [107, 53]];
    assert forall i, j :: 0 <= i < j < 5 ==> ks[i][0] == ks[j][0] && ks[i][1] < ks[j][1];
    forall i, j | 0 <= i < j < 5 ensures Less(ks[i], ks[j]) {
      assert ks[i][1..] == [ks[i][1]] && ks[j][1..] == [ks[j][1]];
    }
    ks
  }

  /** The normal-batch test: after putting k1..k5 with v1..v5, deleting k2
      and deleting [k3, k5), k1 and k5 read back and k2, k3, k4 are gone. */
  lemma NormalBatchTest(merge: MergeOperator, m: Store, tableId: TableId)
    ensures var vs: seq<Bytes> := [[118, 49], [118, 50], [118, 51], [118, 52], [118, 53]];
            var r := Apply(merge, m, ScenarioBatch(tableId, TestKeys(), vs));
            Lookup(r, BuildInnerKey(tableId, [107, 49])) == Some([118, 49]) &&
            Lookup(r, BuildInnerKey(tableId, [107, 53])) == Some([118, 53]) &&
            Lookup(r, BuildInnerKey(tableId, [107, 50])) == None &&
            Lookup(r, BuildInnerKey(tableId, [107, 51])) == None &&
            Lookup(r, BuildInnerKey(tableId, [107, 52])) == None
  {
    ScenarioEffect(merge, m, tableId, TestKeys(), [[118, 49], [118, 50], [118, 51], [118, 52], [118, 53]]);
  }
}
