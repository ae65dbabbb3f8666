/** The ordered byte-string store every table lives in (`rocksdb::DB`):
    a map from keys to values under the byte-wise order of `Lex`, written
    through atomic batches of Put, Delete, DeleteRange and Merge ops. */
module Engine {
  import opened Types
  import opened Lex

  type Store = map<Bytes, Bytes>

  /** The merge operator configured on the store. The library configures
      none of its own, so it is a parameter of the store. */
  type MergeOperator = (Option<Bytes>, Bytes) -> Bytes

  /** One entry of a `rocksdb::WriteBatch`. */
  datatype BatchOp =
    | Put(key: Bytes, value: Bytes)
    | Delete(key: Bytes)
    | DeleteRange(begin: Bytes, end: Bytes)
    | Merge(key: Bytes, value: Bytes)

  function Lookup(m: Store, k: Bytes): Option<Bytes> {
    if k in m then Some(m[k]) else None
  }

  /** The half-open range `[begin, end)`; empty when `end <= begin`. */
  predicate InRange(k: Bytes, begin: Bytes, end: Bytes) {
    Le(begin, k) && Less(k, end)
  }

  /** The keys an op may change. */
  predicate Touches(op: BatchOp, k: Bytes) {
    match op
    case DeleteRange(b, e) => InRange(k, b, e)
    case _ => k == op.key
  }

  /** No op of `ops` may change `k`. */
  predicate Untouched(ops: seq<BatchOp>, k: Bytes) {
    forall i :: 0 <= i < |ops| ==> !Touches(ops[i], k)
  }

  /** The effect of one op: it changes only the keys it touches, and each
      kind of op leaves its key(s) in the stated state. */
  function ApplyOp(merge: MergeOperator, m: Store, op: BatchOp): (r: Store)
    ensures forall k :: !Touches(op, k) ==> Lookup(r, k) == Lookup(m, k)
    ensures op.Put? ==> Lookup(r, op.key) == Some(op.value)
    ensures op.Delete? ==> Lookup(r, op.key) == None
    ensures op.DeleteRange? ==> forall k :: InRange(k, op.begin, op.end) ==> Lookup(r, k) == None
    ensures op.Merge? ==> Lookup(r, op.key) == Some(merge(Lookup(m, op.key), op.value))
  {
    match op
    case Put(k, v) => m[k := v]
    case Delete(k) => m - {k}
    case DeleteRange(b, e) => map k | k in m && !InRange(k, b, e) :: m[k]
    case Merge(k, v) => m[k := merge(Lookup(m, k), v)]
  }

  /** A batch applied in order, as one unit; keys no op touches keep their
      values. */
  function Apply(merge: MergeOperator, m: Store, ops: seq<BatchOp>): (r: Store)
    ensures forall k :: Untouched(ops, k) ==> Lookup(r, k) == Lookup(m, k)
    decreases |ops|
  {
    if ops == [] then m
    else ApplyOp(merge, Apply(merge, m, ops[..|ops| - 1]), ops[|ops| - 1])
  }

  /** Appending an op to a batch applies it after the others. */
  lemma ApplySnoc(merge: MergeOperator, m: Store, ops: seq<BatchOp>, op: BatchOp)
    ensures Apply(merge, m, ops + [op]) == ApplyOp(merge, Apply(merge, m, ops), op)
  {
    assert (ops + [op])[..|ops|] == ops;
  }

  /** Applying two batches one after the other is applying their
      concatenation. */
  lemma {:induction false} ApplyConcat(merge: MergeOperator, m: Store, a: seq<BatchOp>, b: seq<BatchOp>)
    ensures Apply(merge, m, a + b) == Apply(merge, Apply(merge, m, a), b)
    decreases |b|
  {
    if b == [] {
      assert a + b == a;
    } else {
      var b' := b[..|b| - 1];
      assert (a + b)[..|a + b| - 1] == a + b';
      ApplyConcat(merge, m, a, b');
    }
  }

  /** The scripted outcomes left after one write. */
  function Consume(faults: seq<bool>): seq<bool> {
    if faults == [] then [] else faults[1..]
  }

  /** `rocksdb::DB`: the live map plus the outcome of upcoming writes. */
  class RocksdbDb {
    var data: Store
    /** Scripted outcomes of the next writes, one entry consumed per write:
        `true` makes that write fail with an I/O error and change nothing. */
    var faults: seq<bool>
    const merge: MergeOperator

    constructor (data: Store, faults: seq<bool>, merge: MergeOperator)
      ensures this.data == data && this.faults == faults && this.merge == merge
    {
      this.data := data;
      this.faults := faults;
      this.merge := merge;
    }

    /** What the next write will report. */
    function NextStatus(): Status
      reads this
    {
      if faults != [] && faults[0] then IOError else OK
    }

    /** `get`: reads are served from the live map. */
    function Get(key: Bytes): Option<Bytes>
      reads this
    {
      Lookup(data, key)
    }

    /** `write`: the batch is applied as one unit, or not at all. */
    method Write(batch: seq<BatchOp>) returns (s: Status)
      modifies this
      ensures s == old(NextStatus())
      ensures faults == Consume(old(faults))
      ensures data == if s.OK? then Apply(merge, old(data), batch) else old(data)
    {
      s := NextStatus();
      faults := Consume(faults);
      if s.OK? {
        data := Apply(merge, data, batch);
      }
    }

    /** `put`: a write of a single Put. */
    method Put(key: Bytes, value: Bytes) returns (s: Status)
      modifies this
      ensures s == old(NextStatus())
      ensures faults == Consume(old(faults))
      ensures data == if s.OK? then old(data)[key := value] else old(data)
    {
      s := Write([BatchOp.Put(key, value)]);
      assert [BatchOp.Put(key, value)][..0] == [];
    }

    /** `delete`: a write of a single Delete. */
    method Delete(key: Bytes) returns (s: Status)
      modifies this
      ensures s == old(NextStatus())
      ensures faults == Consume(old(faults))
      ensures data == if s.OK? then old(data) - {key} else old(data)
    {
      s := Write([BatchOp.Delete(key)]);
      assert [BatchOp.Delete(key)][..0] == [];
    }
  }
}
