/** The table registry over the store (`src/db/db.rs`): name-to-id records
    in table 1 and id-to-name records in table 2, the batches that
    register, destroy, truncate and rename a table, the id allocator, the
    replay of a change feed and the two idempotent open-time steps, each
    stated over store values. `Db` runs them against the live store. */
module Registry {
  import opened Types
  import opened Lex
  import opened Consts
  import opened Utils
  import opened Engine
  import opened RawIter
  import opened WriteOps

  //////////////////////////////////////////////////////////////////////////
  // Records and lookups
  //////////////////////////////////////////////////////////////////////////

  /** The tail anchor of a userland table. */
  function TableAnchor(id: TableId): (r: Bytes)
    ensures r == BuildUserlandTableAnchor(id, MAX_USERLAND_KEY_LEN)
  {
    BuildUserlandTableAnchor(id, MAX_USERLAND_KEY_LEN)
  }

  /** The name-to-id record of `name` can be read back as an id: it is
      absent or holds at least four bytes (`u8s_to_u8a4` panics on fewer). */
  predicate NameRecordReadable(m: Store, name: Bytes) {
    BuildNameToIdTableInnerKey(name) in m ==> |m[BuildNameToIdTableInnerKey(name)]| >= TABLE_ID_LEN
  }

  /** `get_table_id_by_name` over a store: the first four bytes of the
      name's record. */
  function IdByName(m: Store, name: Bytes): (r: Option<TableId>)
    requires NameRecordReadable(m, name)
    ensures r.Some? <==> BuildNameToIdTableInnerKey(name) in m
    ensures r.Some? ==> HasPrefix(m[BuildNameToIdTableInnerKey(name)], r.value)
  {
    match Lookup(m, BuildNameToIdTableInnerKey(name))
    case Some(v) => Some(U8sToU8a4(v))
    case None => None
  }

  /** A table id outside the three system tables' range. */
  predicate IsUserland(id: TableId) {
    !Less(id, MIN_USERLAND_TABLE_ID)
  }

  /** The system tables are not userland tables. */
  lemma SystemIdsNotUserland(id: TableId)
    requires IsUserland(id)
    ensures id != INFO_TABLE_ID && id != NAME_TO_ID_TABLE_ID && id != ID_TO_NAME_TABLE_ID
  {
    ReservedTableIds();
  }

  /** Records of the name-to-id and id-to-name tables and userland keys
      never collide. */
  lemma RecordKeysDistinct(name: Bytes, id: TableId, other: TableId, key: Bytes)
    requires IsUserland(other)
    ensures BuildNameToIdTableInnerKey(name) != BuildIdToNameTableInnerKey(id)
    ensures !HasPrefix(BuildNameToIdTableInnerKey(name), other)
    ensures !HasPrefix(BuildIdToNameTableInnerKey(id), other)
  {
    assert BuildNameToIdTableInnerKey(name)[3] != BuildIdToNameTableInnerKey(id)[3];
    SystemIdsNotUserland(other);
    assert BuildNameToIdTableInnerKey(name)[..4] == NAME_TO_ID_TABLE_ID;
    assert BuildIdToNameTableInnerKey(id)[..4] == ID_TO_NAME_TABLE_ID;
  }

  //////////////////////////////////////////////////////////////////////////
  // The registry's batches
  //////////////////////////////////////////////////////////////////////////

  /** `register_table`'s batch. */
  function RegisterOps(name: Bytes, id: TableId): seq<BatchOp> {
    [BatchOp.Put(BuildNameToIdTableInnerKey(name), id), BatchOp.Put(BuildIdToNameTableInnerKey(id), name)]
  }

  /** `destroy_table`'s batch: empty for an unknown name. */
  function DestroyOps(m: Store, name: Bytes): seq<BatchOp>
    requires NameRecordReadable(m, name)
  {
    match IdByName(m, name)
    case None => []
    case Some(id) =>
      [BatchOp.Delete(BuildNameToIdTableInnerKey(name)), BatchOp.Delete(BuildIdToNameTableInnerKey(id)),
       BatchOp.DeleteRange(id, TableAnchor(id))]
  }

  /** `truncate_table`'s batch: empty for an unknown name. */
  function TruncateOps(m: Store, name: Bytes): seq<BatchOp>
    requires NameRecordReadable(m, name)
  {
    match IdByName(m, name)
    case None => []
    case Some(id) => [BatchOp.DeleteRange(id, TableAnchor(id))]
  }

  /** `rename_table`'s batch: empty for an unknown old name. */
  function RenameOps(m: Store, oldName: Bytes, newName: Bytes): seq<BatchOp>
    requires NameRecordReadable(m, oldName)
  {
    match IdByName(m, oldName)
    case None => []
    case Some(id) =>
      [BatchOp.Delete(BuildNameToIdTableInnerKey(oldName)), BatchOp.Delete(BuildIdToNameTableInnerKey(id)),
       BatchOp.Put(BuildNameToIdTableInnerKey(newName), id), BatchOp.Put(BuildIdToNameTableInnerKey(id), newName)]
  }

  lemma Apply1(merge: MergeOperator, m: Store, a: BatchOp)
    ensures Apply(merge, m, [a]) == ApplyOp(merge, m, a)
  {
    assert [a][..0] == [];
  }

  lemma Apply2(merge: MergeOperator, m: Store, a: BatchOp, b: BatchOp)
    ensures Apply(merge, m, [a, b]) == ApplyOp(merge, ApplyOp(merge, m, a), b)
  {
    ApplySnoc(merge, m, [a], b);
    Apply1(merge, m, a);
    assert [a] + [b] == [a, b];
  }

  lemma Apply3(merge: MergeOperator, m: Store, a: BatchOp, b: BatchOp, c: BatchOp)
    ensures Apply(merge, m, [a, b, c]) == ApplyOp(merge, ApplyOp(merge, ApplyOp(merge, m, a), b), c)
  {
    ApplySnoc(merge, m, [a, b], c);
    Apply2(merge, m, a, b);
    assert [a, b] + [c] == [a, b, c];
  }

  lemma Apply4(merge: MergeOperator, m: Store, a: BatchOp, b: BatchOp, c: BatchOp, d: BatchOp)
    ensures Apply(merge, m, [a, b, c, d]) == ApplyOp(merge, ApplyOp(merge, ApplyOp(merge, ApplyOp(merge, m, a), b), c), d)
  {
    ApplySnoc(merge, m, [a, b, c], d);
    Apply3(merge, m, a, b, c);
    assert [a, b, c] + [d] == [a, b, c, d];
  }

  /** The keys `DeleteRange(id, anchor)` removes are keys of table `id`, and
      it removes every key of the table whose user key does not start with
      five bytes of 0xFF, which covers every key of up to four bytes. */
  lemma TableRangeScope(id: TableId, k: Bytes)
    ensures InRange(k, id, TableAnchor(id)) ==> HasPrefix(k, id)
    ensures |k| >= TABLE_ID_LEN && HasPrefix(k, id) && !HasPrefix(k[TABLE_ID_LEN..], Ones(MAX_USERLAND_KEY_LEN + 1))
            ==> InRange(k, id, TableAnchor(id))
  {
    if InRange(k, id, TableAnchor(id)) {
      assert id + [] == id;
      RangeKeepsPrefix(id, [], Ones(MAX_USERLAND_KEY_LEN + 1), k);
    }
    if |k| >= TABLE_ID_LEN && HasPrefix(k, id) {
      var u := k[TABLE_ID_LEN..];
      assert k == BuildInnerKey(id, u);
      TableIdIsHeadAnchor(id, u);
      AnchorBoundsTable(id, MAX_USERLAND_KEY_LEN, u);
    }
  }

  //////////////////////////////////////////////////////////////////////////
  // What the batches do to the registry
  //////////////////////////////////////////////////////////////////////////

  /** After registering, the name resolves to the id and the id to the
      name; no other key changes. */
  lemma RegisterEffect(merge: MergeOperator, m: Store, name: Bytes, id: TableId)
    ensures var r := Apply(merge, m, RegisterOps(name, id));
            NameRecordReadable(r, name) && IdByName(r, name) == Some(id) &&
            Lookup(r, BuildIdToNameTableInnerKey(id)) == Some(name) &&
            forall k :: k != BuildNameToIdTableInnerKey(name) && k != BuildIdToNameTableInnerKey(id) ==> Lookup(r, k) == Lookup(m, k)
  {
    var nk, ik := BuildNameToIdTableInnerKey(name), BuildIdToNameTableInnerKey(id);
    Apply2(merge, m, BatchOp.Put(nk, id), BatchOp.Put(ik, name));
    assert nk[3] != ik[3];
    var r := Apply(merge, m, RegisterOps(name, id));
    assert Lookup(r, nk) == Some(id);
    assert id[..4] == id;
  }

  /** Destroying a registered table removes both of its records and every
      key of the table whose user key does not start with five bytes of
      0xFF; no key outside the table and its two records changes. */
  lemma DestroyEffect(merge: MergeOperator, m: Store, name: Bytes)
    requires NameRecordReadable(m, name) && IdByName(m, name).Some?
    ensures var id := IdByName(m, name).value;
            var r := Apply(merge, m, DestroyOps(m, name));
            BuildNameToIdTableInnerKey(name) !in r && BuildIdToNameTableInnerKey(id) !in r &&
            (forall key :: !HasPrefix(key, Ones(MAX_USERLAND_KEY_LEN + 1)) ==> BuildInnerKey(id, key) !in r) &&
            forall k :: (k != BuildNameToIdTableInnerKey(name) && k != BuildIdToNameTableInnerKey(id) && !HasPrefix(k, id))
                        ==> Lookup(r, k) == Lookup(m, k)
  {
    var id := IdByName(m, name).value;
    var nk, ik := BuildNameToIdTableInnerKey(name), BuildIdToNameTableInnerKey(id);
    var a, b, c := BatchOp.Delete(nk), BatchOp.Delete(ik), BatchOp.DeleteRange(id, TableAnchor(id));
    Apply3(merge, m, a, b, c);
    var r := Apply(merge, m, DestroyOps(m, name));
    forall key | !HasPrefix(key, Ones(MAX_USERLAND_KEY_LEN + 1)) ensures BuildInnerKey(id, key) !in r {
      var k := BuildInnerKey(id, key);
      assert k[TABLE_ID_LEN..] == key;
      TableRangeScope(id, k);
      assert Lookup(r, k) == None;
    }
    forall k | !HasPrefix(k, id) ensures !Touches(c, k) {
      TableRangeScope(id, k);
    }
  }

  /** Truncating a registered userland table removes every key of the
      table whose user key does not start with five bytes of 0xFF and
      leaves every other key, the table's records included, unchanged.
      The table must be userland: with the corrected id allocator every
      registered id is (`AllocatedIdsAreUserland`); only the wrapping
      counter as written could register one of the system ids 0 to 2
      (`AsWrittenHandsOutInfoTable`), and truncating such a table would
      delete registry records along with it. */
  lemma TruncateEffect(merge: MergeOperator, m: Store, name: Bytes)
    requires NameRecordReadable(m, name) && IdByName(m, name).Some? && IsUserland(IdByName(m, name).value)
    ensures var id := IdByName(m, name).value;
            var r := Apply(merge, m, TruncateOps(m, name));
            (forall key :: !HasPrefix(key, Ones(MAX_USERLAND_KEY_LEN + 1)) ==> BuildInnerKey(id, key) !in r) &&
            (forall k :: !HasPrefix(k, id) ==> Lookup(r, k) == Lookup(m, k)) &&
            Lookup(r, BuildNameToIdTableInnerKey(name)) == Lookup(m, BuildNameToIdTableInnerKey(name)) &&
            Lookup(r, BuildIdToNameTableInnerKey(id)) == Lookup(m, BuildIdToNameTableInnerKey(id))
  {
    var id := IdByName(m, name).value;
    var c := BatchOp.DeleteRange(id, TableAnchor(id));
    Apply1(merge, m, c);
    var r := Apply(merge, m, TruncateOps(m, name));
    forall key | !HasPrefix(key, Ones(MAX_USERLAND_KEY_LEN + 1)) ensures BuildInnerKey(id, key) !in r {
      var k := BuildInnerKey(id, key);
      assert k[TABLE_ID_LEN..] == key;
      TableRangeScope(id, k);
      assert Lookup(r, k) == None;
    }
    forall k | !HasPrefix(k, id) ensures !Touches(c, k) {
      TableRangeScope(id, k);
    }
    RecordKeysDistinct(name, id, id, []);
  }

  /** Renaming keeps the id: afterwards the new name resolves to it, its
      id-to-name record holds the new name, and the old name (when it
      differs) no longer resolves; no other key changes. */
  lemma RenameEffect(merge: MergeOperator, m: Store, oldName: Bytes, newName: Bytes)
    requires NameRecordReadable(m, oldName) && IdByName(m, oldName).Some?
    ensures var id := IdByName(m, oldName).value;
            var r := Apply(merge, m, RenameOps(m, oldName, newName));
            NameRecordReadable(r, newName) && IdByName(r, newName) == Some(id) &&
            Lookup(r, BuildIdToNameTableInnerKey(id)) == Some(newName) &&
            (oldName != newName ==> BuildNameToIdTableInnerKey(oldName) !in r) &&
            forall k :: (k != BuildNameToIdTableInnerKey(oldName) && k != BuildNameToIdTableInnerKey(newName) &&
                         k != BuildIdToNameTableInnerKey(id)) ==> Lookup(r, k) == Lookup(m, k)
  {
    var id := IdByName(m, oldName).value;
    var nk, nk', ik := BuildNameToIdTableInnerKey(oldName), BuildNameToIdTableInnerKey(newName), BuildIdToNameTableInnerKey(id);
    Apply4(merge, m, BatchOp.Delete(nk), BatchOp.Delete(ik), BatchOp.Put(nk', id), BatchOp.Put(ik, newName));
    assert nk'[3] != ik[3];
    assert nk[3] != ik[3];
    if oldName != newName {
      if nk == nk' {
        InnerKeyInjective(NAME_TO_ID_TABLE_ID, oldName, NAME_TO_ID_TABLE_ID, newName);
      }
    }
    assert id[..4] == id;
  }

  //////////////////////////////////////////////////////////////////////////
  // Listing the registry and seeding the id counter
  //////////////////////////////////////////////////////////////////////////

  /** Every key of the id-to-name table carries at least four bytes after
      the table id (`get_table_infos` reads them with `u8s_to_u32`). */
  ghost predicate IdToNameKeysReadable(m: Store) {
    forall k :: k in m && HasPrefix(k, ID_TO_NAME_TABLE_ID) ==> |k| >= TABLE_ID_LEN + 4
  }

  /** Every key of the id-to-name table is a record key: the table id and
      a 4-byte id, as `register_table` writes them. */
  ghost predicate IdToNameKeysExact(m: Store) {
    forall k :: k in m && HasPrefix(k, ID_TO_NAME_TABLE_ID) ==> |k| == TABLE_ID_LEN + 4
  }

  /** The `i`-th key of the id-to-name table in key order. */
  ghost function IdKeyAt(m: Store, i: nat): (k: Bytes)
    requires IdToNameKeysReadable(m)
    requires i < |SortedKeys(Bucket(m, ID_TO_NAME_TABLE_ID))|
    ensures k == SortedKeys(Bucket(m, ID_TO_NAME_TABLE_ID))[i]
    ensures k in m && HasPrefix(k, ID_TO_NAME_TABLE_ID) && |k| >= TABLE_ID_LEN + 4
  {
    var ks := SortedKeys(Bucket(m, ID_TO_NAME_TABLE_ID));
    assert ks[i] in ks;
    ks[i]
  }

  /** One entry of `get_table_infos`: the name stored under an id-to-name
      key, with the id the key carries. */
  function InfoOf(m: Store, k: Bytes): (Bytes, u32)
    requires k in m && |k| >= TABLE_ID_LEN + 4
  {
    (m[k], U8sToU32(ExtractKey(k)))
  }

  /** What `get_table_infos` lists: an entry per id-to-name record, in key
      order. */
  ghost function TableInfos(m: Store): (r: seq<(Bytes, u32)>)
    requires IdToNameKeysReadable(m)
    ensures |r| == |SortedKeys(Bucket(m, ID_TO_NAME_TABLE_ID))|
    ensures forall i :: 0 <= i < |r| ==> r[i] == InfoOf(m, IdKeyAt(m, i))
  {
    var n := |SortedKeys(Bucket(m, ID_TO_NAME_TABLE_ID))|;
    seq(n, i requires 0 <= i < n => InfoOf(m, IdKeyAt(m, i)))
  }

  /** The listing grows one entry per id-to-name key, in key order. */
  lemma TableInfosStep(m: Store, i: nat)
    requires IdToNameKeysReadable(m)
    requires i < |SortedKeys(Bucket(m, ID_TO_NAME_TABLE_ID))|
    ensures TableInfos(m)[..i + 1] == TableInfos(m)[..i] + [InfoOf(m, IdKeyAt(m, i))]
  {
    TakeSnoc(TableInfos(m), i);
  }

  /** A record key taken apart: the id it carries, read as `u8s_to_u32`
      reads it, rebuilds the key. */
  lemma IdKeyParts(k: Bytes)
    requires |k| == TABLE_ID_LEN + 4 && HasPrefix(k, ID_TO_NAME_TABLE_ID)
    ensures k == BuildIdToNameTableInnerKey(U32ToU8a4(U8sToU32(ExtractKey(k))))
    ensures U8sToU32(ExtractKey(k)) == U8a4ToU32(k[TABLE_ID_LEN..])
  {
    var u := ExtractKey(k);
    assert u[..4] == u;
    assert k == ID_TO_NAME_TABLE_ID + u;
    U8a4RoundTrip(u);
  }

  /** `get_table_infos` lists exactly the id-to-name records, each with its
      name, in increasing id order. */
  lemma TableInfosListRegistry(m: Store)
    requires IdToNameKeysExact(m)
    ensures IdToNameKeysReadable(m)
    ensures forall i :: 0 <= i < |TableInfos(m)| ==>
              Lookup(m, BuildIdToNameTableInnerKey(U32ToU8a4(TableInfos(m)[i].1))) == Some(TableInfos(m)[i].0)
    ensures forall id :: BuildIdToNameTableInnerKey(id) in m ==>
              (m[BuildIdToNameTableInnerKey(id)], U8a4ToU32(id)) in TableInfos(m)
    ensures forall i, j :: 0 <= i < j < |TableInfos(m)| ==> TableInfos(m)[i].1 < TableInfos(m)[j].1
  {
    var infos := TableInfos(m);
    var ks := SortedKeys(Bucket(m, ID_TO_NAME_TABLE_ID));
    forall i | 0 <= i < |infos|
      ensures Lookup(m, BuildIdToNameTableInnerKey(U32ToU8a4(infos[i].1))) == Some(infos[i].0)
    {
      var k := IdKeyAt(m, i);
      IdKeyParts(k);
    }
    forall id | BuildIdToNameTableInnerKey(id) in m
      ensures (m[BuildIdToNameTableInnerKey(id)], U8a4ToU32(id)) in infos
    {
      var k := BuildIdToNameTableInnerKey(id);
      assert k[..4] == ID_TO_NAME_TABLE_ID;
      assert k in Bucket(m, ID_TO_NAME_TABLE_ID);
      var j :| 0 <= j < |ks| && ks[j] == k;
      assert IdKeyAt(m, j) == k;
      IdKeyParts(k);
      assert k[TABLE_ID_LEN..] == id;
      assert infos[j] == (m[k], U8a4ToU32(id));
    }
    forall i, j | 0 <= i < j < |infos| ensures infos[i].1 < infos[j].1 {
      var a, b := IdKeyAt(m, i), IdKeyAt(m, j);
      IdKeyParts(a);
      IdKeyParts(b);
      assert a == ID_TO_NAME_TABLE_ID + a[TABLE_ID_LEN..];
      assert b == ID_TO_NAME_TABLE_ID + b[TABLE_ID_LEN..];
      LessCommonPrefix(ID_TO_NAME_TABLE_ID, a[TABLE_ID_LEN..], b[TABLE_ID_LEN..]);
      U8a4OrderIsNumericOrder(a[TABLE_ID_LEN..], b[TABLE_ID_LEN..]);
    }
  }

  /** The keys `get_last_table_id`'s `seek_to_last` chooses from. */
  function IdKeysToAnchor(m: Store): set<Bytes> {
    AtOrBefore(m, ID_TO_NAME_TABLE_ID, BuildIdToNameTableAnchor())
  }

  /** The key `seek_to_last` lands on, if any, carries a 4-byte id. */
  ghost predicate LastIdKeyReadable(m: Store) {
    forall k :: IsGreatest(k, IdKeysToAnchor(m)) ==> |k| >= TABLE_ID_LEN + 4
  }

  /** The key `seek_to_last` lands on. */
  ghost function LastIdKey(m: Store): (k: Bytes)
    requires IdKeysToAnchor(m) != {}
    ensures IsGreatest(k, IdKeysToAnchor(m))
  {
    GreatestExists(IdKeysToAnchor(m));
    var k :| IsGreatest(k, IdKeysToAnchor(m));
    k
  }

  /** What `get_last_table_id` returns: the id carried by the last
      id-to-name key below the anchor, or 1023 when there is none. */
  ghost function LastTableId(m: Store): u32
    requires LastIdKeyReadable(m)
  {
    if IdKeysToAnchor(m) == {} then 1023 else U8sToU32(ExtractKey(LastIdKey(m)))
  }

  /** The key `seek_to_last` lands on carries the seed. */
  lemma LastKeyCarriesSeed(m: Store, k: Bytes, key: Bytes)
    requires LastIdKeyReadable(m)
    requires IsGreatest(k, IdKeysToAnchor(m)) && BuildInnerKey(ID_TO_NAME_TABLE_ID, key) == k
    ensures |key| >= 4 && U8sToU32(key) == LastTableId(m)
  {
    GreatestUnique(k, LastIdKey(m), IdKeysToAnchor(m));
    InnerKeyRoundTrip(ID_TO_NAME_TABLE_ID, key);
  }

  /** With no id-to-name key below the anchor the seed is one below the
      first userland id. */
  lemma NoIdKeysSeed(m: Store)
    requires IdKeysToAnchor(m) == {}
    ensures LastIdKeyReadable(m) && LastTableId(m) == U8a4ToU32(MIN_USERLAND_TABLE_ID) - 1
  {
    ReservedTableIds();
  }

  /** The seed is at least every registered id, so the counter only hands
      out ids above every surviving registration. */
  lemma LastTableIdBoundsRegistered(m: Store, id: TableId)
    requires IdToNameKeysExact(m)
    requires BuildIdToNameTableInnerKey(id) in m
    ensures LastIdKeyReadable(m)
    ensures U8a4ToU32(id) <= LastTableId(m)
  {
    var s := IdKeysToAnchor(m);
    var ik := BuildIdToNameTableInnerKey(id);
    assert ik[..4] == ID_TO_NAME_TABLE_ID;
    ShortKeysBelowAnchor(ID_TO_NAME_TABLE_ID, TABLE_ID_LEN, id);
    assert ik in s;
    forall k | IsGreatest(k, s) ensures |k| >= TABLE_ID_LEN + 4 {
    }
    var k := LastIdKey(m);
    IdKeyParts(k);
    assert k == ID_TO_NAME_TABLE_ID + k[TABLE_ID_LEN..];
    assert ik == ID_TO_NAME_TABLE_ID + id;
    LessCommonPrefix(ID_TO_NAME_TABLE_ID, id, k[TABLE_ID_LEN..]);
    U8a4OrderIsNumericOrder(id, k[TABLE_ID_LEN..]);
  }

  /** A write to the info table does not change what `seek_to_last` on
      the id-to-name table can reach. */
  lemma InfoWriteKeepsIdKeys(m: Store, k: Bytes, v: Bytes)
    requires HasPrefix(k, INFO_TABLE_ID)
    ensures IdKeysToAnchor(m[k := v]) == IdKeysToAnchor(m)
  {
    assert !HasPrefix(k, ID_TO_NAME_TABLE_ID) by {
      assert k[3] == 0;
    }
  }

  /** The seed depends only on the id-to-name keys below the anchor. */
  lemma SameIdKeysSameSeed(m: Store, m': Store)
    requires LastIdKeyReadable(m) && IdKeysToAnchor(m') == IdKeysToAnchor(m)
    ensures LastIdKeyReadable(m') && LastTableId(m') == LastTableId(m)
  {
    if IdKeysToAnchor(m) != {} {
      GreatestUnique(LastIdKey(m), LastIdKey(m'), IdKeysToAnchor(m));
    }
  }

  /** With no id-to-name record the seed is 1023, one below the first
      userland id. */
  lemma EmptyRegistrySeed(m: Store)
    requires forall k :: k in m ==> !HasPrefix(k, ID_TO_NAME_TABLE_ID)
    ensures LastIdKeyReadable(m) && LastTableId(m) == 1023
    ensures LastTableId(m) + 1 == U8a4ToU32(MIN_USERLAND_TABLE_ID)
  {
    assert IdKeysToAnchor(m) == {};
    ReservedTableIds();
  }

  //////////////////////////////////////////////////////////////////////////
  // Allocating table ids
  //////////////////////////////////////////////////////////////////////////

  /** The counter after an allocation, and the allocation's result. */
  datatype Allocation = Allocation(counter: u32, result: Result<TableId>)

  /** `generate_next_table_id` as written: the atomic `fetch_add(1)` wraps
      the counter and the `+ 1` on its old value wraps the same way in a
      release build. */
  function NextTableIdAsWritten(counter: u32): (a: Allocation)
    ensures a.result.Ok? ==> U8a4ToU32(a.result.value) == a.counter
  {
    var next := WrappingAdd(counter, 1);
    if !Less(U32ToU8a4(next), MAX_USERLAND_TABLE_ID) then
      Allocation(next, Err(ExceededLimitError(next, U8a4ToU32(MAX_USERLAND_TABLE_ID))))
    else Allocation(next, Ok(U32ToU8a4(next)))
  }

  /** `generate_next_table_id` as intended: the counter saturates at
      2^32 - 1 instead of wrapping, so once the limit is reached every
      later call fails too. */
  function NextTableId(counter: u32): (a: Allocation)
    ensures a.result.Ok? ==> U8a4ToU32(a.result.value) == a.counter
  {
    var next := if counter == U32_MAX then U32_MAX else counter + 1;
    if !Less(U32ToU8a4(next), MAX_USERLAND_TABLE_ID) then
      Allocation(next, Err(ExceededLimitError(next, U8a4ToU32(MAX_USERLAND_TABLE_ID))))
    else Allocation(next, Ok(U32ToU8a4(next)))
  }

  /** An allocation advances the counter by exactly one, error or not, and
      succeeds exactly while the new value is below 4294967294; a failure
      reports the new value and that limit. */
  lemma AllocationAdvancesByOne(counter: u32)
    requires counter < U32_MAX
    ensures NextTableId(counter).counter == counter + 1
    ensures NextTableId(counter).result.Ok? <==> counter + 1 < 4294967294
    ensures NextTableId(counter).result.Err? ==>
              NextTableId(counter).result.error == ExceededLimitError(counter + 1, 4294967294)
  {
    ReservedTableIds();
    U8a4RoundTrip(MAX_USERLAND_TABLE_ID);
    U32OrderIsByteOrder(counter + 1, 4294967294);
  }

  /** Seeded at or above 1023, the counter stays there and every id it hands
      out is a userland id below the limit. */
  lemma AllocatedIdsAreUserland(counter: u32)
    requires counter >= 1023
    ensures NextTableId(counter).counter >= 1023
    ensures NextTableId(counter).result.Ok? ==>
              IsUserland(NextTableId(counter).result.value) && Less(NextTableId(counter).result.value, MAX_USERLAND_TABLE_ID)
  {
    var a := NextTableId(counter);
    if a.result.Ok? {
      ReservedTableIds();
      U8a4OrderIsNumericOrder(a.result.value, MIN_USERLAND_TABLE_ID);
    }
  }

  /** Successive successful allocations hand out strictly increasing ids. */
  lemma AllocationsIncrease(counter: u32)
    requires NextTableId(counter).result.Ok? && NextTableId(NextTableId(counter).counter).result.Ok?
    ensures Less(NextTableId(counter).result.value, NextTableId(NextTableId(counter).counter).result.value)
  {
    var a := NextTableId(counter);
    var b := NextTableId(a.counter);
    U8a4OrderIsNumericOrder(a.result.value, b.result.value);
  }

  /** Once the limit is reached, every later allocation fails. */
  lemma ExhaustionIsPermanent(counter: u32)
    requires NextTableId(counter).result.Err?
    ensures NextTableId(NextTableId(counter).counter).result.Err?
  {
    var a := NextTableId(counter);
    var next := if counter == U32_MAX then U32_MAX else counter + 1;
    ReservedTableIds();
    U8a4RoundTrip(MAX_USERLAND_TABLE_ID);
    U32OrderIsByteOrder(next, 4294967294);
    if a.counter < U32_MAX {
      U32OrderIsByteOrder(a.counter + 1, 4294967294);
    }
  }

  /** The wrap-around: from a counter of 4294967293 the written allocator
      fails twice and then hands out id 0, the info table's id. */
  lemma AsWrittenHandsOutInfoTable()
    ensures var a1 := NextTableIdAsWritten(4294967293);
            var a2 := NextTableIdAsWritten(a1.counter);
            var a3 := NextTableIdAsWritten(a2.counter);
            a1.result.Err? && a2.result.Err? && a3.result == Ok(INFO_TABLE_ID) &&
            NextTableId(a2.counter).result.Err?
  {
    ReservedTableIds();
    U8a4RoundTrip(MAX_USERLAND_TABLE_ID);
    U32OrderIsByteOrder(4294967294, 4294967294);
    U32OrderIsByteOrder(4294967295, 4294967294);
    U32OrderIsByteOrder(0, 4294967294);
    assert U32ToU8a4(0) == INFO_TABLE_ID;
  }

  /** On a fresh store the first two tables get ids 1024 and 1025. */
  lemma FreshStoreIds()
    ensures NextTableId(1023) == Allocation(1024, Ok(MIN_USERLAND_TABLE_ID))
    ensures NextTableId(1024) == Allocation(1025, Ok([0, 0, 4, 1]))
  {
    ReservedTableIds();
    U8a4RoundTrip(MAX_USERLAND_TABLE_ID);
    U8a4RoundTrip(MIN_USERLAND_TABLE_ID);
    U32OrderIsByteOrder(1024, 4294967294);
    U32OrderIsByteOrder(1025, 4294967294);
    assert U32ToU8a4(1025) == [0, 0, 4, 1];
  }

  //////////////////////////////////////////////////////////////////////////
  // Replaying a change feed
  //////////////////////////////////////////////////////////////////////////

  /** A `WriteOpBatch` as a value: its sequence number and its records. */
  datatype CapturedBatch = CapturedBatch(sn: u64, writeOps: seq<OptionalWriteOp>)

  /** The store, its pending write outcomes and what `replay` returns. */
  datatype ReplayOutcome = ReplayOutcome(data: Store, faults: seq<bool>, result: Result<u64>)

  /** `replay` from the batch `bs[0]` on, the last sequence number seen
      being `sn`: one store write per batch, in order, stopping at the
      first write that fails. */
  function ReplayFrom(merge: MergeOperator, m: Store, faults: seq<bool>, bs: seq<CapturedBatch>, sn: u64): (o: ReplayOutcome)
    decreases |bs|
  {
    if bs == [] then ReplayOutcome(m, faults, Ok(sn))
    else if faults != [] && faults[0] then ReplayOutcome(m, Consume(faults), Err(RocksdbError(IOError)))
    else ReplayFrom(merge, Apply(merge, m, BatchOpsOf(bs[0].writeOps)), Consume(faults), bs[1..], bs[0].sn)
  }

  /** One step of `replay`: the first batch is written, or its write fails
      and the replay stops there. */
  lemma ReplayFirst(merge: MergeOperator, m: Store, faults: seq<bool>, bs: seq<CapturedBatch>, sn: u64)
    requires bs != []
    ensures ReplayFrom(merge, m, faults, bs, sn) ==
            if faults != [] && faults[0] then ReplayOutcome(m, Consume(faults), Err(RocksdbError(IOError)))
            else ReplayFrom(merge, Apply(merge, m, BatchOpsOf(bs[0].writeOps)), Consume(faults), bs[1..], bs[0].sn)
  {
  }

  /** The store after applying each batch's records in order. */
  function ApplyBatches(merge: MergeOperator, m: Store, bs: seq<CapturedBatch>): Store
    decreases |bs|
  {
    if bs == [] then m else ApplyBatches(merge, Apply(merge, m, BatchOpsOf(bs[0].writeOps)), bs[1..])
  }

  /** How many of the next `n` writes succeed before the first failure. */
  function CleanWrites(faults: seq<bool>, n: nat): (c: nat)
    ensures c <= n
  {
    if n == 0 || (faults != [] && faults[0]) then 0 else 1 + CleanWrites(Consume(faults), n - 1)
  }

  /** `replay` applies the batches before the first failing write, all of
      them when none fails. */
  lemma {:induction false} ReplayAppliesCleanPrefix(merge: MergeOperator, m: Store, faults: seq<bool>, bs: seq<CapturedBatch>, sn: u64)
    ensures ReplayFrom(merge, m, faults, bs, sn).data == ApplyBatches(merge, m, bs[..CleanWrites(faults, |bs|)])
    decreases |bs|
  {
    if bs == [] {
    } else if faults != [] && faults[0] {
      assert bs[..0] == [];
    } else {
      var m', f' := Apply(merge, m, BatchOpsOf(bs[0].writeOps)), Consume(faults);
      ReplayAppliesCleanPrefix(merge, m', f', bs[1..], bs[0].sn);
      var c := CleanWrites(faults, |bs|);
      assert c == 1 + CleanWrites(f', |bs| - 1);
      assert bs[..c][0] == bs[0] && bs[..c][1..] == bs[1..][..c - 1];
    }
  }

  /** `replay` returns the last batch's sequence number (the starting one
      for an empty list) when every write succeeds, and the first failing
      write's error otherwise. */
  lemma {:induction false} ReplayReportsFirstFailure(merge: MergeOperator, m: Store, faults: seq<bool>, bs: seq<CapturedBatch>, sn: u64)
    ensures var r := ReplayFrom(merge, m, faults, bs, sn).result;
            var c := CleanWrites(faults, |bs|);
            (c == |bs| ==> r == Ok(if bs == [] then sn else bs[|bs| - 1].sn)) &&
            (c < |bs| ==> r == Err(RocksdbError(IOError)))
    decreases |bs|
  {
    if bs != [] && !(faults != [] && faults[0]) {
      var m', f' := Apply(merge, m, BatchOpsOf(bs[0].writeOps)), Consume(faults);
      ReplayReportsFirstFailure(merge, m', f', bs[1..], bs[0].sn);
      if |bs| > 1 {
        assert bs[1..][|bs| - 2] == bs[|bs| - 1];
      }
    }
  }

  /** The store after committing each batch in order. */
  function ApplyCommits(merge: MergeOperator, m: Store, commits: seq<seq<BatchOp>>): Store
    decreases |commits|
  {
    if commits == [] then m else ApplyCommits(merge, Apply(merge, m, commits[0]), commits[1..])
  }

  /** The change feed of a run of commits: one captured batch per commit. */
  function Feed(commits: seq<seq<BatchOp>>, sns: seq<u64>): (bs: seq<CapturedBatch>)
    requires |sns| == |commits|
    ensures |bs| == |commits|
  {
    seq(|commits|, i requires 0 <= i < |commits| => CapturedBatch(sns[i], Captured(commits[i])))
  }

  /** Replaying the captured feed of a run of commits on the state they
      started from rebuilds the state they ended in. */
  lemma {:induction false} ReplayOfFeedRebuildsStore(merge: MergeOperator, m: Store, commits: seq<seq<BatchOp>>, sns: seq<u64>)
    requires |sns| == |commits|
    ensures ApplyBatches(merge, m, Feed(commits, sns)) == ApplyCommits(merge, m, commits)
    decreases |commits|
  {
    if commits != [] {
      CaptureThenReplay(commits[0]);
      assert Feed(commits, sns)[1..] == Feed(commits[1..], sns[1..]);
      ReplayOfFeedRebuildsStore(merge, Apply(merge, m, commits[0]), commits[1..], sns[1..]);
    }
  }

  //////////////////////////////////////////////////////////////////////////
  // Open-time steps
  //////////////////////////////////////////////////////////////////////////

  /** The inner key of the placeholder item. */
  function PlaceholderKey(): Bytes {
    BuildInfoTableInnerKey(PLACEHOLDER_ITEM_ID)
  }

  /** The inner key of the TTL flag item. */
  function TtlFlagKey(): Bytes {
    BuildInfoTableInnerKey(TTL_ITEM_ID)
  }

  /** `try_put_placeholder` over a store: the placeholder item is written
      when missing. */
  function WithPlaceholder(m: Store): Store {
    if PlaceholderKey() in m then m else m[PlaceholderKey() := PLACEHOLDER_ITEM_ID]
  }

  /** Afterwards the placeholder is present, an existing one is left as it
      was, no other key changes, and a second run changes nothing. */
  lemma PlaceholderStep(m: Store)
    ensures PlaceholderKey() in WithPlaceholder(m)
    ensures PlaceholderKey() in m ==> WithPlaceholder(m)[PlaceholderKey()] == m[PlaceholderKey()]
    ensures forall k :: k != PlaceholderKey() ==> Lookup(WithPlaceholder(m), k) == Lookup(m, k)
    ensures WithPlaceholder(WithPlaceholder(m)) == WithPlaceholder(m)
  {
  }

  /** The stored form of the TTL flag. */
  function FlagBytes(enabled: bool): (b: Bytes)
    ensures (b == [1]) == enabled
  {
    if enabled then [1] else [0]
  }

  /** The persisted TTL flag: `[1]` reads as enabled, anything else as
      disabled. */
  function TtlFlag(m: Store): Option<bool> {
    if TtlFlagKey() in m then Some(m[TtlFlagKey()] == [1]) else None
  }

  /** `ensure_ttl_enabled_consistent` when the flag is present: a mismatch
      is an error carrying both values. */
  function TtlCheck(current: bool, wanted: bool): (r: Result<()>)
    ensures r.Ok? <==> current == wanted
    ensures r.Err? ==> r.error == InconsistentTtlEnabled(current, wanted)
  {
    if wanted != current then Err(InconsistentTtlEnabled(current, wanted)) else Ok(())
  }

  /** Writing the flag for `wanted` makes it read back as `wanted`, so a
      second check with the same mode passes and one with the other mode
      fails. */
  lemma TtlFlagRoundTrip(m: Store, wanted: bool)
    ensures TtlFlag(m[TtlFlagKey() := FlagBytes(wanted)]) == Some(wanted)
    ensures TtlCheck(TtlFlag(m[TtlFlagKey() := FlagBytes(wanted)]).value, wanted) == Ok(())
    ensures TtlCheck(TtlFlag(m[TtlFlagKey() := FlagBytes(wanted)]).value, !wanted) == Err(InconsistentTtlEnabled(wanted, !wanted))
  {
  }

  /** The flag and the placeholder are different items. */
  lemma InfoItemsDistinct()
    ensures PlaceholderKey() != TtlFlagKey()
  {
    assert PlaceholderKey()[5] != TtlFlagKey()[5];
  }

  /** `ensure_ttl_enabled_consistent` over a store: the flag for `wanted`
      is written when missing. */
  function WithTtlFlag(m: Store, wanted: bool): Store {
    if TtlFlagKey() in m then m else m[TtlFlagKey() := FlagBytes(wanted)]
  }

  /** A successful open leaves the placeholder and the flag for the chosen
      mode in the store, touches no other key, and keeps the id-to-name
      keys and so the seed of the id counter. */
  lemma {:induction false} OpenPreparesStore(m: Store, wanted: bool)
    requires LastIdKeyReadable(m)
    requires TtlFlag(m).Some? ==> TtlFlag(m).value == wanted
    ensures var m' := WithTtlFlag(WithPlaceholder(m), wanted);
            PlaceholderKey() in m' && TtlFlag(m') == Some(wanted) &&
            (forall k :: k != PlaceholderKey() && k != TtlFlagKey() ==> Lookup(m', k) == Lookup(m, k)) &&
            LastIdKeyReadable(m') && LastTableId(m') == LastTableId(m)
  {
    InfoItemsDistinct();
    var m1 := WithPlaceholder(m);
    if PlaceholderKey() !in m {
      InfoWriteKeepsIdKeys(m, PlaceholderKey(), PLACEHOLDER_ITEM_ID);
    }
    if TtlFlagKey() !in m1 {
      InfoWriteKeepsIdKeys(m1, TtlFlagKey(), FlagBytes(wanted));
    }
    SameIdKeysSameSeed(m, WithTtlFlag(m1, wanted));
  }
}
