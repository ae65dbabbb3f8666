/** The store's raw iterator (`rocksdb::DBRawIterator`) as the library
    opens it: over a snapshot of the store, with `prefix_same_as_start`
    under the store's fixed 4-byte prefix extractor, so that after a seek
    it only ever stands on keys that share the first four bytes of the
    seek target. */
module RawIter {
  import opened Types
  import opened Lex
  import opened Consts
  import opened Engine

  //////////////////////////////////////////////////////////////////////////
  // Least and greatest keys of a set
  //////////////////////////////////////////////////////////////////////////

  predicate IsLeast(k: Bytes, s: set<Bytes>) {
    k in s && forall j :: j in s ==> Le(k, j)
  }

  predicate IsGreatest(k: Bytes, s: set<Bytes>) {
    k in s && forall j :: j in s ==> Le(j, k)
  }

  lemma {:induction false} LeastExists(s: set<Bytes>)
    requires s != {}
    ensures exists k :: IsLeast(k, s)
    decreases |s|
  {
    var x :| x in s;
    if s == {x} {
      assert IsLeast(x, s);
    } else {
      LeastExists(s - {x});
      var m :| IsLeast(m, s - {x});
      LessTotal(x, m);
      if Less(x, m) {
        forall j | j in s ensures Le(x, j) {
          if j != x {
            LeTransitive(x, m, j);
          }
        }
        assert IsLeast(x, s);
      } else {
        assert IsLeast(m, s);
      }
    }
  }

  lemma {:induction false} GreatestExists(s: set<Bytes>)
    requires s != {}
    ensures exists k :: IsGreatest(k, s)
    decreases |s|
  {
    var x :| x in s;
    if s == {x} {
      assert IsGreatest(x, s);
    } else {
      GreatestExists(s - {x});
      var m :| IsGreatest(m, s - {x});
      LessTotal(x, m);
      if Less(m, x) {
        forall j | j in s ensures Le(j, x) {
          if j != x {
            LeTransitive(j, m, x);
          }
        }
        assert IsGreatest(x, s);
      } else {
        assert IsGreatest(m, s);
      }
    }
  }

  /** A set has at most one least element. */
  lemma LeastUnique(a: Bytes, b: Bytes, s: set<Bytes>)
    requires IsLeast(a, s) && IsLeast(b, s)
    ensures a == b
  {
    LeAntisymmetric(a, b);
  }

  /** A set has at most one greatest element. */
  lemma GreatestUnique(a: Bytes, b: Bytes, s: set<Bytes>)
    requires IsGreatest(a, s) && IsGreatest(b, s)
    ensures a == b
  {
    LeAntisymmetric(a, b);
  }

  //////////////////////////////////////////////////////////////////////////
  // The key sets a seek chooses from
  //////////////////////////////////////////////////////////////////////////

  /** The keys of `view` that carry `prefix`. */
  function Bucket(view: Store, prefix: Bytes): set<Bytes> {
    set k | k in view && HasPrefix(k, prefix)
  }

  function AtOrAfter(view: Store, prefix: Bytes, target: Bytes): set<Bytes> {
    set k | k in view && HasPrefix(k, prefix) && Le(target, k)
  }

  function AtOrBefore(view: Store, prefix: Bytes, target: Bytes): set<Bytes> {
    set k | k in view && HasPrefix(k, prefix) && Le(k, target)
  }

  function After(view: Store, prefix: Bytes, target: Bytes): set<Bytes> {
    set k | k in view && HasPrefix(k, prefix) && Less(target, k)
  }

  function Before(view: Store, prefix: Bytes, target: Bytes): set<Bytes> {
    set k | k in view && HasPrefix(k, prefix) && Less(k, target)
  }

  /** Seeking to a bare prefix reaches every key that carries it. */
  lemma SeekPrefixCoversBucket(view: Store, prefix: Bytes)
    ensures AtOrAfter(view, prefix, prefix) == Bucket(view, prefix)
  {
    forall k | k in Bucket(view, prefix) ensures Le(prefix, k) {
      assert k == prefix + k[|prefix|..];
      PrefixLe(prefix, k[|prefix|..]);
    }
  }

  //////////////////////////////////////////////////////////////////////////
  // The iterator
  //////////////////////////////////////////////////////////////////////////

  class DbRawIterator {
    /** The snapshot the iterator reads. */
    const view: Store
    /** The prefix fixed by the last seek. */
    var prefix: Bytes
    var current: Option<Bytes>

    /** Where the iterator stands: on a key of the snapshot that carries the
        prefix of the last seek, or nowhere. */
    ghost predicate Valid()
      reads this
    {
      current.Some? ==> current.value in view && HasPrefix(current.value, prefix) && |prefix| == TABLE_ID_LEN
    }

    /** `raw_iterator_opt`: unpositioned, over the store's current data. */
    constructor (db: RocksdbDb)
      ensures view == db.data && current == None && Valid()
    {
      view := db.data;
      prefix := [];
      current := None;
    }

    /** `valid` */
    function IsValid(): (b: bool)
      reads this
    {
      current.Some?
    }

    /** `key`: the key the iterator stands on. */
    function Key(): Option<Bytes>
      reads this
    {
      current
    }

    /** `value`: the value stored under that key in the snapshot. */
    function Value(): (r: Option<Bytes>)
      reads this
      requires Valid()
      ensures r.Some? <==> current.Some?
    {
      if current.Some? then Some(view[current.value]) else None
    }

    /** `status`: reading a snapshot does not fail in this model. */
    function Status(): (r: Result<()>)
      ensures r.Ok?
    {
      Ok(())
    }

    /** `seek`: the least key at or after `target` that shares its prefix. */
    method Seek(target: Bytes)
      requires |target| >= TABLE_ID_LEN
      modifies this
      ensures Valid() && prefix == target[..TABLE_ID_LEN]
      ensures current.None? <==> AtOrAfter(view, prefix, target) == {}
      ensures current.Some? ==> IsLeast(current.value, AtOrAfter(view, prefix, target))
    {
      prefix := target[..TABLE_ID_LEN];
      var s := AtOrAfter(view, prefix, target);
      if s == {} {
        current := None;
      } else {
        LeastExists(s);
        var k :| IsLeast(k, s);
        current := Some(k);
      }
    }

    /** `seek_for_prev`: the greatest key at or before `target` that shares
        its prefix. */
    method SeekForPrev(target: Bytes)
      requires |target| >= TABLE_ID_LEN
      modifies this
      ensures Valid() && prefix == target[..TABLE_ID_LEN]
      ensures current.None? <==> AtOrBefore(view, prefix, target) == {}
      ensures current.Some? ==> IsGreatest(current.value, AtOrBefore(view, prefix, target))
    {
      prefix := target[..TABLE_ID_LEN];
      var s := AtOrBefore(view, prefix, target);
      if s == {} {
        current := None;
      } else {
        GreatestExists(s);
        var k :| IsGreatest(k, s);
        current := Some(k);
      }
    }

    /** `next`: the least key after the current one under the same prefix. */
    method Next()
      requires Valid() && current.Some?
      modifies this`current
      ensures Valid()
      ensures current.None? <==> After(view, prefix, old(current.value)) == {}
      ensures current.Some? ==> IsLeast(current.value, After(view, prefix, old(current.value)))
    {
      var s := After(view, prefix, current.value);
      if s == {} {
        current := None;
      } else {
        LeastExists(s);
        var k :| IsLeast(k, s);
        current := Some(k);
      }
    }

    /** `prev`: the greatest key before the current one under the same
        prefix. */
    method Prev()
      requires Valid() && current.Some?
      modifies this`current
      ensures Valid()
      ensures current.None? <==> Before(view, prefix, old(current.value)) == {}
      ensures current.Some? ==> IsGreatest(current.value, Before(view, prefix, old(current.value)))
    {
      var s := Before(view, prefix, current.value);
      if s == {} {
        current := None;
      } else {
        GreatestExists(s);
        var k :| IsGreatest(k, s);
        current := Some(k);
      }
    }
  }

  //////////////////////////////////////////////////////////////////////////
  // A scan as a walk along the sorted keys
  //////////////////////////////////////////////////////////////////////////

  /** The elements of a finite set in increasing order. */
  ghost function SortedKeys(s: set<Bytes>): (r: seq<Bytes>)
    ensures StrictlySorted(r)
    ensures forall k :: k in s <==> k in r
    decreases |s|
  {
    if s == {} then []
    else
      LeastExists(s);
      var m :| IsLeast(m, s);
      var rest := SortedKeys(s - {m});
      assert forall j :: 0 <= j < |rest| ==> rest[j] in s - {m};
      [m] + rest
  }

  /** The first of the sorted keys is the least one. */
  lemma SortedHeadIsLeast(s: set<Bytes>)
    requires s != {}
    ensures |SortedKeys(s)| > 0 && IsLeast(SortedKeys(s)[0], s)
  {
    var r := SortedKeys(s);
    var x :| x in s;
    assert x in r;
    forall j | j in s ensures Le(r[0], j) {
      assert j in r;
    }
  }

  /** Stepping past the `i`-th sorted key lands on the `i + 1`-th, or off
      the end after the last one. */
  lemma SortedStep(s: set<Bytes>, i: nat, later: set<Bytes>)
    requires i < |SortedKeys(s)|
    requires forall k :: k in later <==> k in s && Less(SortedKeys(s)[i], k)
    ensures i + 1 < |SortedKeys(s)| ==> IsLeast(SortedKeys(s)[i + 1], later)
    ensures i + 1 == |SortedKeys(s)| <==> later == {}
  {
    var r := SortedKeys(s);
    forall k | k in later ensures exists j :: i < j < |r| && r[j] == k {
      var j :| 0 <= j < |r| && r[j] == k;
      if j <= i {
        if j < i {
          LessAsymmetric(r[j], r[i]);
        } else {
          LessIrreflexive(k);
        }
      }
    }
    if i + 1 < |r| {
      assert r[i + 1] in later;
      forall k | k in later ensures Le(r[i + 1], k) {
        var j :| i < j < |r| && r[j] == k;
        if j > i + 1 {
          assert Less(r[i + 1], r[j]);
        }
      }
    } else {
      forall k ensures k !in later {
      }
    }
  }
  /** Seeking to a bare prefix lands on the first sorted key of its
      bucket, or nowhere when the bucket is empty. */
  lemma SeekPrefixLandsOnFirst(view: Store, prefix: Bytes, current: Option<Bytes>)
    requires current.None? <==> AtOrAfter(view, prefix, prefix) == {}
    requires current.Some? ==> IsLeast(current.value, AtOrAfter(view, prefix, prefix))
    ensures var ks := SortedKeys(Bucket(view, prefix));
            current == if 0 < |ks| then Some(ks[0]) else None
  {
    var s := Bucket(view, prefix);
    var ks := SortedKeys(s);
    SeekPrefixCoversBucket(view, prefix);
    if s != {} {
      SortedHeadIsLeast(s);
      LeastUnique(current.value, ks[0], s);
    }
  }

  /** Stepping forward from the `i`-th sorted key of a bucket lands on the
      `i + 1`-th, or nowhere after the last one. */
  lemma NextLandsOnSuccessor(view: Store, prefix: Bytes, i: nat, next: Option<Bytes>)
    requires i < |SortedKeys(Bucket(view, prefix))|
    requires var later := After(view, prefix, SortedKeys(Bucket(view, prefix))[i]);
             (next.None? <==> later == {}) && (next.Some? ==> IsLeast(next.value, later))
    ensures var ks := SortedKeys(Bucket(view, prefix));
            next == if i + 1 < |ks| then Some(ks[i + 1]) else None
  {
    var s := Bucket(view, prefix);
    var ks := SortedKeys(s);
    var later := After(view, prefix, ks[i]);
    assert forall k :: k in later <==> k in s && Less(ks[i], k);
    SortedStep(s, i, later);
    if next.Some? {
      LeastUnique(next.value, ks[i + 1], later);
    }
  }
}
