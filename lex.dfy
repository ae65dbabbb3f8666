/** The storage engine's default key order: unsigned byte-wise lexicographic
    comparison, under which a proper prefix sorts before its extensions.
    Every range the library relies on (table ranges, anchors, seeks) is a
    statement about this order. */
module Lex {
  import opened Types

  /** `a` sorts strictly before `b`. */
  predicate Less(a: Bytes, b: Bytes)
    decreases |a|
  {
    |b| > 0 && (|a| == 0 || a[0] < b[0] || (a[0] == b[0] && Less(a[1..], b[1..])))
  }

  predicate Le(a: Bytes, b: Bytes) {
    a == b || Less(a, b)
  }

  /** `p` is a prefix of `k`. */
  predicate HasPrefix(k: Bytes, p: Bytes) {
    |p| <= |k| && k[..|p|] == p
  }

  /** Keys in strictly increasing order. */
  predicate StrictlySorted(s: seq<Bytes>) {
    forall i, j :: 0 <= i < j < |s| ==> Less(s[i], s[j])
  }

  /** `n` bytes all set to 0xFF. */
  function Ones(n: nat): (r: Bytes)
    ensures |r| == n && forall i :: 0 <= i < n ==> r[i] == 0xFF
  {
    seq(n, _ => 0xFF)
  }

  lemma {:induction false} LessIrreflexive(a: Bytes)
    ensures !Less(a, a)
    decreases |a|
  {
    if |a| > 0 {
      LessIrreflexive(a[1..]);
    }
  }

  lemma {:induction false} LessAsymmetric(a: Bytes, b: Bytes)
    ensures !(Less(a, b) && Less(b, a))
    decreases |a|
  {
    if |a| > 0 && |b| > 0 && a[0] == b[0] {
      LessAsymmetric(a[1..], b[1..]);
    }
  }

  lemma {:induction false} LessTransitive(a: Bytes, b: Bytes, c: Bytes)
    requires Less(a, b) && Less(b, c)
    ensures Less(a, c)
    decreases |a|
  {
    if |a| > 0 && a[0] == b[0] && b[0] == c[0] {
      LessTransitive(a[1..], b[1..], c[1..]);
    }
  }

  lemma {:induction false} LessTotal(a: Bytes, b: Bytes)
    ensures a == b || Less(a, b) || Less(b, a)
    decreases |a|
  {
    if |a| > 0 && |b| > 0 && a[0] == b[0] {
      LessTotal(a[1..], b[1..]);
      if a[1..] == b[1..] {
        assert a == [a[0]] + a[1..] && b == [b[0]] + b[1..];
      }
    }
  }

  lemma LeTransitive(a: Bytes, b: Bytes, c: Bytes)
    requires Le(a, b) && Le(b, c)
    ensures Le(a, c)
  {
    if a != b && b != c {
      LessTransitive(a, b, c);
    }
  }

  lemma LeAntisymmetric(a: Bytes, b: Bytes)
    requires Le(a, b) && Le(b, a)
    ensures a == b
  {
    LessAsymmetric(a, b);
  }

  /** Prepending a common prefix does not change the order. */
  lemma {:induction false} LessCommonPrefix(p: Bytes, a: Bytes, b: Bytes)
    ensures Less(p + a, p + b) <==> Less(a, b)
    decreases |p|
  {
    if |p| > 0 {
      assert (p + a)[1..] == p[1..] + a;
      assert (p + b)[1..] == p[1..] + b;
      LessCommonPrefix(p[1..], a, b);
    } else {
      assert p + a == a && p + b == b;
    }
  }

  /** A proper prefix sorts strictly before the longer key. */
  lemma {:induction false} PrefixLess(p: Bytes, a: Bytes)
    requires |a| > 0
    ensures Less(p, p + a)
    decreases |p|
  {
    if |p| > 0 {
      assert (p + a)[1..] == p[1..] + a;
      PrefixLess(p[1..], a);
    }
  }

  lemma PrefixLe(p: Bytes, a: Bytes)
    ensures Le(p, p + a)
  {
    if |a| > 0 {
      PrefixLess(p, a);
    } else {
      assert p + a == p;
    }
  }

  /** Two keys whose equally long heads differ are ordered by those heads,
      whatever follows them. */
  lemma {:induction false} LessSameLengthHeads(a: Bytes, b: Bytes, x: Bytes, y: Bytes)
    requires |a| == |b| && Less(a, b)
    ensures Less(a + x, b + y)
    decreases |a|
  {
    assert (a + x)[0] == a[0] && (b + y)[0] == b[0];
    if a[0] == b[0] {
      assert (a + x)[1..] == a[1..] + x;
      assert (b + y)[1..] == b[1..] + y;
      LessSameLengthHeads(a[1..], b[1..], x, y);
    }
  }

  /** A key that lies in `[p + a, p + b)` carries the prefix `p`. */
  lemma {:induction false} RangeKeepsPrefix(p: Bytes, a: Bytes, b: Bytes, k: Bytes)
    requires Le(p + a, k) && Less(k, p + b)
    ensures HasPrefix(k, p)
    decreases |p|
  {
    if |p| > 0 {
      if k == p + a {
        assert k[..|p|] == p;
      } else {
        assert (p + a)[1..] == p[1..] + a;
        assert (p + b)[1..] == p[1..] + b;
        assert |k| > 0 && k[0] == p[0];
        RangeKeepsPrefix(p[1..], a, b, k[1..]);
        assert k == [k[0]] + k[1..];
      }
    }
  }

  /** A key sorts below `n` bytes of 0xFF exactly when it does not start
      with them. */
  lemma {:induction false} LessOnes(k: Bytes, n: nat)
    ensures Less(k, Ones(n)) <==> !HasPrefix(k, Ones(n))
    decreases n
  {
    if n > 0 && |k| > 0 {
      assert Ones(n)[1..] == Ones(n - 1);
      LessOnes(k[1..], n - 1);
      if k[0] == 0xFF && HasPrefix(k[1..], Ones(n - 1)) {
        assert k[..n] == [k[0]] + k[1..][..n - 1];
      }
      if HasPrefix(k, Ones(n)) {
        assert k[1..][..n - 1] == k[..n][1..];
      }
    }
  }

  /** Keys no longer than `n` sort below `n + 1` bytes of 0xFF. */
  lemma ShortKeyBelowOnes(k: Bytes, n: nat)
    requires |k| <= n
    ensures Less(k, Ones(n + 1))
  {
    LessOnes(k, n + 1);
  }
}
