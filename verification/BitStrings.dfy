/**
 Bit strings, most significant bit first, and their lexicographic order.

 The trie reads keys one bit at a time, so its shape is decided by common
 prefixes of bit strings; byte keys enter through `KeyBits`.
 */
module BitStrings {

  type Bits = seq<bool>

  /** Length of the longest common prefix. */
  function CommonPrefix(a: Bits, b: Bits): (n: nat)
    ensures n <= |a| && n <= |b|
    ensures a[..n] == b[..n]
    ensures n < |a| && n < |b| ==> a[n] != b[n]
  {
    if |a| == 0 || |b| == 0 || a[0] != b[0] then
      0
    else
      var n := CommonPrefix(a[1..], b[1..]);
      assert a[..n + 1] == [a[0]] + a[1..][..n];
      assert b[..n + 1] == [b[0]] + b[1..][..n];
      n + 1
  }

  /** Strict lexicographic order: a proper prefix comes first. */
  predicate BitLess(a: Bits, b: Bits) {
    var n := CommonPrefix(a, b);
    n < |b| && (n == |a| || !a[n])
  }

  /** The common prefix is the only length with its two properties. */
  lemma CommonPrefixUnique(a: Bits, b: Bits, n: nat)
    requires n <= |a| && n <= |b| && a[..n] == b[..n]
    requires n < |a| && n < |b| ==> a[n] != b[n]
    ensures CommonPrefix(a, b) == n
  {
  }

  /** Any shared prefix is within the longest one. */
  lemma SharedWithinCommon(a: Bits, b: Bits, p: Bits)
    requires p <= a && p <= b
    ensures |p| <= CommonPrefix(a, b)
    ensures p == a[..CommonPrefix(a, b)][..|p|]
  {
  }

  lemma CommonPrefixSymmetric(a: Bits, b: Bits)
    ensures CommonPrefix(a, b) == CommonPrefix(b, a)
  {
    CommonPrefixUnique(b, a, CommonPrefix(a, b));
  }

  /** Order is decided at the first position where a witness differs. */
  lemma LessAt(a: Bits, b: Bits, n: nat)
    requires n <= |a| && n < |b| && a[..n] == b[..n]
    requires n == |a| || (!a[n] && b[n])
    ensures BitLess(a, b)
  {
    CommonPrefixUnique(a, b, n);
  }

  lemma LessIrreflexive(a: Bits)
    ensures !BitLess(a, a)
  {
    CommonPrefixUnique(a, a, |a|);
  }

  lemma LessTotal(a: Bits, b: Bits)
    ensures a == b || BitLess(a, b) || BitLess(b, a)
  {
    CommonPrefixSymmetric(a, b);
    var n := CommonPrefix(a, b);
    if n == |a| && n == |b| {
      assert a == a[..n] == b[..n] == b;
    }
  }

  lemma LessTransitive(a: Bits, b: Bits, c: Bits)
    requires BitLess(a, b) && BitLess(b, c)
    ensures BitLess(a, c)
  {
    var m, n := CommonPrefix(a, b), CommonPrefix(b, c);
    if m <= n {
      assert a[..m] == b[..m] == b[..n][..m] == c[..n][..m] == c[..m];
      if m < n {
        assert b[m] == b[..n][m] == c[..n][m] == c[m];
      }
      LessAt(a, c, m);
    } else {
      assert a[..n] == a[..m][..n] == b[..m][..n] == b[..n] == c[..n];
      assert a[n] == a[..m][n] == b[..m][n] == b[n];
      LessAt(a, c, n);
    }
  }

  lemma LessAsymmetric(a: Bits, b: Bits)
    requires BitLess(a, b)
    ensures !BitLess(b, a)
  {
    if BitLess(b, a) {
      LessTransitive(a, b, a);
      LessIrreflexive(a);
    }
  }

  /** Whatever lies between two strings that share a prefix shares it too. */
  lemma Between(a: Bits, b: Bits, c: Bits, p: Bits)
    requires a == b || BitLess(a, b)
    requires b == c || BitLess(b, c)
    requires p <= a && p <= c
    ensures p <= b
  {
    if a != b && b != c && !(p <= b) {
      var n := CommonPrefix(b, p);
      assert n < |p| by {
        assert p == p[..|p|];
      }
      assert b[..n] == p[..n] == a[..n] == c[..n];
      if n == |b| {
        LessAt(b, a, n);
        LessAsymmetric(a, b);
      } else if b[n] {
        assert !c[n];
        LessAt(c, b, n);
        LessAsymmetric(b, c);
      } else {
        assert a[n];
        LessAt(b, a, n);
        LessAsymmetric(a, b);
      }
    }
  }

  /** Below a shared prefix, the next bit never falls along the order. */
  lemma NextBitMonotone(a: Bits, b: Bits, p: Bits)
    requires BitLess(a, b)
    requires p <= a && p <= b && |p| < |a| && |p| < |b|
    requires a[|p|]
    ensures b[|p|]
  {
    if !b[|p|] {
      LessAt(b, a, |p|);
      LessAsymmetric(a, b);
    }
  }
}
