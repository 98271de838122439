/**
 Byte keys as bit strings.

 `ToBits` spells a byte string most significant bit first. The lemmas say that
 it is injective and carries byte prefixes to bit prefixes and byte order to
 bit order, so the trie modules may speak of bit strings only.
 */
module KeyBits {
  import opened BitStrings

  type Byte = b: int | 0 <= b < 256
  type Bytes = seq<Byte>

  /** The `width` low bits of `v`, most significant first. */
  function BitsOf(v: nat, width: nat): (r: Bits)
    ensures |r| == width
  {
    if width == 0 then [] else BitsOf(v / 2, width - 1) + [v % 2 == 1]
  }

  function ToBits(key: Bytes): (r: Bits)
    ensures |r| == 8 * |key|
  {
    if |key| == 0 then [] else BitsOf(key[0], 8) + ToBits(key[1..])
  }

  /** Byte order of keys, as `Ord` for byte vectors defines it. */
  predicate Less(a: Bytes, b: Bytes) {
    |b| != 0 && (|a| == 0 || a[0] < b[0] || (a[0] == b[0] && Less(a[1..], b[1..])))
  }

  function Pow2(n: nat): (r: nat)
    ensures r > 0
  {
    if n == 0 then 1 else 2 * Pow2(n - 1)
  }

  lemma BitsOfInjective(a: nat, b: nat, width: nat)
    requires a < Pow2(width) && b < Pow2(width)
    requires BitsOf(a, width) == BitsOf(b, width)
    ensures a == b
  {
    if width > 0 {
      var x, y := BitsOf(a, width), BitsOf(b, width);
      assert BitsOf(a / 2, width - 1) == x[..width - 1] == y[..width - 1] == BitsOf(b / 2, width - 1);
      assert x[width - 1] == y[width - 1];
      BitsOfInjective(a / 2, b / 2, width - 1);
    }
  }

  /** Appending one bit to equally long strings refines their order. */
  lemma BitLessAppend(x: Bits, y: Bits, p: bool, q: bool)
    requires |x| == |y|
    ensures BitLess(x + [p], y + [q]) <==> BitLess(x, y) || (x == y && !p && q)
  {
    var n := CommonPrefix(x, y);
    if n == |x| {
      assert x == x[..n] == y[..n] == y;
      var m := if p == q then n + 1 else n;
      assert (x + [p])[..n] == x && (y + [q])[..n] == y;
      CommonPrefixUnique(x + [p], y + [q], m);
    } else {
      assert (x + [p])[..n] == x[..n] && (y + [q])[..n] == y[..n];
      CommonPrefixUnique(x + [p], y + [q], n);
    }
  }

  lemma BitsOfOrder(a: nat, b: nat, width: nat)
    requires a < Pow2(width) && b < Pow2(width)
    ensures a < b <==> BitLess(BitsOf(a, width), BitsOf(b, width))
  {
    if width > 0 {
      BitsOfOrder(a / 2, b / 2, width - 1);
      var x, y := BitsOf(a / 2, width - 1), BitsOf(b / 2, width - 1);
      BitLessAppend(x, y, a % 2 == 1, b % 2 == 1);
      if x == y {
        BitsOfInjective(a / 2, b / 2, width - 1);
      }
    }
  }

  lemma Pow2Byte()
    ensures Pow2(8) == 256
  {
    assert Pow2(4) == 16;
  }

  lemma ToBitsAppend(a: Bytes, b: Bytes)
    ensures ToBits(a + b) == ToBits(a) + ToBits(b)
  {
    if |a| == 0 {
      assert a + b == b;
    } else {
      ToBitsAppend(a[1..], b);
      assert (a + b)[1..] == a[1..] + b;
    }
  }

  lemma HeadOfToBits(a: Bytes)
    requires |a| > 0
    ensures ToBits(a)[..8] == BitsOf(a[0], 8) && ToBits(a)[8..] == ToBits(a[1..])
  {
  }

  /** Bit prefixes of whole keys are byte prefixes. */
  lemma {:induction false} PrefixIsBytePrefix(a: Bytes, b: Bytes)
    ensures ToBits(a) <= ToBits(b) <==> a <= b
  {
    if |a| > 0 && |b| > 0 {
      HeadOfToBits(a);
      HeadOfToBits(b);
      PrefixIsBytePrefix(a[1..], b[1..]);
      var x, y := ToBits(a), ToBits(b);
      assert x <= y <==> x[..8] == y[..8] && x[8..] <= y[8..];
      assert a <= b <==> a[0] == b[0] && a[1..] <= b[1..];
      Pow2Byte();
      if x[..8] == y[..8] {
        BitsOfInjective(a[0], b[0], 8);
      }
    }
  }

  lemma ToBitsInjective(a: Bytes, b: Bytes)
    requires ToBits(a) == ToBits(b)
    ensures a == b
  {
    PrefixIsBytePrefix(a, b);
    PrefixIsBytePrefix(b, a);
  }

  lemma BitLessHead(p: Bits, a: Bits, b: Bits)
    ensures BitLess(p + a, p + b) <==> BitLess(a, b)
  {
    var n := CommonPrefix(a, b);
    assert (p + a)[..|p| + n] == p + a[..n] == p + b[..n] == (p + b)[..|p| + n];
    CommonPrefixUnique(p + a, p + b, |p| + n);
  }

  /** Strings whose equally long heads differ are ordered by those heads. */
  lemma BitLessByHead(x: Bits, y: Bits, a: Bits, b: Bits)
    requires |x| == |y| && x != y
    ensures BitLess(x + a, y + b) <==> BitLess(x, y)
  {
    var n := CommonPrefix(x, y);
    assert n < |x| by {
      assert x[..|x|] == x && y[..|y|] == y;
    }
    assert (x + a)[..n] == x[..n] == y[..n] == (y + b)[..n];
    CommonPrefixUnique(x + a, y + b, n);
  }

  /** Byte order of keys is bit order: the trie's left-to-right order. */
  lemma {:induction false} LessIsBitLess(a: Bytes, b: Bytes)
    ensures Less(a, b) <==> BitLess(ToBits(a), ToBits(b))
  {
    if |a| > 0 && |b| > 0 {
      var x, y := BitsOf(a[0], 8), BitsOf(b[0], 8);
      Pow2Byte();
      if a[0] == b[0] {
        LessIsBitLess(a[1..], b[1..]);
        BitLessHead(x, ToBits(a[1..]), ToBits(b[1..]));
      } else {
        if x == y {
          BitsOfInjective(a[0], b[0], 8);
        }
        BitsOfOrder(a[0], b[0], 8);
        BitLessByHead(x, y, ToBits(a[1..]), ToBits(b[1..]));
      }
    }
  }
}
