/**
 The byte-level bit helpers of the trie: testing one bit, counting common bits,
 and masking a prefix to whole bytes. Each is tied to the bit string it stands for.
 */
module PrefixBytes {
  import opened BitStrings
  import opened KeyBits

  function BitLen(key: Bytes): nat {
    8 * |key|
  }

  /** `v` shifted right by `n` bits. */
  function ShiftRight(v: nat, n: nat): nat {
    if n == 0 then v else ShiftRight(v / 2, n - 1)
  }

  /** Testing a byte against the mask 0x80 shifted right by `bit % 8`. */
  predicate KeyBit(key: Bytes, bit: nat)
    requires bit < BitLen(key)
  {
    ShiftRight(key[bit / 8], 7 - bit % 8) % 2 == 1
  }

  function FirstDifference(a: Bytes, b: Bytes, from: nat, limit: nat): nat
    requires from <= limit <= BitLen(a) && limit <= BitLen(b)
    decreases limit - from
  {
    if from == limit || KeyBit(a, from) != KeyBit(b, from) then from
    else FirstDifference(a, b, from + 1, limit)
  }

  function Least(a: nat, b: nat): nat {
    if a <= b then a else b
  }

  function CommonPrefixBits(a: Bytes, b: Bytes, limit: nat): nat {
    FirstDifference(a, b, 0, Least(limit, Least(BitLen(a), BitLen(b))))
  }

  predicate PrefixMatches(key: Bytes, prefix: Bytes, bits: nat) {
    BitLen(key) >= bits && BitLen(prefix) >= bits && CommonPrefixBits(key, prefix, bits) == bits
  }

  function BytesFor(bits: nat): nat {
    (bits + 7) / 8
  }

  /** `v` with its `n` low bits cleared, as masking with 0xff shifted left by `n` does. */
  function ClearLow(v: nat, n: nat): (w: nat)
    ensures w <= v
  {
    if n == 0 then v else 2 * ClearLow(v / 2, n - 1)
  }

  /** The bytes of the first `bits` bits, unused low bits of the last byte cleared. */
  function MaskedPrefix(key: Bytes, bits: nat): Bytes {
    var n := Least(BytesFor(bits), |key|);
    if bits % 8 == 0 || n == 0 then key[..n]
    else key[..n - 1] + [ClearLow(key[n - 1], 8 - bits % 8)]
  }

  // ----- what the helpers mean -----

  lemma BitOfNumber(v: nat, width: nat, bit: nat)
    requires bit < width
    ensures BitsOf(v, width)[bit] <==> ShiftRight(v, width - 1 - bit) % 2 == 1
  {
  }

  lemma {:induction false} KeyBitIs(key: Bytes, bit: nat)
    requires bit < BitLen(key)
    ensures KeyBit(key, bit) <==> ToBits(key)[bit]
  {
    if bit < 8 {
      BitOfNumber(key[0], 8, bit);
    } else {
      KeyBitIs(key[1..], bit - 8);
      assert ToBits(key)[bit] == ToBits(key[1..])[bit - 8];
      assert (bit - 8) / 8 == bit / 8 - 1 && (bit - 8) % 8 == bit % 8;
    }
  }

  lemma {:induction false} FirstDifferenceIs(a: Bytes, b: Bytes, from: nat, limit: nat)
    requires from <= limit <= BitLen(a) && limit <= BitLen(b)
    requires ToBits(a)[..from] == ToBits(b)[..from]
    ensures FirstDifference(a, b, from, limit) == Least(limit, CommonPrefix(ToBits(a), ToBits(b)))
    decreases limit - from
  {
    var x, y := ToBits(a), ToBits(b);
    SharedWithinCommon(x, y, x[..from]);
    if from < limit {
      KeyBitIs(a, from);
      KeyBitIs(b, from);
      if x[from] == y[from] {
        assert x[..from + 1] == x[..from] + [x[from]] == y[..from + 1];
        FirstDifferenceIs(a, b, from + 1, limit);
      } else {
        CommonPrefixUnique(x, y, from);
      }
    }
  }

  /** Counting equal bits of byte strings finds the common bit prefix, up to the limit. */
  lemma CommonPrefixBitsIs(a: Bytes, b: Bytes, limit: nat)
    ensures CommonPrefixBits(a, b, limit) == Least(limit, CommonPrefix(ToBits(a), ToBits(b)))
  {
    FirstDifferenceIs(a, b, 0, Least(limit, Least(BitLen(a), BitLen(b))));
  }

  lemma PrefixMatchesIs(key: Bytes, prefix: Bytes, bits: nat)
    ensures PrefixMatches(key, prefix, bits) <==>
      bits <= BitLen(key) && bits <= BitLen(prefix) && ToBits(key)[..bits] == ToBits(prefix)[..bits]
  {
    var x, y := ToBits(key), ToBits(prefix);
    if bits <= |x| && bits <= |y| {
      CommonPrefixBitsIs(key, prefix, bits);
      var n := CommonPrefix(x, y);
      if x[..bits] == y[..bits] {
        SharedWithinCommon(x, y, x[..bits]);
      }
      if bits <= n {
        assert x[..bits] == x[..n][..bits] == y[..n][..bits] == y[..bits];
      }
    }
  }

  // ----- bit strings as bytes -----

  function ValueOf(bits: Bits): (v: nat)
    ensures v < Pow2(|bits|)
  {
    if |bits| == 0 then 0
    else 2 * ValueOf(bits[..|bits| - 1]) + if bits[|bits| - 1] then 1 else 0
  }

  lemma {:induction false} BitsOfValue(bits: Bits)
    ensures BitsOf(ValueOf(bits), |bits|) == bits
  {
    if |bits| > 0 {
      var front, last := bits[..|bits| - 1], bits[|bits| - 1];
      BitsOfValue(front);
      assert ValueOf(bits) / 2 == ValueOf(front);
      assert bits == front + [last];
    }
  }

  function Zeros(n: nat): Bits {
    seq(n, _ => false)
  }

  function PackByte(bits: Bits): Byte
    requires |bits| <= 8
  {
    Pow2Byte();
    ValueOf(bits + Zeros(8 - |bits|))
  }

  /** A bit string as bytes, the last one padded with zero bits. */
  function Pack(bits: Bits): Bytes {
    if |bits| == 0 then []
    else if |bits| <= 8 then [PackByte(bits)]
    else [PackByte(bits[..8])] + Pack(bits[8..])
  }

  lemma {:induction false} PackSpells(bits: Bits)
    ensures |Pack(bits)| == BytesFor(|bits|)
    ensures ToBits(Pack(bits)) == bits + Zeros(8 * BytesFor(|bits|) - |bits|)
  {
    if |bits| == 0 {
    } else if |bits| <= 8 {
      BitsOfValue(bits + Zeros(8 - |bits|));
      assert Pack(bits)[1..] == [];
    } else {
      PackSpells(bits[8..]);
      BitsOfValue(bits[..8] + Zeros(0));
      assert bits[..8] + Zeros(0) == bits[..8];
      assert Pack(bits)[1..] == Pack(bits[8..]);
      assert bits == bits[..8] + bits[8..];
    }
  }

  lemma PackInjective(a: Bits, b: Bits)
    requires |a| == |b| && Pack(a) == Pack(b)
    ensures a == b
  {
    PackSpells(a);
    PackSpells(b);
    assert a == ToBits(Pack(a))[..|a|] && b == ToBits(Pack(b))[..|b|];
  }

  lemma PackOfKey(key: Bytes)
    ensures Pack(ToBits(key)) == key
  {
    PackSpells(ToBits(key));
    assert ToBits(key) + Zeros(0) == ToBits(key);
    ToBitsInjective(Pack(ToBits(key)), key);
  }

  lemma ClearLowSpells(v: nat, width: nat, n: nat)
    requires n <= width
    ensures BitsOf(ClearLow(v, n), width) == BitsOf(v, width)[..width - n] + Zeros(n)
  {
  }

  lemma PackHead(v: Byte, rest: Bits)
    ensures Pack(BitsOf(v, 8) + rest) == [v] + Pack(rest)
  {
    var b := BitsOf(v, 8);
    BitsOfValue(b + Zeros(0));
    assert b + Zeros(0) == b;
    Pow2Byte();
    BitsOfInjective(v, ValueOf(b), 8);
    assert (b + rest)[..8] == b && (b + rest)[8..] == rest;
    if |rest| == 0 {
      assert b + rest == b;
    }
  }

  lemma {:induction false} PackAppend(head: Bytes, rest: Bits)
    ensures Pack(ToBits(head) + rest) == head + Pack(rest)
  {
    hide Pack, BitsOf;
    if |head| == 0 {
      assert ToBits(head) + rest == rest;
      assert head + Pack(rest) == Pack(rest);
    } else {
      var front, back := BitsOf(head[0], 8), ToBits(head[1..]);
      assert ToBits(head) + rest == front + (back + rest);
      PackHead(head[0], back + rest);
      PackAppend(head[1..], rest);
      assert [head[0]] + (head[1..] + Pack(rest)) == head + Pack(rest);
    }
  }

  lemma OneByte(v: Byte, keep: nat)
    requires 0 < keep < 8
    ensures Pack(BitsOf(v, 8)[..keep]) == [ClearLow(v, 8 - keep)]
  {
    ClearLowSpells(v, 8, 8 - keep);
    var w := ClearLow(v, 8 - keep);
    var b := BitsOf(v, 8)[..keep];
    BitsOfValue(b + Zeros(8 - keep));
    Pow2Byte();
    BitsOfInjective(w, ValueOf(b + Zeros(8 - keep)), 8);
  }

  lemma BitsAtByte(key: Bytes, n: nat)
    requires n < |key|
    ensures ToBits(key)[..8 * n] == ToBits(key[..n])
    ensures ToBits(key)[8 * n..8 * n + 8] == BitsOf(key[n], 8)
  {
    var a, b := key[..n], key[n..];
    assert key == a + b;
    ToBitsAppend(a, b);
    HeadOfToBits(b);
    assert ToBits(key)[8 * n..8 * n + 8] == ToBits(b)[..8];
  }

  /** Masking a prefix keeps exactly the bits asked for. */
  lemma MaskedPrefixIs(key: Bytes, bits: nat)
    requires bits <= BitLen(key)
    ensures MaskedPrefix(key, bits) == Pack(ToBits(key)[..bits])
  {
    hide BitsOf, ClearLow, Pack;
    var n := bits / 8;
    if bits % 8 == 0 {
      if n < |key| {
        BitsAtByte(key, n);
      } else {
        assert key[..n] == key && ToBits(key)[..bits] == ToBits(key);
      }
      PackOfKey(key[..n]);
    } else {
      MaskedInside(key, n, bits % 8);
    }
  }

  lemma MaskedFrom(key: Bytes, n: nat, keep: nat)
    requires n < |key| && 0 < keep < 8
    ensures MaskedPrefix(key, 8 * n + keep) == key[..n] + [ClearLow(key[n], 8 - keep)]
  {
    hide ClearLow;
    assert BytesFor(8 * n + keep) == n + 1 && (8 * n + keep) % 8 == keep;
  }

  lemma MaskedInside(key: Bytes, n: nat, keep: nat)
    requires n < |key| && 0 < keep < 8
    ensures MaskedPrefix(key, 8 * n + keep) == Pack(ToBits(key)[..8 * n + keep])
  {
    hide ToBits, Pack, BitsOf, ClearLow, MaskedPrefix;
    MaskedFrom(key, n, keep);
    BitsAtByte(key, n);
    assert ToBits(key)[..8 * n + keep] == ToBits(key)[..8 * n] + ToBits(key)[8 * n..8 * n + 8][..keep];
    PackAppend(key[..n], BitsOf(key[n], 8)[..keep]);
    OneByte(key[n], keep);
  }

  /** A prefix passes the canonical-form check exactly when it packs its own bits. */
  lemma CanonicalPrefix(prefix: Bytes, bits: nat)
    requires |prefix| == BytesFor(bits)
    ensures MaskedPrefix(prefix, bits) == prefix <==> prefix == Pack(ToBits(prefix)[..bits])
  {
    MaskedPrefixIs(prefix, bits);
  }
}
