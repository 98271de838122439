/**
 The pack file: a header, an index of digests with offsets and lengths, and the
 payloads end to end.
 */
module PackCodec {
  import opened Wrappers
  import opened KeyBits
  import opened KeyOrder
  import opened BinaryLayout
  import opened SortedRecords
  import opened PackLimits
  import opened PackTiers

  const PACK_MAGIC: Bytes := [84, 73, 78, 69, 80, 80, 75, 0]
  const LEGACY_PACK_SCHEMA_VERSION: nat := 1
  const PACK_SCHEMA_VERSION: nat := 2
  const LEGACY_MAX_PACK_ENTRIES: nat := 4096
  const DIGEST_BYTES: nat := 32

  type Hash = Bytes -> Bytes

  ghost predicate Digests(of: Hash) {
    forall b :: |of(b)| == DIGEST_BYTES
  }

  function Index(es: Pack, offset: nat): Bytes {
    if |es| == 0 then []
    else es[0].key + LittleEndian(4, offset) + LittleEndian(4, |es[0].value|) + Index(es[1..], offset + |es[0].value|)
  }

  function Payloads(es: Pack): Bytes {
    if |es| == 0 then [] else es[0].value + Payloads(es[1..])
  }

  function Header(version: nat, es: Pack): Bytes {
    PACK_MAGIC + LittleEndian(4, version) + LittleEndian(4, |es|) + LittleEndian(4, |Payloads(es)|)
  }

  /** The bytes of a pack file. */
  function Layout(version: nat, es: Pack): Bytes {
    Header(version, es) + Index(es, 0) + Payloads(es)
  }

  function FirstMissized(es: Pack): Option<Bytes> {
    if |es| == 0 then None
    else if |es[0].value| == 0 || |es[0].value| > MAX_PACK_ENTRY_BYTES then Some(es[0].key)
    else FirstMissized(es[1..])
  }

  function FirstMisnamed(of: Hash, es: Pack): Option<Bytes> {
    if |es| == 0 then None else if of(es[0].value) != es[0].key then Some(es[0].key) else FirstMisnamed(of, es[1..])
  }

  /** The bytes of a pack of the current schema, for entries in digest order. */
  function Build(of: Hash, es: Pack): Result<Bytes, PackError> {
    if |es| == 0 then Err(Empty)
    else if |es| > MAX_PACK_ENTRIES then Err(TooManyEntries)
    else if FirstMissized(es).Some? then Err(EntryTooLarge(FirstMissized(es).value))
    else if PACK_HEADER_BYTES + |es| * PACK_INDEX_ENTRY_BYTES + |Payloads(es)| > MAX_PACK_BYTES then Err(PackTooLarge)
    else if FirstMisnamed(of, es).Some? then Err(PathMismatch(FirstMisnamed(of, es).value))
    else Ok(Layout(PACK_SCHEMA_VERSION, es))
  }

  /** One index entry as read from the file. */
  datatype Slot = Slot(digest: Bytes, offset: nat, length: nat)

  function SlotAt(bytes: Bytes, i: nat): Slot
    requires PACK_HEADER_BYTES + (i + 1) * PACK_INDEX_ENTRY_BYTES <= |bytes|
  {
    var at := PACK_HEADER_BYTES + i * PACK_INDEX_ENTRY_BYTES;
    Slot(bytes[at..at + 32], FromLittleEndian(bytes[at + 32..at + 36]), FromLittleEndian(bytes[at + 36..at + 40]))
  }

  /** Reads the index from entry `i`, checking order, contiguity, sizes and digests. */
  function ReadFrom(of: Hash, bytes: Bytes, count: nat, i: nat, expected: nat, prior: Option<Bytes>): Result<Pack, PackError>
    requires i <= count && PACK_HEADER_BYTES + count * PACK_INDEX_ENTRY_BYTES <= |bytes|
    decreases count - i
  {
    var start := PACK_HEADER_BYTES + count * PACK_INDEX_ENTRY_BYTES;
    var payload := |bytes| - start;
    if i == count then (if expected == payload then Ok([]) else Err(Malformed))
    else
      var s := SlotAt(bytes, i);
      if (prior.Some? && !Less(prior.value, s.digest)) || s.offset != expected || s.length == 0 || s.length > MAX_PACK_ENTRY_BYTES
         || s.offset + s.length > payload then Err(Malformed)
      else
        var value := bytes[start + s.offset..start + s.offset + s.length];
        if of(value) != s.digest then Err(PathMismatch(s.digest))
        else match ReadFrom(of, bytes, count, i + 1, s.offset + s.length, Some(s.digest))
          case Err(e) => Err(e)
          case Ok(es) => Ok([Rec(s.digest, value)] + es)
  }

  function MaxEntries(version: nat): nat {
    if version == LEGACY_PACK_SCHEMA_VERSION then LEGACY_MAX_PACK_ENTRIES
    else if version == PACK_SCHEMA_VERSION then MAX_PACK_ENTRIES
    else 0
  }

  function Decode(of: Hash, expected: Bytes, bytes: Bytes): Result<Pack, PackError> {
    if |bytes| > MAX_PACK_BYTES || of(bytes) != expected then Err(PathMismatch(expected))
    else if |bytes| < PACK_HEADER_BYTES || bytes[..8] != PACK_MAGIC then Err(Malformed)
    else
      var version, count := FromLittleEndian(bytes[8..12]), FromLittleEndian(bytes[12..16]);
      if count == 0 || count > MaxEntries(version) then Err(Malformed)
      else if PACK_HEADER_BYTES + count * PACK_INDEX_ENTRY_BYTES + FromLittleEndian(bytes[16..20]) != |bytes| then Err(Malformed)
      else ReadFrom(of, bytes, count, 0, 0, None)
  }

  // ----- which bytes are packs -----

  predicate OwnDigests(of: Hash, es: Pack) {
    forall e :: e in es ==> of(e.value) == e.key
  }

  /** The entries a pack file of each schema may hold. */
  predicate Storable(of: Hash, version: nat, es: Pack) {
    ValidPack(es) && OwnDigests(of, es) && (version == 2 || (version == 1 && |es| <= 4096))
  }

  lemma Fits(v: nat)
    requires v <= MAX_PACK_BYTES
    ensures FromLittleEndian(LittleEndian(4, v)) == v
  {
    Pow256Grows(3, 4);
    assert Pow256(3) == 256 * 256 * 256;
    assert Pow256(4) == 256 * Pow256(3);
    LittleRoundTrip(4, v);
  }

  lemma {:induction false} IndexAt(es: Pack, offset: nat, i: nat)
    requires i < |es| && forall e :: e in es ==> |e.key| == DIGEST_BYTES
    ensures |Index(es, offset)| == 40 * |es|
    ensures Index(es, offset)[40 * i..40 * i + 40]
         == es[i].key + LittleEndian(4, offset + PayloadBytes(es[..i])) + LittleEndian(4, |es[i].value|)
  {
    hide LittleEndian;
    var head := es[0].key + LittleEndian(4, offset) + LittleEndian(4, |es[0].value|);
    assert es[0] in es;
    var rest := Index(es[1..], offset + |es[0].value|);
    if i == 0 {
      assert es[..0] == [];
      IndexLength(es[1..], offset + |es[0].value|);
    } else {
      IndexAt(es[1..], offset + |es[0].value|, i - 1);
      FirstPayload(es, i);
      assert |head| == 40;
      assert (head + rest)[40 * i..40 * i + 40] == rest[40 * (i - 1)..40 * (i - 1) + 40];
    }
  }

  lemma {:induction false} IndexLength(es: Pack, offset: nat)
    requires forall e :: e in es ==> |e.key| == DIGEST_BYTES
    ensures |Index(es, offset)| == 40 * |es|
  {
    if |es| > 0 {
      assert es[0] in es;
      IndexLength(es[1..], offset + |es[0].value|);
    }
  }

  lemma {:induction false} FirstPayload(es: Pack, i: nat)
    requires 0 < i <= |es|
    ensures PayloadBytes(es[..i]) == |es[0].value| + PayloadBytes(es[1..][..i - 1])
    decreases i
  {
    assert es[..i][..i - 1] == es[..i - 1];
    assert es[1..][..i - 1] == es[1..i];
    if i > 1 {
      FirstPayload(es, i - 1);
      assert es[1..][..i - 1][..i - 2] == es[1..][..i - 2];
    }
  }

  lemma {:induction false} PayloadAt(es: Pack, i: nat)
    requires i < |es|
    ensures var lo := PayloadBytes(es[..i]);
      lo + |es[i].value| <= |Payloads(es)| && Payloads(es)[lo..lo + |es[i].value|] == es[i].value
  {
    if i == 0 {
      assert es[..0] == [];
    } else {
      PayloadAt(es[1..], i - 1);
      FirstPayload(es, i);
      var lo := PayloadBytes(es[1..][..i - 1]);
      assert Payloads(es)[|es[0].value| + lo..|es[0].value| + lo + |es[i].value|] == Payloads(es[1..])[lo..lo + |es[i].value|];
    }
  }

  lemma {:induction false} PayloadLength(es: Pack)
    ensures |Payloads(es)| == PayloadBytes(es)
  {
    if |es| > 0 {
      PayloadLength(es[1..]);
      FirstPayload(es, |es|);
      assert es[..|es|] == es && es[1..][..|es| - 1] == es[1..];
    }
  }

  lemma SliceOfMiddle(b: Bytes, at: nat, x: Bytes, lo: nat, hi: nat)
    requires at + |x| <= |b| && b[at..at + |x|] == x && lo <= hi <= |x|
    ensures b[at + lo..at + hi] == x[lo..hi]
  {
    var y := b[at..at + |x|];
    assert forall k :: 0 <= k < hi - lo ==> b[at + lo..at + hi][k] == y[lo + k] == x[lo..hi][k];
  }

  /** What reading one index entry of built bytes finds. */
  lemma SlotOfBuilt(of: Hash, version: nat, es: Pack, bytes: Bytes, i: nat)
    requires Digests(of) && Storable(of, version, es) && bytes == Layout(version, es) && i < |es|
    ensures PACK_HEADER_BYTES + |es| * PACK_INDEX_ENTRY_BYTES <= |bytes|
    ensures SlotAt(bytes, i) == Slot(es[i].key, PayloadBytes(es[..i]), |es[i].value|)
    ensures var start, lo := PACK_HEADER_BYTES + |es| * PACK_INDEX_ENTRY_BYTES, PayloadBytes(es[..i]);
      && start + lo + |es[i].value| <= |bytes| && bytes[start + lo..start + lo + |es[i].value|] == es[i].value
      && of(es[i].value) == es[i].key && 0 < |es[i].value| <= MAX_PACK_ENTRY_BYTES
  {
    hide LittleEndian, FromLittleEndian, Index, Payloads, PayloadBytes, Ascending;
    assert es[i] in es;
    BuiltLength(of, version, es, bytes);
    KeysAreDigests(of, es);
    var x, p := Index(es, 0), Payloads(es);
    IndexAt(es, 0, i);
    PayloadAt(es, i);
    SliceOfMiddle(bytes, 20, x, 40 * i, 40 * i + 40);
    SliceOfMiddle(bytes, 20 + |x|, p, PayloadBytes(es[..i]), PayloadBytes(es[..i]) + |es[i].value|);
    SlotParts(bytes, i, es[i].key, PayloadBytes(es[..i]), |es[i].value|);
  }

  lemma KeysAreDigests(of: Hash, es: Pack)
    requires Digests(of) && OwnDigests(of, es)
    ensures forall e :: e in es ==> |e.key| == DIGEST_BYTES
  {
  }

  lemma SlotParts(bytes: Bytes, i: nat, key: Bytes, offset: nat, length: nat)
    requires PACK_HEADER_BYTES + (i + 1) * PACK_INDEX_ENTRY_BYTES <= |bytes| && |key| == DIGEST_BYTES
    requires offset <= MAX_PACK_BYTES && length <= MAX_PACK_BYTES
    requires bytes[20 + 40 * i..20 + 40 * i + 40] == key + LittleEndian(4, offset) + LittleEndian(4, length)
    ensures SlotAt(bytes, i) == Slot(key, offset, length)
  {
    hide LittleEndian, FromLittleEndian;
    var at := 20 + 40 * i;
    var x := key + LittleEndian(4, offset) + LittleEndian(4, length);
    SliceOfMiddle(bytes, at, x, 0, 32);
    SliceOfMiddle(bytes, at, x, 32, 36);
    SliceOfMiddle(bytes, at, x, 36, 40);
    assert x[0..32] == key && x[32..36] == LittleEndian(4, offset) && x[36..40] == LittleEndian(4, length);
    Fits(offset);
    Fits(length);
  }

  /** One step of reading, when the entry passes its checks. */
  lemma ReadStep(of: Hash, bytes: Bytes, count: nat, i: nat, expected: nat, prior: Option<Bytes>, e: Entry)
    requires i < count && PACK_HEADER_BYTES + count * PACK_INDEX_ENTRY_BYTES <= |bytes|
    requires SlotAt(bytes, i) == Slot(e.key, expected, |e.value|)
    requires var start := PACK_HEADER_BYTES + count * PACK_INDEX_ENTRY_BYTES;
      start + expected + |e.value| <= |bytes| && bytes[start + expected..start + expected + |e.value|] == e.value
    requires (prior.Some? ==> Less(prior.value, e.key)) && 0 < |e.value| <= MAX_PACK_ENTRY_BYTES && of(e.value) == e.key
    ensures var rest := ReadFrom(of, bytes, count, i + 1, expected + |e.value|, Some(e.key));
      ReadFrom(of, bytes, count, i, expected, prior) == if rest.Ok? then Ok([e] + rest.value) else rest
  {
  }

  function PriorOf(es: Pack, i: nat): Option<Bytes>
    requires i <= |es|
  {
    if i == 0 then None else Some(es[i - 1].key)
  }

  lemma {:induction false} ReadsBuilt(of: Hash, version: nat, es: Pack, bytes: Bytes, i: nat)
    requires Digests(of) && Storable(of, version, es) && bytes == Layout(version, es) && i <= |es|
    ensures PACK_HEADER_BYTES + |es| * PACK_INDEX_ENTRY_BYTES <= |bytes|
    ensures ReadFrom(of, bytes, |es|, i, PayloadBytes(es[..i]), PriorOf(es, i)) == Ok(es[i..])
    decreases |es| - i
  {
    hide Layout, Less, SlotAt, PayloadBytes, ReadFrom, Ascending;
    BuiltLength(of, version, es, bytes);
    if i < |es| {
      SlotOfBuilt(of, version, es, bytes, i);
      PriorBelow(es, i);
      ReadStep(of, bytes, |es|, i, PayloadBytes(es[..i]), PriorOf(es, i), es[i]);
      ReadsBuilt(of, version, es, bytes, i + 1);
      PayloadGrows(es[..i], es[i]);
      assert es[..i + 1] == es[..i] + [es[i]];
      assert es[i..] == [es[i]] + es[i + 1..];
    } else {
      assert es[..i] == es && es[i..] == [];
      ReadEnd(of, bytes, |es|, PayloadBytes(es), PriorOf(es, i));
    }
  }

  lemma PriorBelow(es: Pack, i: nat)
    requires Ascending(es) && i < |es|
    ensures PriorOf(es, i).Some? ==> Less(PriorOf(es, i).value, es[i].key)
  {
  }

  lemma ReadEnd(of: Hash, bytes: Bytes, count: nat, expected: nat, prior: Option<Bytes>)
    requires PACK_HEADER_BYTES + count * PACK_INDEX_ENTRY_BYTES + expected == |bytes|
    ensures ReadFrom(of, bytes, count, count, expected, prior) == Ok([])
  {
  }

  lemma BuiltLength(of: Hash, version: nat, es: Pack, bytes: Bytes)
    requires Digests(of) && Storable(of, version, es) && bytes == Layout(version, es)
    ensures |bytes| == PACK_HEADER_BYTES + |es| * PACK_INDEX_ENTRY_BYTES + PayloadBytes(es) <= MAX_PACK_BYTES
    ensures |Payloads(es)| == PayloadBytes(es)
  {
    hide LittleEndian, Index, Payloads, Ascending;
    KeysAreDigests(of, es);
    IndexLength(es, 0);
    PayloadLength(es);
  }

  /** Decoding the bytes of storable entries, of the legacy schema too, gives the entries back. */
  lemma DecodeLayout(of: Hash, version: nat, es: Pack)
    requires Digests(of) && Storable(of, version, es)
    ensures var bytes := Layout(version, es); Decode(of, of(bytes), bytes) == Ok(es)
  {
    hide LittleEndian, FromLittleEndian, Index, Payloads, Less, ReadFrom, Ascending;
    var bytes := Layout(version, es);
    BuiltLength(of, version, es, bytes);
    CountBoundIsImplied(es);
    HeaderFields(version, es, bytes);
    ReadsBuilt(of, version, es, bytes, 0);
    assert es[..0] == [] && es[0..] == es;
    assert PayloadBytes([]) == 0 && PriorOf(es, 0) == None;
  }

  lemma HeaderFields(version: nat, es: Pack, bytes: Bytes)
    requires |bytes| >= 20 && bytes[..20] == Header(version, es) && version <= 2 && |es| <= MAX_PACK_ENTRIES && |Payloads(es)| <= MAX_PACK_BYTES
    ensures bytes[..8] == PACK_MAGIC && FromLittleEndian(bytes[8..12]) == version
    ensures FromLittleEndian(bytes[12..16]) == |es| && FromLittleEndian(bytes[16..20]) == |Payloads(es)|
  {
    hide LittleEndian, FromLittleEndian, Payloads;
    var h := Header(version, es);
    assert bytes[0..20] == h;
    SliceOfMiddle(bytes, 0, h, 0, 8);
    SliceOfMiddle(bytes, 0, h, 8, 12);
    SliceOfMiddle(bytes, 0, h, 12, 16);
    SliceOfMiddle(bytes, 0, h, 16, 20);
    assert h[0..8] == PACK_MAGIC && h[8..12] == LittleEndian(4, version);
    assert h[12..16] == LittleEndian(4, |es|) && h[16..20] == LittleEndian(4, |Payloads(es)|);
    Fits(version);
    Fits(|es|);
    Fits(|Payloads(es)|);
  }

  /** The index and payloads of these entries are what the file holds from entry `i` on. */
  ghost predicate Laid(of: Hash, bytes: Bytes, count: nat, i: nat, expected: nat, prior: Option<Bytes>, es: Pack)
    requires i <= count && PACK_HEADER_BYTES + count * PACK_INDEX_ENTRY_BYTES <= |bytes|
  {
    var start := PACK_HEADER_BYTES + count * PACK_INDEX_ENTRY_BYTES;
    && |es| == count - i && start + expected <= |bytes|
    && bytes[PACK_HEADER_BYTES + i * PACK_INDEX_ENTRY_BYTES..start] == Index(es, expected)
    && bytes[start + expected..] == Payloads(es)
    && (forall e :: e in es ==> 0 < |e.value| <= MAX_PACK_ENTRY_BYTES && of(e.value) == e.key)
    && Ascending(es) && (|es| > 0 && prior.Some? ==> Less(prior.value, es[0].key))
  }

  lemma LaidStep(of: Hash, bytes: Bytes, count: nat, i: nat, expected: nat, prior: Option<Bytes>, e: Entry, rest: Pack)
    requires i < count && PACK_HEADER_BYTES + count * PACK_INDEX_ENTRY_BYTES <= |bytes| && Digests(of)
    requires SlotAt(bytes, i) == Slot(e.key, expected, |e.value|)
    requires var start := PACK_HEADER_BYTES + count * PACK_INDEX_ENTRY_BYTES;
      start + expected + |e.value| <= |bytes| && bytes[start + expected..start + expected + |e.value|] == e.value
    requires (prior.Some? ==> Less(prior.value, e.key)) && 0 < |e.value| <= MAX_PACK_ENTRY_BYTES && of(e.value) == e.key
    requires Laid(of, bytes, count, i + 1, expected + |e.value|, Some(e.key), rest)
    ensures Laid(of, bytes, count, i, expected, prior, [e] + rest)
  {
    hide LittleEndian, FromLittleEndian, Less, SlotAt, Ascending;
    var start, at := PACK_HEADER_BYTES + count * PACK_INDEX_ENTRY_BYTES, PACK_HEADER_BYTES + i * PACK_INDEX_ENTRY_BYTES;
    SlotRestores(bytes, i);
    assert ([e] + rest)[1..] == rest;
    assert |e.key| == DIGEST_BYTES;
    AscendingCons(e, rest);
    assert bytes[at..start] == bytes[at..at + 40] + bytes[at + 40..start];
    assert bytes[start + expected..] == e.value + bytes[start + expected + |e.value|..];
  }

  /** What a read says of the bytes it read: they are the index and the payloads of its entries. */
  lemma {:induction false} ReadRestores(of: Hash, bytes: Bytes, count: nat, i: nat, expected: nat, prior: Option<Bytes>)
    requires i <= count && PACK_HEADER_BYTES + count * PACK_INDEX_ENTRY_BYTES <= |bytes| && Digests(of)
    requires ReadFrom(of, bytes, count, i, expected, prior).Ok?
    ensures Laid(of, bytes, count, i, expected, prior, ReadFrom(of, bytes, count, i, expected, prior).value)
    decreases count - i
  {
    hide LittleEndian, FromLittleEndian, Less, Ascending, Laid;
    var start := PACK_HEADER_BYTES + count * PACK_INDEX_ENTRY_BYTES;
    if i < count {
      var s := SlotAt(bytes, i);
      var e := Rec(s.digest, bytes[start + s.offset..start + s.offset + s.length]);
      ReadRestores(of, bytes, count, i + 1, s.offset + s.length, Some(s.digest));
      LaidStep(of, bytes, count, i, expected, prior, e, ReadFrom(of, bytes, count, i + 1, s.offset + s.length, Some(s.digest)).value);
    } else {
      LaidEnd(of, bytes, count, expected, prior);
    }
  }

  lemma LaidEnd(of: Hash, bytes: Bytes, count: nat, expected: nat, prior: Option<Bytes>)
    requires PACK_HEADER_BYTES + count * PACK_INDEX_ENTRY_BYTES + expected == |bytes|
    ensures Laid(of, bytes, count, count, expected, prior, [])
  {
  }

  lemma SlotRestores(bytes: Bytes, i: nat)
    requires PACK_HEADER_BYTES + (i + 1) * PACK_INDEX_ENTRY_BYTES <= |bytes|
    ensures var s, at := SlotAt(bytes, i), PACK_HEADER_BYTES + i * PACK_INDEX_ENTRY_BYTES;
      bytes[at..at + 40] == s.digest + LittleEndian(4, s.offset) + LittleEndian(4, s.length) && |s.digest| == DIGEST_BYTES
  {
    hide LittleEndian, FromLittleEndian;
    var at := PACK_HEADER_BYTES + i * PACK_INDEX_ENTRY_BYTES;
    LittleRestored(bytes[at + 32..at + 36]);
    LittleRestored(bytes[at + 36..at + 40]);
    assert bytes[at..at + 40] == bytes[at..at + 32] + bytes[at + 32..at + 36] + bytes[at + 36..at + 40];
  }

  /** What is accepted is the bytes of its entries, under their digest. */
  lemma DecodedIsLayout(of: Hash, expected: Bytes, bytes: Bytes)
    requires Digests(of) && Decode(of, expected, bytes).Ok?
    ensures var version, es := FromLittleEndian(bytes[8..12]), Decode(of, expected, bytes).value;
      Storable(of, version, es) && bytes == Layout(version, es) && expected == of(bytes)
  {
    hide LittleEndian, FromLittleEndian, Less, SlotAt, Ascending, ReadFrom, Index, Payloads;
    var version, count := FromLittleEndian(bytes[8..12]), FromLittleEndian(bytes[12..16]);
    ReadRestores(of, bytes, count, 0, 0, None);
    var es := Decode(of, expected, bytes).value;
    var start := PACK_HEADER_BYTES + count * PACK_INDEX_ENTRY_BYTES;
    HeaderRestored(version, es, bytes);
    assert bytes == bytes[..20] + bytes[20..start] + bytes[start..];
    PayloadLength(es);
    KeysAreDigests(of, es);
  }

  lemma HeaderRestored(version: nat, es: Pack, bytes: Bytes)
    requires |bytes| >= 20 && bytes[..8] == PACK_MAGIC && FromLittleEndian(bytes[8..12]) == version
    requires FromLittleEndian(bytes[12..16]) == |es| && FromLittleEndian(bytes[16..20]) == |Payloads(es)|
    ensures Header(version, es) == bytes[..20]
  {
    hide LittleEndian, FromLittleEndian, Payloads;
    LittleRestored(bytes[8..12]);
    LittleRestored(bytes[12..16]);
    LittleRestored(bytes[16..20]);
    assert bytes[..20] == bytes[..8] + bytes[8..12] + bytes[12..16] + bytes[16..20];
  }

  /**
   Decoding succeeds exactly on the bytes of storable entries of either schema under their
   own digest, and gives those entries.
   */
  lemma DecodeIs(of: Hash, expected: Bytes, bytes: Bytes, es: Pack)
    requires Digests(of)
    ensures Decode(of, expected, bytes) == Ok(es) <==>
      expected == of(bytes) && exists version :: Storable(of, version, es) && bytes == Layout(version, es)
  {
    hide Decode, Layout, Storable;
    if Decode(of, expected, bytes).Ok? {
      DecodedIsLayout(of, expected, bytes);
    }
    if version :| Storable(of, version, es) && bytes == Layout(version, es) {
      DecodeLayout(of, version, es);
    }
  }

  lemma {:induction false} NoneMissized(es: Pack)
    ensures FirstMissized(es).None? <==> forall e :: e in es ==> 0 < |e.value| <= MAX_PACK_ENTRY_BYTES
  {
    if |es| > 0 {
      NoneMissized(es[1..]);
      assert es == [es[0]] + es[1..];
    }
  }

  lemma {:induction false} NoneMisnamed(of: Hash, es: Pack)
    ensures FirstMisnamed(of, es).None? <==> OwnDigests(of, es)
  {
    if |es| > 0 {
      NoneMisnamed(of, es[1..]);
      assert es == [es[0]] + es[1..];
    }
  }

  /** Building succeeds exactly on valid packs of entries under their own digests. */
  lemma BuildIs(of: Hash, es: Pack)
    requires Digests(of) && Ascending(es)
    ensures Build(of, es).Ok? <==> ValidPack(es) && OwnDigests(of, es)
    ensures Build(of, es).Ok? ==> Build(of, es).value == Layout(2, es)
  {
    hide Ascending, Layout, Payloads, FirstMissized, FirstMisnamed;
    NoneMissized(es);
    NoneMisnamed(of, es);
    PayloadLength(es);
    if ValidPack(es) {
      CountBoundIsImplied(es);
    }
    if OwnDigests(of, es) {
      KeysAreDigests(of, es);
    }
  }

  /** Decoding a built pack gives its entries back. */
  lemma DecodeBuilt(of: Hash, es: Pack)
    requires Digests(of) && ValidPack(es) && OwnDigests(of, es)
    ensures Build(of, es).Ok?
    ensures var bytes := Build(of, es).value; Decode(of, of(bytes), bytes) == Ok(es)
  {
    hide Build, Decode, Layout;
    BuildIs(of, es);
    DecodeLayout(of, 2, es);
  }

  /** Accepted bytes of the current schema are exactly what building their entries produces. */
  lemma BuildDecoded(of: Hash, expected: Bytes, bytes: Bytes)
    requires Digests(of) && Decode(of, expected, bytes).Ok? && FromLittleEndian(bytes[8..12]) == PACK_SCHEMA_VERSION
    ensures Build(of, Decode(of, expected, bytes).value) == Ok(bytes)
  {
    hide Build, Decode, Layout, Ascending, ValidEntries, OwnDigests;
    DecodedIsLayout(of, expected, bytes);
    BuildIs(of, Decode(of, expected, bytes).value);
  }

  /** Binary search through the index of a pack's bytes finds exactly what the pack maps. */
  method Find(of: Hash, expected: Bytes, bytes: Bytes, ghost es: Pack, digest: Bytes) returns (found: Option<Bytes>)
    requires Digests(of) && Decode(of, expected, bytes) == Ok(es)
    ensures found == if digest in RecMap(es) then Some(RecMap(es)[digest]) else None
  {
    hide Less, SlotAt, Ascending, ReadFrom, Layout, RecMap, PayloadBytes, FromLittleEndian;
    DecodedIsLayout(of, expected, bytes);
    ghost var version := FromLittleEndian(bytes[8..12]);
    BuiltLength(of, version, es, bytes);
    DecodedCount(of, version, es, bytes);
    var count := FromLittleEndian(bytes[12..16]);
    var start := PACK_HEADER_BYTES + count * PACK_INDEX_ENTRY_BYTES;
    var low, high := 0, count;
    KeysOrdered(es);
    while low < high
      invariant 0 <= low <= high <= count
      invariant forall i :: 0 <= i < low ==> Less(es[i].key, digest)
      invariant forall i :: high <= i < count ==> Less(digest, es[i].key)
    {
      var middle := low + (high - low) / 2;
      SlotOfBuilt(of, version, es, bytes, middle);
      var s := SlotAt(bytes, middle);
      Trichotomy(s.digest, digest);
      if s.digest == digest {
        RecMapAt(es, middle);
        return Some(bytes[start + s.offset..start + s.offset + s.length]);
      }
      if Less(s.digest, digest) {
        forall i | low <= i < middle ensures Less(es[i].key, digest) {
          Transitive(KeysOf(es)[i], KeysOf(es)[middle], digest);
        }
        low := middle + 1;
      } else {
        forall i | middle < i < high ensures Less(digest, es[i].key) {
          Transitive(digest, KeysOf(es)[middle], KeysOf(es)[i]);
        }
        high := middle;
      }
    }
    if digest in RecMap(es) {
      SomewhereInside(es, digest, low);
    }
    return None;
  }

  lemma DecodedCount(of: Hash, version: nat, es: Pack, bytes: Bytes)
    requires Digests(of) && Storable(of, version, es) && bytes == Layout(version, es) && |bytes| >= 20
    ensures FromLittleEndian(bytes[12..16]) == |es|
  {
    hide LittleEndian, FromLittleEndian, Index, Payloads, Ascending;
    BuiltLength(of, version, es, bytes);
    CountBoundIsImplied(es);
    HeaderFields(version, es, bytes);
  }

  lemma SomewhereInside(es: Pack, digest: Bytes, low: nat)
    requires digest in RecMap(es) && low <= |es|
    ensures !((forall i :: 0 <= i < low ==> Less(es[i].key, digest)) && (forall i :: low <= i < |es| ==> Less(digest, es[i].key)))
  {
    hide Less;
    var i := RecMapKey(es, digest);
    Irreflexive(digest);
  }
}
