/**
 The two fixed records of the second journal protocol: the segment header that
 names a generation, and the frontier that alone says what is committed.
 */
module FrontierCodec {
  import opened Wrappers
  import opened KeyBits
  import opened BinaryLayout
  import opened JournalFrame
  import opened JournalV1

  const SEGMENT_MAGIC: Bytes := [84, 73, 78, 69, 74, 78, 76, 50]
  const FRONTIER_MAGIC: Bytes := [84, 73, 78, 69, 70, 82, 84, 50]
  const PROTOCOL_VERSION: nat := 2
  const HEADER_BYTES: nat := 136
  const FRONTIER_BYTES: nat := 240
  const HEADER_WIDTHS: seq<nat> := [8, 4, 4, 16, 32, 16, 8, 16]
  const FRONTIER_WIDTHS: seq<nat> := [8, 4, 4, 16, 32, 16, 8, 8, 8, 1, 7, 8, 8, 32, 32, 16]

  datatype SegmentHeader = SegmentHeader(id: Bytes, nameDigest: Bytes, device: Bytes, base: nat)

  datatype Terminal = Terminal(sequence: nat, length: nat, digest: Bytes)

  datatype Frontier = Frontier(header: SegmentHeader, next: nat, extent: nat, terminal: Option<Terminal>, predecessor: Bytes)

  predicate SizedHeader(h: SegmentHeader) {
    |h.id| == 16 && |h.nameDigest| == 32 && |h.device| == 16 && h.base < SEQUENCES
  }

  predicate SizedFrontier(f: Frontier) {
    && SizedHeader(f.header) && f.next < SEQUENCES && f.extent < SEQUENCES && |f.predecessor| == 32
    && (f.terminal.Some? ==>
        f.terminal.value.sequence < SEQUENCES && f.terminal.value.length < SEQUENCES && |f.terminal.value.digest| == 32)
  }

  function HeaderFields(h: SegmentHeader): seq<Bytes> {
    [SEGMENT_MAGIC, BigEndian(4, PROTOCOL_VERSION), Blank(4), h.id, h.nameDigest, h.device, BigEndian(8, h.base), Blank(16)]
  }

  function FrontierFields(f: Frontier): seq<Bytes> {
    var t := if f.terminal.Some? then f.terminal.value else Terminal(0, 0, Blank(32));
    [FRONTIER_MAGIC, BigEndian(4, PROTOCOL_VERSION), Blank(4), f.header.id, f.header.nameDigest, f.header.device,
     BigEndian(8, f.header.base), BigEndian(8, f.next), BigEndian(8, f.extent), [if f.terminal.Some? then 1 else 0], Blank(7),
     BigEndian(8, t.sequence), BigEndian(8, t.length), t.digest, f.predecessor, Blank(16)]
  }

  /** The joined fields, followed by their digest. */
  function Sealed(c: Codec, fields: seq<Bytes>): Bytes {
    Join(fields) + c.of(Join(fields))
  }

  function EncodeHeader(c: Codec, h: SegmentHeader): Bytes {
    Sealed(c, HeaderFields(h))
  }

  function EncodeFrontier(c: Codec, f: Frontier): Bytes {
    Sealed(c, FrontierFields(f))
  }

  lemma WidthTotals()
    ensures Total(HEADER_WIDTHS) == HEADER_BYTES - CHECKSUM_BYTES
    ensures Total(FRONTIER_WIDTHS) == FRONTIER_BYTES - CHECKSUM_BYTES
  {
  }

  /** The fields under a seal that fits, if the bytes have the right length and digest. */
  function Unsealed(c: Codec, bytes: Bytes, widths: seq<nat>): (fields: Option<seq<Bytes>>)
    ensures fields.Some? ==> |fields.value| == |widths| && forall i :: 0 <= i < |widths| ==> |fields.value[i]| == widths[i]
  {
    var n := Total(widths);
    if |bytes| != n + CHECKSUM_BYTES || bytes[n..] != c.of(bytes[..n]) then None else Some(Cut(bytes[..n], widths))
  }

  function HeaderOfFields(f: seq<Bytes>): Result<SegmentHeader, JournalError>
    requires |f| == |HEADER_WIDTHS|
  {
    if f[0] != SEGMENT_MAGIC || FromBigEndian(f[1]) != PROTOCOL_VERSION || f[2] != Blank(4) || f[7] != Blank(16) then Err(Corrupt)
    else Ok(SegmentHeader(f[3], f[4], f[5], FromBigEndian(f[6])))
  }

  function DecodeHeader(c: Codec, bytes: Bytes): Result<SegmentHeader, JournalError> {
    match Unsealed(c, bytes, HEADER_WIDTHS)
    case None => Err(Corrupt)
    case Some(f) => HeaderOfFields(f)
  }

  function FrontierOfFields(f: seq<Bytes>): Result<Frontier, JournalError>
    requires |f| == |FRONTIER_WIDTHS|
  {
    if f[0] != FRONTIER_MAGIC || FromBigEndian(f[1]) != PROTOCOL_VERSION || f[2] != Blank(4) || f[10] != Blank(7) || f[15] != Blank(16) then
      Err(Corrupt)
    else
      var header := SegmentHeader(f[3], f[4], f[5], FromBigEndian(f[6]));
      if f[9] == [0] then
        if f[11] != Blank(8) || f[12] != Blank(8) || f[13] != Blank(32) then Err(Corrupt)
        else Ok(Frontier(header, FromBigEndian(f[7]), FromBigEndian(f[8]), None, f[14]))
      else if f[9] == [1] then
        Ok(Frontier(header, FromBigEndian(f[7]), FromBigEndian(f[8]), Some(Terminal(FromBigEndian(f[11]), FromBigEndian(f[12]), f[13])), f[14]))
      else Err(Corrupt)
  }

  function DecodeFrontier(c: Codec, bytes: Bytes): Result<Frontier, JournalError> {
    match Unsealed(c, bytes, FRONTIER_WIDTHS)
    case None => Err(Corrupt)
    case Some(f) => FrontierOfFields(f)
  }

  lemma UnsealedSeal(c: Codec, fields: seq<Bytes>, widths: seq<nat>)
    requires Faithful(c) && Widths(fields) == widths
    ensures Unsealed(c, Sealed(c, fields), widths) == Some(fields)
    ensures |Sealed(c, fields)| == Total(widths) + CHECKSUM_BYTES
  {
    CutJoined(fields);
    var body := Join(fields);
    assert (body + c.of(body))[..|body|] == body && (body + c.of(body))[|body|..] == c.of(body);
  }

  lemma SealedAgain(c: Codec, bytes: Bytes, widths: seq<nat>)
    requires Unsealed(c, bytes, widths).Some?
    ensures Sealed(c, Unsealed(c, bytes, widths).value) == bytes
  {
    var n := Total(widths);
    JoinedCuts(bytes[..n], widths);
    assert bytes == bytes[..n] + bytes[n..];
  }

  lemma Numbers(v: nat)
    requires v < SEQUENCES
    ensures FromBigEndian(BigEndian(8, v)) == v
  {
    NumberRoundTrip(8, v);
  }

  lemma Version()
    ensures FromBigEndian(BigEndian(4, PROTOCOL_VERSION)) == PROTOCOL_VERSION
  {
    Pow256Grows(1, 4);
    assert Pow256(1) == 256;
    NumberRoundTrip(4, PROTOCOL_VERSION);
  }

  lemma NumberBytes(bytes: Bytes)
    ensures BigEndian(|bytes|, FromBigEndian(bytes)) == bytes
  {
    BytesRoundTrip(bytes);
  }

  /** The header codec is a bijection between sized headers and the bytes it accepts. */
  lemma HeaderRoundTrip(c: Codec, h: SegmentHeader)
    requires Faithful(c) && SizedHeader(h)
    ensures DecodeHeader(c, EncodeHeader(c, h)) == Ok(h) && |EncodeHeader(c, h)| == HEADER_BYTES
  {
    hide BigEndian, FromBigEndian, Join, Cut, Unsealed, Sealed, HeaderFields, HeaderOfFields;
    WidthTotals();
    HeaderFieldsFit(h);
    UnsealedSeal(c, HeaderFields(h), HEADER_WIDTHS);
  }

  lemma HeaderFieldsFit(h: SegmentHeader)
    requires SizedHeader(h)
    ensures Widths(HeaderFields(h)) == HEADER_WIDTHS && HeaderOfFields(HeaderFields(h)) == Ok(h)
  {
    hide BigEndian, FromBigEndian, Pow256, Blank;
    Numbers(h.base);
    Version();
  }

  lemma HeaderRestored(c: Codec, bytes: Bytes)
    requires DecodeHeader(c, bytes).Ok?
    ensures EncodeHeader(c, DecodeHeader(c, bytes).value) == bytes
  {
    hide BigEndian, FromBigEndian, Join, Cut, Unsealed, Sealed;
    var f := Unsealed(c, bytes, HEADER_WIDTHS).value;
    SealedAgain(c, bytes, HEADER_WIDTHS);
    NumberBytes(f[1]);
    NumberBytes(f[6]);
    assert HeaderFields(DecodeHeader(c, bytes).value) == f;
  }

  lemma FrontierWidths(f: Frontier)
    requires SizedFrontier(f)
    ensures Widths(FrontierFields(f)) == FRONTIER_WIDTHS
  {
  }

  lemma FrontierFieldsFit(f: Frontier)
    requires SizedFrontier(f)
    ensures FrontierOfFields(FrontierFields(f)) == Ok(f)
  {
    hide BigEndian, FromBigEndian, Pow256, Blank;
    Numbers(f.header.base);
    Numbers(f.next);
    Numbers(f.extent);
    Version();
    if f.terminal.Some? {
      Numbers(f.terminal.value.sequence);
      Numbers(f.terminal.value.length);
    } else {
      ZeroIsBlank();
    }
  }

  /** The frontier codec is a bijection between sized frontiers and the bytes it accepts. */
  lemma FrontierRoundTrip(c: Codec, f: Frontier)
    requires Faithful(c) && SizedFrontier(f)
    ensures DecodeFrontier(c, EncodeFrontier(c, f)) == Ok(f) && |EncodeFrontier(c, f)| == FRONTIER_BYTES
  {
    hide BigEndian, FromBigEndian, Join, Cut, Unsealed, Sealed, FrontierFields, FrontierOfFields;
    WidthTotals();
    FrontierWidths(f);
    FrontierFieldsFit(f);
    UnsealedSeal(c, FrontierFields(f), FRONTIER_WIDTHS);
  }

  lemma ZeroIsBlank()
    ensures BigEndian(8, 0) == Blank(8)
  {
  }

  lemma FrontierRestored(c: Codec, bytes: Bytes)
    requires DecodeFrontier(c, bytes).Ok?
    ensures EncodeFrontier(c, DecodeFrontier(c, bytes).value) == bytes
  {
    hide BigEndian, FromBigEndian, Join, Cut, Unsealed, Sealed, Blank;
    var f := Unsealed(c, bytes, FRONTIER_WIDTHS).value;
    SealedAgain(c, bytes, FRONTIER_WIDTHS);
    NumberBytes(f[1]);
    NumberBytes(f[6]);
    NumberBytes(f[7]);
    NumberBytes(f[8]);
    NumberBytes(f[11]);
    NumberBytes(f[12]);
    ZeroIsBlank();
    assert FrontierFields(DecodeFrontier(c, bytes).value) == f;
  }
}
