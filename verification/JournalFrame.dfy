/**
 The journal frame codec: a magic, two length fields, a typed header, the
 payload, and a checksum over all of it.
 */
module JournalFrame {
  import opened Wrappers
  import opened KeyBits
  import opened BinaryLayout

  const FRAME_MAGIC: Bytes := [84, 73, 78, 69, 74, 82, 78, 49]
  const FRAME_SCHEMA_VERSION: nat := 1
  const FRAME_PREFIX_BYTES: nat := 20
  const CHECKSUM_BYTES: nat := 32
  const MIN_FRAME_BYTES: nat := FRAME_PREFIX_BYTES + CHECKSUM_BYTES
  const MAX_HEADER_BYTES: nat := 4096
  const MAX_FRAME_BYTES: nat := 64 * 1024 * 1024
  const SEQUENCES: nat := Pow256(8)

  datatype Header = Header(version: nat, device: Bytes, sequence: nat, kind: nat, payloadDigest: Bytes)

  datatype Frame = Frame(device: Bytes, sequence: nat, kind: nat, payload: Bytes)

  /** The header serialiser and the hash. */
  datatype Codec = Codec(encode: Header -> Bytes, decode: Bytes -> Option<Header>, of: Bytes -> Bytes)

  /** The hypotheses on them: headers round-trip, digests are 32 bytes and never all zero. */
  ghost predicate Faithful(c: Codec) {
    && (forall h :: c.decode(c.encode(h)) == Some(h))
    && (forall b :: |c.of(b)| == CHECKSUM_BYTES && c.of(b) != Blank(CHECKSUM_BYTES))
  }

  datatype FrameError =
    | FrameTooLarge | Truncated | InvalidMagic | HeaderTooLarge | LengthMismatch | ChecksumMismatch
    | Undecodable | UnknownVersion | NonCanonicalHeader | PayloadDigestMismatch

  /** Declared lengths of a frame, read from its prefix. */
  datatype Extent = Extent(headerLen: nat, total: nat)

  function ParseExtent(prefix: Bytes): Result<Extent, FrameError>
    requires |prefix| == FRAME_PREFIX_BYTES
  {
    if prefix[..8] != FRAME_MAGIC then Err(InvalidMagic)
    else
      var headerLen := FromBigEndian(prefix[8..12]);
      var total := FRAME_PREFIX_BYTES + headerLen + FromBigEndian(prefix[12..20]) + CHECKSUM_BYTES;
      if headerLen > MAX_HEADER_BYTES then Err(HeaderTooLarge)
      else if total > MAX_FRAME_BYTES then Err(FrameTooLarge)
      else Ok(Extent(headerLen, total))
  }

  function HeaderOf(c: Codec, f: Frame): Header {
    Header(FRAME_SCHEMA_VERSION, f.device, f.sequence, f.kind, c.of(f.payload))
  }

  function Body(header: Bytes, payload: Bytes): Bytes {
    FRAME_MAGIC + BigEndian(4, |header|) + BigEndian(8, |payload|) + header + payload
  }

  function EncodeFrame(c: Codec, f: Frame): Result<Bytes, FrameError> {
    var header := c.encode(HeaderOf(c, f));
    if |header| > MAX_HEADER_BYTES then Err(HeaderTooLarge)
    else if FRAME_PREFIX_BYTES + |header| + |f.payload| + CHECKSUM_BYTES > MAX_FRAME_BYTES then Err(FrameTooLarge)
    else var body := Body(header, f.payload); Ok(body + c.of(body))
  }

  function DecodeFrame(c: Codec, bytes: Bytes): Result<Frame, FrameError> {
    if |bytes| > MAX_FRAME_BYTES then Err(FrameTooLarge)
    else if |bytes| < MIN_FRAME_BYTES then Err(Truncated)
    else match ParseExtent(bytes[..FRAME_PREFIX_BYTES])
      case Err(e) => Err(e)
      case Ok(extent) =>
        if extent.total != |bytes| then Err(LengthMismatch) else DecodeBody(c, bytes, extent.headerLen)
  }

  /** What remains once the declared lengths fit the bytes. */
  function DecodeBody(c: Codec, bytes: Bytes, headerLen: nat): Result<Frame, FrameError>
    requires MIN_FRAME_BYTES + headerLen <= |bytes|
  {
    var body := |bytes| - CHECKSUM_BYTES;
    var headerBytes, payload := bytes[FRAME_PREFIX_BYTES..FRAME_PREFIX_BYTES + headerLen], bytes[FRAME_PREFIX_BYTES + headerLen..body];
    if bytes[body..] != c.of(bytes[..body]) then Err(ChecksumMismatch)
    else match c.decode(headerBytes)
      case None => Err(Undecodable)
      case Some(h) =>
        if h.version != FRAME_SCHEMA_VERSION then Err(UnknownVersion)
        else if c.encode(h) != headerBytes then Err(NonCanonicalHeader)
        else if c.of(payload) != h.payloadDigest then Err(PayloadDigestMismatch)
        else Ok(Frame(h.device, h.sequence, h.kind, payload))
  }

  lemma BodyParts(header: Bytes, payload: Bytes)
    ensures var b := Body(header, payload);
      && |b| == FRAME_PREFIX_BYTES + |header| + |payload|
      && b[..8] == FRAME_MAGIC && b[8..12] == BigEndian(4, |header|) && b[12..20] == BigEndian(8, |payload|)
      && b[20..20 + |header|] == header && b[20 + |header|..] == payload
  {
  }

  /** The bytes of a frame: prefix, header, payload and checksum. */
  function FrameSize(c: Codec, f: Frame): nat {
    20 + |c.encode(HeaderOf(c, f))| + |f.payload| + 32
  }

  /** A frame is encoded unless its header exceeds 4 KiB or the whole of it 64 MiB. */
  lemma EncodedSize(c: Codec, f: Frame)
    requires Faithful(c)
    ensures var header, r := |c.encode(HeaderOf(c, f))|, EncodeFrame(c, f);
      && (r == Err(HeaderTooLarge) <==> header > 4096)
      && (r == Err(FrameTooLarge) <==> header <= 4096 && FrameSize(c, f) > 67108864)
      && (r.Ok? <==> header <= 4096 && FrameSize(c, f) <= 67108864)
      && (r.Ok? ==> |r.value| == FrameSize(c, f))
  {
    BodyParts(c.encode(HeaderOf(c, f)), f.payload);
  }

  lemma SliceOfStart(b: Bytes, n: nat, lo: nat, hi: nat)
    requires lo <= hi <= n <= |b|
    ensures b[..n][lo..hi] == b[lo..hi]
  {
  }

  lemma LengthFields(header: Bytes, payload: Bytes)
    requires |header| <= MAX_HEADER_BYTES && |payload| <= MAX_FRAME_BYTES
    ensures FromBigEndian(BigEndian(4, |header|)) == |header| && FromBigEndian(BigEndian(8, |payload|)) == |payload|
  {
    hide BigEndian, FromBigEndian;
    Pow256Grows(3, 4);
    Pow256Grows(4, 8);
    assert Pow256(3) == 256 * 256 * 256;
    assert Pow256(4) == 256 * Pow256(3);
    NumberRoundTrip(4, |header|);
    NumberRoundTrip(8, |payload|);
  }

  /** Decoding what was encoded gives the frame back. */
  lemma DecodeEncoded(c: Codec, f: Frame)
    requires Faithful(c) && EncodeFrame(c, f).Ok?
    ensures DecodeFrame(c, EncodeFrame(c, f).value) == Ok(f)
    ensures MIN_FRAME_BYTES <= |EncodeFrame(c, f).value| <= MAX_FRAME_BYTES
  {
    hide BigEndian, FromBigEndian;
    var header := c.encode(HeaderOf(c, f));
    var body := Body(header, f.payload);
    var bytes := body + c.of(body);
    BodyParts(header, f.payload);
    LengthFields(header, f.payload);
    var prefix := bytes[..20];
    assert prefix == body[..20];
    SliceOfStart(body, 20, 0, 8);
    SliceOfStart(body, 20, 8, 12);
    SliceOfStart(body, 20, 12, 20);
    assert bytes[..|body|] == body && bytes[|body|..] == c.of(body);
    assert bytes[20..20 + |header|] == body[20..20 + |header|] && bytes[20 + |header|..|body|] == body[20 + |header|..];
  }

  lemma PrefixRestored(prefix: Bytes)
    requires |prefix| == FRAME_PREFIX_BYTES && prefix[..8] == FRAME_MAGIC
    ensures prefix == FRAME_MAGIC + BigEndian(4, FromBigEndian(prefix[8..12])) + BigEndian(8, FromBigEndian(prefix[12..20]))
  {
    hide BigEndian, FromBigEndian;
    BytesRoundTrip(prefix[8..12]);
    BytesRoundTrip(prefix[12..20]);
  }

  /** Bytes that decode are exactly what encoding the frame produces. */
  lemma EncodeDecoded(c: Codec, bytes: Bytes)
    requires Faithful(c) && DecodeFrame(c, bytes).Ok?
    ensures EncodeFrame(c, DecodeFrame(c, bytes).value) == Ok(bytes)
  {
    hide BigEndian, FromBigEndian;
    var f := DecodeFrame(c, bytes).value;
    var prefix := bytes[..20];
    var extent := ParseExtent(prefix).value;
    var body := bytes[..|bytes| - CHECKSUM_BYTES];
    var header, payload := bytes[20..20 + extent.headerLen], bytes[20 + extent.headerLen..|bytes| - CHECKSUM_BYTES];
    assert c.encode(HeaderOf(c, f)) == header && f.payload == payload;
    PrefixRestored(prefix);
    assert body == prefix + header + payload;
    assert bytes == body + c.of(body);
  }
}
