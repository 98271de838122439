/**
 The first journal protocol: frames one after another, recovered by scanning.
 Only a tail too short to hold any frame is ever cut off.
 */
module JournalV1 {
  import opened Wrappers
  import opened KeyBits
  import opened BinaryLayout
  import opened JournalFrame

  const MAX_SEGMENT_BYTES: nat := 4 * 1024 * 1024 * 1024

  datatype JournalError =
    | Corrupt | TooLarge | TooLargeFrame | DeviceMismatch | SequenceGap | SequenceExhausted
    | Ambiguous | Poisoned | Rejected(error: FrameError) | Io

  /** One frame read off the front of some bytes, and how many bytes it took. */
  datatype Read = Read(frame: Frame, length: nat)

  /** Reading during recovery. */
  function ReadFrameAt(c: Codec, rest: Bytes): Result<Read, JournalError>
    requires |rest| >= MIN_FRAME_BYTES
  {
    match ParseExtent(rest[..FRAME_PREFIX_BYTES])
    case Err(_) => Err(Corrupt)
    case Ok(extent) =>
      if extent.total > |rest| then Err(Corrupt)
      else match DecodeFrame(c, rest[..extent.total])
        case Err(_) => Err(Corrupt)
        case Ok(f) => Ok(Read(f, extent.total))
  }

  /** Reading below a known limit: `Ambiguous` stands for a declared length past it. */
  function ReadCompleteFrame(c: Codec, rest: Bytes): Result<Read, JournalError> {
    if |rest| < MIN_FRAME_BYTES then Err(Corrupt)
    else if rest[..8] != FRAME_MAGIC then Err(Corrupt)
    else
      var total := FRAME_PREFIX_BYTES + FromBigEndian(rest[8..12]) + FromBigEndian(rest[12..20]) + CHECKSUM_BYTES;
      if total > MAX_FRAME_BYTES then Err(TooLargeFrame)
      else if total > |rest| then Err(Ambiguous)
      else match DecodeFrame(c, rest[..total])
        case Err(_) => Err(Corrupt)
        case Ok(f) => Ok(Read(f, total))
  }

  /** What a scan found: the frames adopted, the next sequence, and the bytes left over. */
  datatype Scan = Scan(frames: seq<Frame>, next: nat, tail: nat)

  function Found(f: Frame, r: Result<Scan, JournalError>): Result<Scan, JournalError> {
    match r
    case Err(e) => Err(e)
    case Ok(s) => Ok(s.(frames := [f] + s.frames))
  }

  /** The checks every frame passes against the expected device and sequence. */
  function Admit(device: Bytes, next: nat, f: Frame): Option<JournalError> {
    if f.device != device then Some(DeviceMismatch)
    else if f.sequence != next then Some(SequenceGap)
    else if next + 1 >= SEQUENCES then Some(SequenceExhausted)
    else None
  }

  lemma ReadLength(c: Codec, rest: Bytes)
    ensures |rest| >= MIN_FRAME_BYTES && ReadFrameAt(c, rest).Ok? ==> MIN_FRAME_BYTES <= ReadFrameAt(c, rest).value.length <= |rest|
    ensures ReadCompleteFrame(c, rest).Ok? ==> MIN_FRAME_BYTES <= ReadCompleteFrame(c, rest).value.length <= |rest|
  {
  }

  function ScanFrom(c: Codec, device: Bytes, next: nat, rest: Bytes): Result<Scan, JournalError>
    decreases |rest|
  {
    ReadLength(c, rest);
    if |rest| < MIN_FRAME_BYTES then Ok(Scan([], next, |rest|))
    else match ReadFrameAt(c, rest)
      case Err(e) => Err(e)
      case Ok(read) =>
        match Admit(device, next, read.frame)
        case Some(e) => Err(e)
        case None => Found(read.frame, ScanFrom(c, device, next + 1, rest[read.length..]))
  }

  /** The inspection that must not change the file: it accepts no tail at all. */
  function InspectFrom(c: Codec, device: Bytes, next: nat, rest: Bytes): Result<Scan, JournalError>
    decreases |rest|
  {
    ReadLength(c, rest);
    if |rest| == 0 then Ok(Scan([], next, 0))
    else if |rest| < MIN_FRAME_BYTES then Err(Ambiguous)
    else match ReadCompleteFrame(c, rest)
      case Err(e) => Err(e)
      case Ok(read) =>
        match Admit(device, next, read.frame)
        case Some(e) => Err(e)
        case None => Found(read.frame, InspectFrom(c, device, next + 1, rest[read.length..]))
  }

  // ----- what the scans accept -----

  /** The bytes of frames, one after another. */
  function FrameBytes(c: Codec, frames: seq<Frame>): Bytes {
    if |frames| == 0 then []
    else (if EncodeFrame(c, frames[0]).Ok? then EncodeFrame(c, frames[0]).value else []) + FrameBytes(c, frames[1..])
  }

  /** Frames of one device, consecutive from `base`, each of which has an encoding. */
  predicate Consecutive(c: Codec, device: Bytes, base: nat, frames: seq<Frame>)
    decreases |frames|
  {
    |frames| > 0 ==>
      && EncodeFrame(c, frames[0]).Ok? && Admit(device, base, frames[0]).None?
      && Consecutive(c, device, base + 1, frames[1..])
  }

  lemma ParseIgnoresRest(bytes: Bytes, tail: Bytes)
    requires |bytes| >= FRAME_PREFIX_BYTES
    ensures (bytes + tail)[..FRAME_PREFIX_BYTES] == bytes[..FRAME_PREFIX_BYTES]
  {
  }

  /** Both ways of reading find exactly an encoded frame at the front. */
  lemma ReadsEncoded(c: Codec, f: Frame, tail: Bytes)
    requires Faithful(c) && EncodeFrame(c, f).Ok?
    ensures var e := EncodeFrame(c, f).value;
      && |e| >= MIN_FRAME_BYTES
      && ReadFrameAt(c, e + tail) == Ok(Read(f, |e|)) && ReadCompleteFrame(c, e + tail) == Ok(Read(f, |e|))
  {
    hide FromBigEndian, BigEndian, DecodeBody, EncodeFrame;
    var e := EncodeFrame(c, f).value;
    DecodeEncoded(c, f);
    ParseIgnoresRest(e, tail);
    assert (e + tail)[..|e|] == e;
    SliceOfStart(e + tail, 20, 0, 8);
    SliceOfStart(e + tail, 20, 8, 12);
    SliceOfStart(e + tail, 20, 12, 20);
  }

  lemma ReadIsEncoded(c: Codec, rest: Bytes)
    requires Faithful(c) && |rest| >= MIN_FRAME_BYTES
    ensures ReadFrameAt(c, rest).Ok? ==>
      var read := ReadFrameAt(c, rest).value; read.length <= |rest| && EncodeFrame(c, read.frame) == Ok(rest[..read.length])
    ensures ReadCompleteFrame(c, rest).Ok? ==>
      var read := ReadCompleteFrame(c, rest).value; read.length <= |rest| && EncodeFrame(c, read.frame) == Ok(rest[..read.length])
  {
    hide FromBigEndian, DecodeFrame, EncodeFrame;
    if ReadFrameAt(c, rest).Ok? {
      EncodeDecoded(c, rest[..ReadFrameAt(c, rest).value.length]);
    }
    if ReadCompleteFrame(c, rest).Ok? {
      EncodeDecoded(c, rest[..ReadCompleteFrame(c, rest).value.length]);
    }
  }

  /** The two readers accept the same bytes. */
  lemma ReadersAgree(c: Codec, rest: Bytes)
    requires Faithful(c) && |rest| >= MIN_FRAME_BYTES
    ensures ReadFrameAt(c, rest).Ok? <==> ReadCompleteFrame(c, rest).Ok?
    ensures ReadFrameAt(c, rest).Ok? ==> ReadFrameAt(c, rest) == ReadCompleteFrame(c, rest)
  {
    hide ReadFrameAt, ReadCompleteFrame, EncodeFrame;
    ReadIsEncoded(c, rest);
    if ReadFrameAt(c, rest).Ok? {
      var read := ReadFrameAt(c, rest).value;
      ReadsEncoded(c, read.frame, rest[read.length..]);
      assert rest[..read.length] + rest[read.length..] == rest;
    }
    if ReadCompleteFrame(c, rest).Ok? {
      var read := ReadCompleteFrame(c, rest).value;
      ReadsEncoded(c, read.frame, rest[read.length..]);
      assert rest[..read.length] + rest[read.length..] == rest;
    }
  }

  /** Scanning consecutive frames and a short tail adopts exactly the frames. */
  lemma {:induction false} ScanAdopts(c: Codec, device: Bytes, base: nat, frames: seq<Frame>, tail: Bytes)
    requires Faithful(c) && Consecutive(c, device, base, frames) && |tail| < MIN_FRAME_BYTES
    ensures ScanFrom(c, device, base, FrameBytes(c, frames) + tail) == Ok(Scan(frames, base + |frames|, |tail|))
    decreases |frames|
  {
    hide EncodeFrame, ReadFrameAt, Admit;
    if |frames| == 0 {
      assert FrameBytes(c, frames) + tail == tail;
    } else {
      var e, more := EncodeFrame(c, frames[0]).value, FrameBytes(c, frames[1..]);
      assert FrameBytes(c, frames) + tail == e + (more + tail);
      ReadsEncoded(c, frames[0], more + tail);
      assert (e + (more + tail))[|e|..] == more + tail;
      ScanAdopts(c, device, base + 1, frames[1..], tail);
      assert [frames[0]] + frames[1..] == frames;
    }
  }

  /** Whatever a scan accepts is consecutive frames and a short tail. */
  lemma {:induction false} ScanFindsFrames(c: Codec, device: Bytes, base: nat, rest: Bytes) returns (tail: Bytes)
    requires Faithful(c) && ScanFrom(c, device, base, rest).Ok?
    ensures var s := ScanFrom(c, device, base, rest).value;
      && Consecutive(c, device, base, s.frames) && s.next == base + |s.frames|
      && rest == FrameBytes(c, s.frames) + tail && |tail| == s.tail < MIN_FRAME_BYTES
    decreases |rest|
  {
    hide EncodeFrame, ReadFrameAt, Admit;
    if |rest| < MIN_FRAME_BYTES {
      tail := rest;
    } else {
      var read := ReadFrameAt(c, rest).value;
      ReadLength(c, rest);
      ReadIsEncoded(c, rest);
      tail := ScanFindsFrames(c, device, base + 1, rest[read.length..]);
      var s := ScanFrom(c, device, base, rest).value;
      assert s.frames[1..] == ScanFrom(c, device, base + 1, rest[read.length..]).value.frames;
      assert rest == rest[..read.length] + rest[read.length..];
    }
  }

  /** The inspection succeeds exactly when the scan does and leaves no tail. */
  lemma {:induction false} InspectIsScanWithoutTail(c: Codec, device: Bytes, base: nat, rest: Bytes)
    requires Faithful(c)
    ensures InspectFrom(c, device, base, rest).Ok? <==> ScanFrom(c, device, base, rest).Ok? && ScanFrom(c, device, base, rest).value.tail == 0
    ensures InspectFrom(c, device, base, rest).Ok? ==> InspectFrom(c, device, base, rest) == ScanFrom(c, device, base, rest)
    decreases |rest|
  {
    hide ReadFrameAt, ReadCompleteFrame, Admit;
    if |rest| >= MIN_FRAME_BYTES {
      ReadLength(c, rest);
      ReadersAgree(c, rest);
      if ReadFrameAt(c, rest).Ok? {
        var read := ReadFrameAt(c, rest).value;
        InspectIsScanWithoutTail(c, device, base + 1, rest[read.length..]);
      }
    }
  }

  lemma TornRead(c: Codec, f: Frame, k: nat)
    requires Faithful(c) && EncodeFrame(c, f).Ok? && MIN_FRAME_BYTES <= k < |EncodeFrame(c, f).value|
    ensures ReadFrameAt(c, EncodeFrame(c, f).value[..k]).Err?
  {
    hide FromBigEndian, BigEndian, DecodeBody, EncodeFrame;
    var e := EncodeFrame(c, f).value;
    DecodeEncoded(c, f);
    assert e[..k][..FRAME_PREFIX_BYTES] == e[..FRAME_PREFIX_BYTES];
  }

  /**
   An append torn after `k` bytes is recovered from if and only if fewer than the
   minimum frame's bytes arrived; any longer torn frame makes every open refuse.
   */
  lemma {:induction false} TornAppend(c: Codec, device: Bytes, base: nat, frames: seq<Frame>, f: Frame, k: nat)
    requires Faithful(c) && Consecutive(c, device, base, frames) && EncodeFrame(c, f).Ok? && k < |EncodeFrame(c, f).value|
    ensures var r := ScanFrom(c, device, base, FrameBytes(c, frames) + EncodeFrame(c, f).value[..k]);
      && (r.Ok? <==> k < MIN_FRAME_BYTES)
      && (r.Ok? ==> r.value.frames == frames)
    decreases |frames|
  {
    hide EncodeFrame, ReadFrameAt, Admit;
    var torn := EncodeFrame(c, f).value[..k];
    if k < MIN_FRAME_BYTES {
      ScanAdopts(c, device, base, frames, torn);
    } else if |frames| == 0 {
      assert FrameBytes(c, frames) + torn == torn;
      TornRead(c, f, k);
    } else {
      var e, more := EncodeFrame(c, frames[0]).value, FrameBytes(c, frames[1..]);
      assert FrameBytes(c, frames) + torn == e + (more + torn);
      ReadsEncoded(c, frames[0], more + torn);
      assert (e + (more + torn))[|e|..] == more + torn;
      TornAppend(c, device, base + 1, frames[1..], f, k);
    }
  }

  lemma {:induction false} FrameBytesAppend(c: Codec, frames: seq<Frame>, f: Frame)
    requires EncodeFrame(c, f).Ok?
    ensures FrameBytes(c, frames + [f]) == FrameBytes(c, frames) + EncodeFrame(c, f).value
    decreases |frames|
  {
    hide EncodeFrame;
    if |frames| == 0 {
      assert FrameBytes(c, [f]) == EncodeFrame(c, f).value + FrameBytes(c, []);
    } else {
      FrameBytesAppend(c, frames[1..], f);
      assert (frames + [f])[1..] == frames[1..] + [f];
    }
  }

  lemma {:induction false} ConsecutiveAppend(c: Codec, device: Bytes, base: nat, frames: seq<Frame>, f: Frame)
    requires Consecutive(c, device, base, frames) && EncodeFrame(c, f).Ok? && Admit(device, base + |frames|, f).None?
    ensures Consecutive(c, device, base, frames + [f])
    decreases |frames|
  {
    hide EncodeFrame, Admit;
    if |frames| > 0 {
      ConsecutiveAppend(c, device, base + 1, frames[1..], f);
      assert (frames + [f])[1..] == frames[1..] + [f];
    }
  }

  // ----- the scanning loop, and the segment -----

  function FoundAll(frames: seq<Frame>, r: Result<Scan, JournalError>): Result<Scan, JournalError> {
    match r
    case Err(e) => Err(e)
    case Ok(s) => Ok(s.(frames := frames + s.frames))
  }

  lemma ScanStep(c: Codec, device: Bytes, next: nat, rest: Bytes, frames: seq<Frame>)
    requires |rest| >= MIN_FRAME_BYTES && ReadFrameAt(c, rest).Ok?
    requires Admit(device, next, ReadFrameAt(c, rest).value.frame).None?
    ensures var read := ReadFrameAt(c, rest).value;
      && MIN_FRAME_BYTES <= read.length <= |rest|
      && FoundAll(frames, ScanFrom(c, device, next, rest))
         == FoundAll(frames + [read.frame], ScanFrom(c, device, next + 1, rest[read.length..]))
  {
    hide ReadFrameAt, Admit;
    ReadLength(c, rest);
    var read := ReadFrameAt(c, rest).value;
    var r := ScanFrom(c, device, next + 1, rest[read.length..]);
    if r.Ok? {
      assert frames + ([read.frame] + r.value.frames) == frames + [read.frame] + r.value.frames;
    }
  }

  lemma FoundNone(r: Result<Scan, JournalError>)
    ensures FoundAll([], r) == r
  {
    if r.Ok? {
      assert [] + r.value.frames == r.value.frames;
    }
  }

  method ScanSegment(c: Codec, file: Bytes, device: Bytes, base: nat) returns (r: Result<Scan, JournalError>)
    ensures r == if |file| > MAX_SEGMENT_BYTES then Err(TooLarge) else ScanFrom(c, device, base, file)
  {
    hide ReadFrameAt, Admit;
    if |file| > MAX_SEGMENT_BYTES {
      return Err(TooLarge);
    }
    var offset, next, frames := 0, base, [];
    assert file[0..] == file;
    FoundNone(ScanFrom(c, device, base, file));
    while offset < |file|
      invariant offset <= |file|
      invariant FoundAll(frames, ScanFrom(c, device, next, file[offset..])) == ScanFrom(c, device, base, file)
      decreases |file| - offset
    {
      if |file| - offset < MIN_FRAME_BYTES {
        break;
      }
      var read := ReadFrameAt(c, file[offset..]);
      if read.Err? {
        return Err(read.error);
      }
      var refused := Admit(device, next, read.value.frame);
      if refused.Some? {
        return Err(refused.value);
      }
      ScanStep(c, device, next, file[offset..], frames);
      assert file[offset..][read.value.length..] == file[offset + read.value.length..];
      offset, next, frames := offset + read.value.length, next + 1, frames + [read.value.frame];
    }
    assert frames + [] == frames;
    return Ok(Scan(frames, next, |file| - offset));
  }

  /** A file whose writes may stop short and whose barriers may fail. */
  class SegmentFile {
    var bytes: Bytes
    /** How many operations have failed. */
    ghost var faults: nat

    method Append(data: Bytes) returns (ok: bool)
      modifies this
      ensures exists k: nat :: k <= |data| && bytes == old(bytes) + data[..k] && (ok ==> k == |data|)
      ensures faults == old(faults) + if ok then 0 else 1
    {
      var k :| 0 <= k <= |data|;
      ok := *;
      ok := ok && k == |data|;
      bytes := bytes + data[..k];
      if !ok {
        faults := faults + 1;
      }
    }

    method Truncate(n: nat) returns (ok: bool)
      requires n <= |bytes|
      modifies this
      ensures bytes == old(bytes) || bytes == old(bytes)[..n]
      ensures ok ==> bytes == old(bytes)[..n]
      ensures faults == old(faults) + if ok then 0 else 1
    {
      ok := *;
      var cut := *;
      if ok || cut {
        bytes := bytes[..n];
      }
      if !ok {
        faults := faults + 1;
      }
    }

    method Sync() returns (ok: bool)
      modifies this`faults
      ensures faults == old(faults) + if ok then 0 else 1
    {
      ok := *;
      if !ok {
        faults := faults + 1;
      }
    }
  }

  /**
   Why a frame is refused after some committed frames: its header exceeds 4 KiB, it exceeds
   64 MiB in all, the segment would exceed 4 GiB, or no sequence below 2^64 would follow it.
   */
  function AppendRefusal(c: Codec, base: nat, frames: seq<Frame>, f: Frame): Option<JournalError> {
    if |c.encode(HeaderOf(c, f))| > 4096 then Some(Rejected(HeaderTooLarge))
    else if FrameSize(c, f) > 67108864 then Some(Rejected(FrameTooLarge))
    else if |FrameBytes(c, frames)| + FrameSize(c, f) > 4294967296 then Some(TooLarge)
    else if base + |frames| + 1 >= 0x1_0000_0000_0000_0000 then Some(SequenceExhausted)
    else None
  }

  class Segment {
    const file: SegmentFile
    const device: Bytes
    const base: nat
    var next: nat
    var committed: nat
    var poisoned: bool
    ghost var frames: seq<Frame>

    constructor (file: SegmentFile, device: Bytes, base: nat, scan: Scan)
      ensures this.file == file && this.device == device && this.base == base && !poisoned
      ensures next == scan.next && committed == |file.bytes| && frames == scan.frames
    {
      this.file, this.device, this.base := file, device, base;
      next, committed, poisoned, frames := scan.next, |file.bytes|, false, scan.frames;
    }

    /** Unless poisoned, the file is exactly the committed frames. */
    ghost predicate Valid(c: Codec)
      reads this, file
    {
      Faithful(c) && (!poisoned ==>
        && Consecutive(c, device, base, frames) && file.bytes == FrameBytes(c, frames)
        && committed == |file.bytes| && next == base + |frames|)
    }

    /**
     One write and one barrier; a failure of either poisons the segment. If neither fails the
     frame is appended, unless the segment is poisoned or the frame refused for its size or sequence.
     */
    method Append(c: Codec, kind: nat, payload: Bytes) returns (r: Result<nat, JournalError>)
      requires Valid(c)
      modifies this, file
      ensures Valid(c)
      ensures var no := if old(poisoned) then Some(Poisoned) else AppendRefusal(c, base, old(frames), Frame(device, old(next), kind, payload));
        && (no.Some? ==> r == Err(no.value) && poisoned == old(poisoned) && file.faults == old(file.faults))
        && (no.None? ==> r.Ok? || (r == Err(Io) && poisoned))
      ensures file.faults == old(file.faults) + if r == Err(Io) then 1 else 0
      ensures !old(poisoned) ==> old(next) == base + |old(frames)|
      ensures r.Ok? ==> !poisoned && r.value == old(next) && frames == old(frames) + [Frame(device, old(next), kind, payload)]
      ensures r.Err? && poisoned == old(poisoned) ==> file.bytes == old(file.bytes) && frames == old(frames)
      ensures poisoned && !old(poisoned) ==> EncodeFrame(c, Frame(device, old(next), kind, payload)).Ok?
      ensures poisoned && !old(poisoned) ==>
        exists k: nat :: k <= |EncodeFrame(c, Frame(device, old(next), kind, payload)).value|
          && file.bytes == old(file.bytes) + EncodeFrame(c, Frame(device, old(next), kind, payload)).value[..k]
    {
      hide EncodeFrame, FrameBytes, Consecutive, FrameSize;
      if poisoned {
        return Err(Poisoned);
      }
      var f := Frame(device, next, kind, payload);
      EncodedSize(c, f);
      var encoded := EncodeFrame(c, f);
      if encoded.Err? {
        return Err(Rejected(encoded.error));
      }
      var bytes := encoded.value;
      if committed + |bytes| > MAX_SEGMENT_BYTES {
        return Err(TooLarge);
      }
      if next + 1 >= SEQUENCES {
        return Err(SequenceExhausted);
      }
      var written := file.Append(bytes);
      if !written {
        poisoned := true;
        return Err(Io);
      }
      assert bytes[..|bytes|] == bytes;
      var synced := file.Sync();
      if !synced {
        poisoned := true;
        assert file.bytes == old(file.bytes) + bytes[..|bytes|];
        return Err(Io);
      }
      FrameBytesAppend(c, frames, f);
      ConsecutiveAppend(c, device, base, frames, f);
      r := Ok(next);
      next, committed, frames := next + 1, committed + |bytes|, frames + [f];
    }
  }

  /** Opens a segment if its scan succeeds and no operation fails; a refusal leaves the file as it was. */
  method Open(c: Codec, file: SegmentFile, device: Bytes, base: nat) returns (r: Result<Segment, JournalError>)
    requires Faithful(c)
    modifies file
    ensures |old(file.bytes)| > MAX_SEGMENT_BYTES ==> r == Err(TooLarge) && file.bytes == old(file.bytes)
    ensures |old(file.bytes)| <= MAX_SEGMENT_BYTES && ScanFrom(c, device, base, old(file.bytes)).Err? ==>
      r == Err(ScanFrom(c, device, base, old(file.bytes)).error) && file.bytes == old(file.bytes)
    ensures |old(file.bytes)| <= MAX_SEGMENT_BYTES && ScanFrom(c, device, base, old(file.bytes)).Ok? ==>
      r.Ok? || (r == Err(Io) && file.faults > old(file.faults))
    ensures r.Ok? ==>
      && ScanFrom(c, device, base, old(file.bytes)).Ok?
      && fresh(r.value) && r.value.file == file && r.value.Valid(c) && !r.value.poisoned
      && r.value.frames == ScanFrom(c, device, base, old(file.bytes)).value.frames
      && file.bytes <= old(file.bytes) && |old(file.bytes)| - |file.bytes| < MIN_FRAME_BYTES
  {
    hide ScanFrom, FrameBytes, Consecutive;
    var scanned := ScanSegment(c, file.bytes, device, base);
    if scanned.Err? {
      return Err(scanned.error);
    }
    var scan := scanned.value;
    ghost var tail := ScanFindsFrames(c, device, base, file.bytes);
    if scan.tail > 0 {
      var cut := file.Truncate(|file.bytes| - scan.tail);
      if !cut {
        return Err(Io);
      }
      var synced := file.Sync();
      if !synced {
        return Err(Io);
      }
    }
    assert file.bytes == FrameBytes(c, scan.frames);
    var s := new Segment(file, device, base, scan);
    return Ok(s);
  }
}
