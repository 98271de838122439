/**
 The second journal protocol: frames go into a synced segment first, then an
 atomically replaced frontier commits them. A crash may come at any step.
 */
module JournalV2 {
  import opened Wrappers
  import opened KeyBits
  import opened BinaryLayout
  import opened JournalFrame
  import opened JournalV1
  import opened FrontierCodec

  // ----- the frontier -----

  function Initial(h: SegmentHeader): Frontier {
    Frontier(h, h.base, HEADER_BYTES, None, Blank(CHECKSUM_BYTES))
  }

  function Advance(c: Codec, f: Frontier, frame: Bytes): Frontier {
    Frontier(f.header, f.next + 1, f.extent + |frame|, Some(Terminal(f.next, |frame|, c.of(frame))), c.of(EncodeFrontier(c, f)))
  }

  function Successor(c: Codec, f: Frontier, frame: Bytes): Result<Frontier, JournalError> {
    if f.next + 1 >= SEQUENCES then Err(SequenceExhausted)
    else if f.extent + |frame| > MAX_SEGMENT_BYTES then Err(TooLarge)
    else Ok(Advance(c, f, frame))
  }

  function Encoded(c: Codec, f: Frame): Bytes {
    if EncodeFrame(c, f).Ok? then EncodeFrame(c, f).value else []
  }

  /** The frontier that commits exactly these frames. */
  function FrontierAfter(c: Codec, h: SegmentHeader, frames: seq<Frame>): Frontier
    decreases |frames|
  {
    if |frames| == 0 then Initial(h)
    else Advance(c, FrontierAfter(c, h, frames[..|frames| - 1]), Encoded(c, frames[|frames| - 1]))
  }

  function SegmentBytes(c: Codec, h: SegmentHeader, frames: seq<Frame>): Bytes {
    EncodeHeader(c, h) + FrameBytes(c, frames)
  }

  function Last<T>(s: seq<T>): T
    requires |s| > 0
  {
    s[|s| - 1]
  }

  /** Whether the frontier's own record of its last frame fits the frames found. */
  predicate TerminalFits(c: Codec, f: Frontier, frames: seq<Frame>) {
    if |frames| == 0 then
      f.terminal.None? && f.extent == HEADER_BYTES && f.next == f.header.base && f.predecessor == Blank(CHECKSUM_BYTES)
    else
      && f.terminal.Some? && f.terminal.value.sequence == Last(frames).sequence
      && f.terminal.value.length == |Encoded(c, Last(frames))| && f.terminal.value.digest == c.of(Encoded(c, Last(frames)))
      && f.predecessor != Blank(CHECKSUM_BYTES)
  }

  /** The frames a frontier selects from a segment file. */
  function ScanPrefix(c: Codec, file: Bytes, f: Frontier): Result<seq<Frame>, JournalError> {
    if |file| > MAX_SEGMENT_BYTES then Err(TooLarge)
    else if f.extent < HEADER_BYTES || f.extent > MAX_SEGMENT_BYTES || |file| < f.extent then Err(Corrupt)
    else match InspectFrom(c, f.header.device, f.header.base, file[HEADER_BYTES..f.extent])
      case Err(e) => Err(if e.Ambiguous? then Corrupt else e)
      case Ok(s) => if s.next != f.next || !TerminalFits(c, f, s.frames) then Err(Corrupt) else Ok(s.frames)
  }

  /** A generation's committed state: sized, consecutive, and within the segment bound. */
  ghost predicate Committed(c: Codec, h: SegmentHeader, frames: seq<Frame>) {
    && SizedHeader(h) && Consecutive(c, h.device, h.base, frames)
    && |SegmentBytes(c, h, frames)| <= MAX_SEGMENT_BYTES
  }

  lemma SegmentBound()
    ensures MAX_SEGMENT_BYTES < SEQUENCES
  {
  }

  lemma {:induction false} ConsecutiveParts(c: Codec, device: Bytes, base: nat, frames: seq<Frame>, k: nat)
    requires Consecutive(c, device, base, frames) && k <= |frames|
    ensures Consecutive(c, device, base, frames[..k])
    ensures k < |frames| ==> EncodeFrame(c, frames[k]).Ok? && Admit(device, base + k, frames[k]).None?
    decreases |frames|
  {
    hide EncodeFrame;
    if k > 0 {
      ConsecutiveParts(c, device, base + 1, frames[1..], k - 1);
      assert frames[..k][1..] == frames[1..][..k - 1];
    }
  }

  lemma {:induction false} FrameBytesParts(c: Codec, frames: seq<Frame>, k: nat)
    requires k <= |frames|
    ensures FrameBytes(c, frames[..k]) <= FrameBytes(c, frames)
    decreases |frames|
  {
    hide EncodeFrame;
    if k > 0 {
      FrameBytesParts(c, frames[1..], k - 1);
      assert frames[..k][1..] == frames[1..][..k - 1];
    }
  }

  lemma CommittedPrefix(c: Codec, h: SegmentHeader, frames: seq<Frame>, k: nat)
    requires Committed(c, h, frames) && k <= |frames|
    ensures Committed(c, h, frames[..k]) && SegmentBytes(c, h, frames[..k]) <= SegmentBytes(c, h, frames)
  {
    hide EncodeHeader;
    ConsecutiveParts(c, h.device, h.base, frames, k);
    FrameBytesParts(c, frames, k);
  }

  lemma CommittedLast(c: Codec, h: SegmentHeader, frames: seq<Frame>)
    requires Committed(c, h, frames) && |frames| > 0
    ensures var n := |frames| - 1;
      && Committed(c, h, frames[..n]) && EncodeFrame(c, frames[n]).Ok? && Admit(h.device, h.base + n, frames[n]).None?
      && SegmentBytes(c, h, frames) == SegmentBytes(c, h, frames[..n]) + Encoded(c, frames[n])
  {
    hide EncodeHeader, EncodeFrame;
    var n := |frames| - 1;
    CommittedPrefix(c, h, frames, n);
    ConsecutiveParts(c, h.device, h.base, frames, n);
    FrameBytesAppend(c, frames[..n], frames[n]);
    assert frames[..n] + [frames[n]] == frames;
  }

  /** What the frontier after some frames says of them. */
  lemma {:induction false} FrontierSays(c: Codec, h: SegmentHeader, frames: seq<Frame>)
    requires Faithful(c) && Committed(c, h, frames)
    ensures var f := FrontierAfter(c, h, frames);
      && f.header == h && f.next == h.base + |frames| && f.extent == |SegmentBytes(c, h, frames)|
      && SizedFrontier(f) && TerminalFits(c, f, frames) && f.extent >= HEADER_BYTES
    decreases |frames|
  {
    hide EncodeHeader, EncodeFrame, EncodeFrontier, Pow256;
    SegmentBound();
    HeaderRoundTrip(c, h);
    if |frames| > 0 {
      var n := |frames| - 1;
      CommittedLast(c, h, frames);
      FrontierSays(c, h, frames[..n]);
    }
  }

  /**
   Why a frame is refused after some committed frames: its encoded header exceeds 4 KiB,
   it exceeds 64 MiB in all, no sequence below 2^64 would be left to follow it, or the
   segment would exceed 4 GiB.
   */
  function Refusal(c: Codec, h: SegmentHeader, frames: seq<Frame>, f: Frame): Option<JournalError> {
    if |c.encode(HeaderOf(c, f))| > 4096 then Some(Rejected(HeaderTooLarge))
    else if FrameSize(c, f) > 67108864 then Some(Rejected(FrameTooLarge))
    else if h.base + |frames| + 1 >= 0x1_0000_0000_0000_0000 then Some(SequenceExhausted)
    else if |SegmentBytes(c, h, frames)| + FrameSize(c, f) > 4294967296 then Some(TooLarge)
    else None
  }

  /** After committed frames, what the encoder and the frontier refuse is exactly that. */
  lemma RefusalIs(c: Codec, h: SegmentHeader, frames: seq<Frame>, f: Frame)
    requires Faithful(c) && Committed(c, h, frames)
    ensures var e, at := EncodeFrame(c, f), FrontierAfter(c, h, frames);
      Refusal(c, h, frames, f) ==
        if e.Err? then Some(Rejected(e.error))
        else if Successor(c, at, e.value).Err? then Some(Successor(c, at, e.value).error)
        else None
  {
    hide SegmentBytes, FrontierAfter, Advance, Committed, EncodeFrame, FrameSize;
    FrontierSays(c, h, frames);
    EncodedSize(c, f);
    assert SEQUENCES == 0x1_0000_0000_0000_0000;
  }

  /** The frontier after some frames selects exactly those, whatever follows them in the file. */
  lemma FrontierSelects(c: Codec, h: SegmentHeader, frames: seq<Frame>, file: Bytes)
    requires Faithful(c) && Committed(c, h, frames)
    requires SegmentBytes(c, h, frames) <= file && |file| <= MAX_SEGMENT_BYTES
    ensures ScanPrefix(c, file, FrontierAfter(c, h, frames)) == Ok(frames)
  {
    hide EncodeHeader, EncodeFrame, FrontierAfter, TerminalFits, InspectFrom, ScanFrom, Consecutive, FrameBytes;
    FrontierSays(c, h, frames);
    HeaderRoundTrip(c, h);
    var f := FrontierAfter(c, h, frames);
    var region := FrameBytes(c, frames);
    assert file[HEADER_BYTES..f.extent] == region by {
      assert file[..f.extent] == EncodeHeader(c, h) + region;
    }
    assert region + [] == region;
    ScanAdopts(c, h.device, h.base, frames, []);
    InspectIsScanWithoutTail(c, h.device, h.base, region);
  }

  // ----- what may be said of the attempts made -----

  /** The caller's knowledge of an append: it holds, it never happened, or it may have. */
  datatype Fate = Kept | Never | Unsure

  datatype Attempt = Attempt(frame: Frame, fate: Fate)

  /**
   The frames are what is left of the attempts: each kept one, no refused one, and
   some of the unsure ones, at consecutive sequences; kept ones are among the first
   `durable`, which no crash takes back.
   */
  ghost predicate Explains(h: seq<Attempt>, base: nat, frames: seq<Frame>, durable: nat)
    decreases |h|
  {
    if |h| == 0 then |frames| == 0
    else
      var a, rest := Last(h), h[..|h| - 1];
      match a.fate
      case Never => Explains(rest, base, frames, durable)
      case Kept => |frames| <= durable && Matches(a, base, frames) && Explains(rest, base, frames[..|frames| - 1], durable)
      case Unsure =>
        || Explains(rest, base, frames, durable)
        || (Matches(a, base, frames) && Explains(rest, base, frames[..|frames| - 1], durable))
  }

  predicate Matches(a: Attempt, base: nat, frames: seq<Frame>) {
    |frames| > 0 && Last(frames) == a.frame && a.frame.sequence == base + |frames| - 1
  }

  lemma {:induction false} MoreDurable(h: seq<Attempt>, base: nat, frames: seq<Frame>, d: nat, e: nat)
    requires Explains(h, base, frames, d) && d <= e
    ensures Explains(h, base, frames, e)
    decreases |h|
  {
    if |h| > 0 {
      var rest := h[..|h| - 1];
      if Explains(rest, base, frames, d) {
        MoreDurable(rest, base, frames, d, e);
      }
      if |frames| > 0 && Explains(rest, base, frames[..|frames| - 1], d) {
        MoreDurable(rest, base, frames[..|frames| - 1], d, e);
      }
    }
  }

  /** Losing frames that were not durable still explains the attempts. */
  lemma {:induction false} Reverted(h: seq<Attempt>, base: nat, frames: seq<Frame>, durable: nat, k: nat)
    requires Explains(h, base, frames, durable) && durable <= k <= |frames|
    ensures Explains(h, base, frames[..k], durable)
    decreases |h|
  {
    assert frames[..|frames|] == frames;
    if |h| > 0 && k < |frames| {
      var rest := h[..|h| - 1];
      if Explains(rest, base, frames, durable) {
        Reverted(rest, base, frames, durable, k);
      }
      if Explains(rest, base, frames[..|frames| - 1], durable) {
        Reverted(rest, base, frames[..|frames| - 1], durable, k);
        assert frames[..|frames| - 1][..k] == frames[..k];
      }
    }
  }

  ghost predicate Increasing(m: seq<nat>) {
    forall i, j :: 0 <= i < j < |m| ==> m[i] < m[j]
  }

  /** Each frame comes from its own attempt, in order; every kept attempt gave one and no refused one did. */
  ghost predicate Accounts(h: seq<Attempt>, base: nat, frames: seq<Frame>, m: seq<nat>) {
    && |m| == |frames| && Increasing(m)
    && (forall j :: 0 <= j < |m| ==> m[j] < |h| && h[m[j]].frame == frames[j] && frames[j].sequence == base + j && !h[m[j]].fate.Never?)
    && (forall i :: 0 <= i < |h| && h[i].fate.Kept? ==> i in m)
  }

  lemma AccountsSkip(rest: seq<Attempt>, a: Attempt, base: nat, frames: seq<Frame>, m: seq<nat>)
    requires Accounts(rest, base, frames, m) && !a.fate.Kept?
    ensures Accounts(rest + [a], base, frames, m)
  {
  }

  lemma AccountsTake(rest: seq<Attempt>, a: Attempt, base: nat, frames: seq<Frame>, m: seq<nat>)
    requires Matches(a, base, frames) && Accounts(rest, base, frames[..|frames| - 1], m) && !a.fate.Never?
    ensures Accounts(rest + [a], base, frames, m + [|rest|])
  {
  }

  /** An explanation assigns each frame to an attempt of its own. */
  lemma {:induction false} Accounted(h: seq<Attempt>, base: nat, frames: seq<Frame>, durable: nat) returns (m: seq<nat>)
    requires Explains(h, base, frames, durable)
    ensures Accounts(h, base, frames, m)
    decreases |h|
  {
    hide Accounts;
    if |h| == 0 {
      m := [];
      assert Accounts(h, base, frames, m) by {
        NothingToAccount(h, base, frames);
      }
    } else {
      var a, rest := Last(h), h[..|h| - 1];
      assert h == rest + [a];
      if !a.fate.Kept? && Explains(rest, base, frames, durable) {
        m := Accounted(rest, base, frames, durable);
        AccountsSkip(rest, a, base, frames, m);
      } else {
        m := Accounted(rest, base, frames[..|frames| - 1], durable);
        AccountsTake(rest, a, base, frames, m);
        m := m + [|rest|];
      }
    }
  }

  lemma NothingToAccount(h: seq<Attempt>, base: nat, frames: seq<Frame>)
    requires |h| == 0 && |frames| == 0
    ensures Accounts(h, base, frames, [])
  {
  }

  /** A kept append is replayed at its own sequence, with its own payload. */
  lemma KeptIsReplayed(h: seq<Attempt>, base: nat, frames: seq<Frame>, durable: nat, i: nat)
    requires Explains(h, base, frames, durable) && i < |h| && h[i].fate.Kept?
    ensures base <= h[i].frame.sequence < base + |frames| && frames[h[i].frame.sequence - base] == h[i].frame
  {
    var m := Accounted(h, base, frames, durable);
    var j :| 0 <= j < |m| && m[j] == i;
  }

  // ----- the disk -----

  /**
   The two files as a running program sees them; `synced` is the part of the segment
   that a crash cannot touch, `revertible` the frontiers it may bring back.
   */
  datatype Image = Image(segment: Bytes, synced: Bytes, frontier: Bytes, revertible: set<Bytes>)

  /** What the files mean: the committed frames, how many are durable, and all attempts. */
  datatype Ledger = Ledger(frames: seq<Frame>, durable: nat, attempts: seq<Attempt>)

  ghost predicate WasFrontier(c: Codec, h: SegmentHeader, frames: seq<Frame>, durable: nat, b: Bytes) {
    exists k: nat :: durable <= k <= |frames| && b == EncodeFrontier(c, FrontierAfter(c, h, frames[..k]))
  }

  /** Holds after every single step of the protocol. */
  ghost predicate Good(c: Codec, h: SegmentHeader, d: Image, l: Ledger) {
    && Committed(c, h, l.frames) && l.durable <= |l.frames|
    && SegmentBytes(c, h, l.frames) <= d.synced <= d.segment && |d.segment| <= MAX_SEGMENT_BYTES
    && d.frontier == EncodeFrontier(c, FrontierAfter(c, h, l.frames))
    && (forall b :: b in d.revertible ==> WasFrontier(c, h, l.frames, l.durable, b))
    && Explains(l.attempts, h.base, l.frames, l.durable)
  }

  lemma StillWas(c: Codec, h: SegmentHeader, frames: seq<Frame>, durable: nat, f: Frame, b: Bytes)
    requires WasFrontier(c, h, frames, durable, b)
    ensures WasFrontier(c, h, frames + [f], durable, b)
  {
    hide EncodeFrontier, FrontierAfter;
    var k: nat :| durable <= k <= |frames| && b == EncodeFrontier(c, FrontierAfter(c, h, frames[..k]));
    assert (frames + [f])[..k] == frames[..k];
  }

  lemma OneMoreFrame(c: Codec, h: SegmentHeader, frames: seq<Frame>, f: Frame)
    requires Faithful(c) && Committed(c, h, frames) && EncodeFrame(c, f).Ok? && Admit(h.device, h.base + |frames|, f).None?
    requires |SegmentBytes(c, h, frames)| + |Encoded(c, f)| <= MAX_SEGMENT_BYTES
    ensures Committed(c, h, frames + [f])
    ensures SegmentBytes(c, h, frames + [f]) == SegmentBytes(c, h, frames) + Encoded(c, f)
    ensures FrontierAfter(c, h, frames + [f]) == Advance(c, FrontierAfter(c, h, frames), Encoded(c, f))
  {
    hide EncodeHeader, EncodeFrame, Admit, Advance;
    ConsecutiveAppend(c, h.device, h.base, frames, f);
    FrameBytesAppend(c, frames, f);
    assert (frames + [f])[..|frames|] == frames;
  }

  /** Replacing the frontier once the segment is synced commits one more frame. */
  lemma Replaced(c: Codec, h: SegmentHeader, d: Image, l: Ledger, f: Frame, before: seq<Attempt>)
    requires Faithful(c) && Good(c, h, d, l) && l.attempts == before + [Attempt(f, Unsure)]
    requires Explains(before, h.base, l.frames, l.durable)
    requires EncodeFrame(c, f).Ok? && Admit(h.device, h.base + |l.frames|, f).None?
    requires |SegmentBytes(c, h, l.frames)| + |Encoded(c, f)| <= MAX_SEGMENT_BYTES
    requires SegmentBytes(c, h, l.frames) + Encoded(c, f) <= d.synced
    ensures Good(c, h, d.(frontier := EncodeFrontier(c, Advance(c, FrontierAfter(c, h, l.frames), Encoded(c, f))), revertible := d.revertible + {d.frontier}),
                 l.(frames := l.frames + [f]))
  {
    hide SegmentBytes, EncodeFrontier, FrontierAfter, Advance, EncodeFrame, Committed, WasFrontier;
    OneMoreFrame(c, h, l.frames, f);
    forall b | b in d.revertible ensures WasFrontier(c, h, l.frames + [f], l.durable, b) {
      StillWas(c, h, l.frames, l.durable, f, b);
    }
    IsFrontier(c, h, l.frames, l.durable);
    StillWas(c, h, l.frames, l.durable, f, d.frontier);
    assert (before + [Attempt(f, Unsure)])[..|before|] == before && (l.frames + [f])[..|l.frames|] == l.frames;
  }

  lemma IsFrontier(c: Codec, h: SegmentHeader, frames: seq<Frame>, durable: nat)
    requires durable <= |frames|
    ensures WasFrontier(c, h, frames, durable, EncodeFrontier(c, FrontierAfter(c, h, frames)))
  {
    hide EncodeFrontier, FrontierAfter;
    assert frames[..|frames|] == frames;
  }

  /** A directory barrier after the replacement makes all frames durable, and the attempt kept. */
  lemma Barrier(c: Codec, h: SegmentHeader, d: Image, l: Ledger, kept: seq<Attempt>)
    requires Good(c, h, d, l) && Explains(kept, h.base, l.frames, |l.frames|)
    ensures Good(c, h, d.(revertible := {}), Ledger(l.frames, |l.frames|, kept))
  {
    hide SegmentBytes, EncodeFrontier, FrontierAfter, Committed;
  }

  /** After a crash some prefix of the frames remains, and it includes every durable one. */
  lemma Crashed(c: Codec, h: SegmentHeader, d: Image, l: Ledger, segment: Bytes, frontier: Bytes) returns (k: nat)
    requires Good(c, h, d, l)
    requires d.synced <= segment && |segment| <= MAX_SEGMENT_BYTES
    requires frontier == d.frontier || frontier in d.revertible
    ensures l.durable <= k <= |l.frames|
    ensures Good(c, h, Image(segment, segment, frontier, {}), Ledger(l.frames[..k], k, l.attempts))
  {
    hide EncodeFrontier, FrontierAfter, Committed, SegmentBytes;
    IsFrontier(c, h, l.frames, l.durable);
    k :| l.durable <= k <= |l.frames| && frontier == EncodeFrontier(c, FrontierAfter(c, h, l.frames[..k]));
    CommittedPrefix(c, h, l.frames, k);
    Reverted(l.attempts, h.base, l.frames, l.durable, k);
    MoreDurable(l.attempts, h.base, l.frames[..k], l.durable, k);
  }

  lemma FreshIsGood(c: Codec, h: SegmentHeader)
    requires Faithful(c) && SizedHeader(h)
    ensures Good(c, h, Image(EncodeHeader(c, h), EncodeHeader(c, h), EncodeFrontier(c, Initial(h)), {}), Ledger([], 0, []))
  {
    hide EncodeFrontier, EncodeHeader, DecodeFrontier, DecodeHeader;
    HeaderRoundTrip(c, h);
    assert EncodeHeader(c, h) + FrameBytes(c, []) == EncodeHeader(c, h);
  }

  class Disk {
    var segment: Bytes
    var synced: Bytes
    var frontier: Bytes
    var revertible: set<Bytes>
    /** Operations that have failed. */
    var faults: nat
    ghost var ledger: Ledger

    /** A freshly prepared generation: header and initial frontier, both durable. */
    constructor (c: Codec, h: SegmentHeader)
      requires Faithful(c) && SizedHeader(h)
      ensures Good(c, h, Now(), ledger) && ledger == Ledger([], 0, []) && faults == 0
    {
      segment, synced := EncodeHeader(c, h), EncodeHeader(c, h);
      frontier, revertible, faults := EncodeFrontier(c, Initial(h)), {}, 0;
      ledger := Ledger([], 0, []);
      new;
      FreshIsGood(c, h);
    }

    function Now(): Image
      reads this
    {
      Image(segment, synced, frontier, revertible)
    }

    method WriteSegment(bytes: Bytes) returns (ok: bool)
      modifies this`segment, this`faults
      ensures faults == old(faults) + if ok then 0 else 1
      ensures old(segment) <= segment <= old(segment) + bytes
      ensures ok ==> segment == old(segment) + bytes
    {
      var k :| 0 <= k <= |bytes|;
      segment := segment + bytes[..k];
      assert bytes[..k] <= bytes;
      ok := *;
      ok := ok && k == |bytes|;
      faults := faults + if ok then 0 else 1;
    }

    method SyncSegment() returns (ok: bool)
      modifies this`synced, this`faults
      ensures faults == old(faults) + if ok then 0 else 1
      ensures synced == old(synced) || synced == segment
      ensures ok ==> synced == segment
    {
      ok := *;
      if ok {
        synced := segment;
      }
      faults := faults + if ok then 0 else 1;
    }

    method TruncateSegment(n: nat) returns (ok: bool)
      requires n <= |segment| && synced <= segment
      modifies this`segment, this`synced, this`faults
      ensures faults == old(faults) + if ok then 0 else 1
      ensures Now() == old(Now()) || (segment == old(segment)[..n] && synced == if |old(synced)| <= n then old(synced) else old(synced)[..n])
      ensures ok ==> segment == old(segment)[..n]
    {
      var cut;
      ok, cut := *, *;
      if ok || cut {
        segment := segment[..n];
        synced := if |synced| <= n then synced else synced[..n];
      }
      faults := faults + if ok then 0 else 1;
    }

    /** Renames a synced temporary file over the frontier: done or not done, and not yet durable. */
    method ReplaceFrontier(bytes: Bytes) returns (ok: bool, ghost done: bool)
      modifies this`frontier, this`revertible, this`faults
      ensures faults == old(faults) + if ok then 0 else 1
      ensures Now() == if done then old(Now()).(frontier := bytes, revertible := old(revertible) + {old(frontier)}) else old(Now())
      ensures ok ==> done
    {
      var renamed;
      ok, renamed := *, *;
      done := ok || renamed;
      if ok || renamed {
        frontier, revertible := bytes, revertible + {frontier};
      }
      faults := faults + if ok then 0 else 1;
    }

    method SyncDirectory() returns (ok: bool)
      modifies this`revertible, this`faults
      ensures faults == old(faults) + if ok then 0 else 1
      ensures revertible == if ok then {} else old(revertible)
    {
      ok := *;
      if ok {
        revertible := {};
      }
      faults := faults + if ok then 0 else 1;
    }

    /** Reads the frontier back and compares it; the read may fail. */
    method VerifyFrontier(bytes: Bytes) returns (ok: bool)
      modifies this`faults
      ensures ok ==> frontier == bytes
      ensures faults == old(faults) + if ok || frontier != bytes then 0 else 1
    {
      ok := *;
      ok := ok && frontier == bytes;
      faults := faults + if ok || frontier != bytes then 0 else 1;
    }

    /** Power loss: unsynced segment bytes become anything, an unsynced frontier any of its predecessors. */
    method Crash(c: Codec, h: SegmentHeader)
      requires Good(c, h, Now(), ledger)
      modifies this
      ensures Good(c, h, Now(), ledger) && ledger.attempts == old(ledger.attempts) && faults == old(faults)
      ensures exists k: nat :: old(ledger.durable) <= k <= |old(ledger.frames)| && ledger.frames == old(ledger.frames)[..k]
    {
      hide Good;
      var tail: Bytes := *;
      var whole := synced + tail;
      GoodBound(c, h, Now(), ledger);
      whole := if |whole| <= MAX_SEGMENT_BYTES then whole else whole[..MAX_SEGMENT_BYTES];
      assert frontier in {frontier} + revertible;
      var survivor :| survivor in {frontier} + revertible;
      ghost var k := Crashed(c, h, Now(), ledger, whole, survivor);
      ledger := Ledger(ledger.frames[..k], k, ledger.attempts);
      segment, synced, frontier, revertible := whole, whole, survivor, {};
    }
  }

  lemma GoodBound(c: Codec, h: SegmentHeader, d: Image, l: Ledger)
    requires Good(c, h, d, l)
    ensures |d.synced| <= |d.segment| <= MAX_SEGMENT_BYTES
  {
  }

  // ----- the open segment -----

  datatype Outcome = Appended(sequence: nat) | DefinitelyNot(error: JournalError) | OutcomeUnknown

  lemma Noted(c: Codec, h: SegmentHeader, d: Image, l: Ledger, a: Attempt)
    requires Good(c, h, d, l) && !a.fate.Kept?
    ensures Good(c, h, d, l.(attempts := l.attempts + [a]))
  {
    hide Committed, SegmentBytes, EncodeFrontier, FrontierAfter, WasFrontier;
    assert (l.attempts + [a])[..|l.attempts|] == l.attempts;
  }

  lemma Written(c: Codec, h: SegmentHeader, d: Image, l: Ledger, segment: Bytes, synced: Bytes)
    requires Good(c, h, d, l)
    requires d.synced <= synced <= segment && |segment| <= MAX_SEGMENT_BYTES
    ensures Good(c, h, d.(segment := segment, synced := synced), l)
  {
    hide Committed, SegmentBytes, EncodeFrontier, FrontierAfter, WasFrontier, Explains;
  }

  lemma KeptNow(before: seq<Attempt>, base: nat, frames: seq<Frame>, durable: nat, f: Frame)
    requires Explains(before, base, frames, durable) && f.sequence == base + |frames| && durable <= |frames|
    ensures Explains(before + [Attempt(f, Kept)], base, frames + [f], |frames| + 1)
  {
    MoreDurable(before, base, frames, durable, |frames| + 1);
    assert (before + [Attempt(f, Kept)])[..|before|] == before && (frames + [f])[..|frames|] == frames;
  }

  lemma RefusalNow(c: Codec, h: SegmentHeader, d: Image, l: Ledger, f: Frame)
    requires Faithful(c) && Good(c, h, d, l)
    ensures FrontierAfter(c, h, l.frames).next == h.base + |l.frames|
    ensures var e, at := EncodeFrame(c, f), FrontierAfter(c, h, l.frames);
      Refusal(c, h, l.frames, f) ==
        if e.Err? then Some(Rejected(e.error))
        else if Successor(c, at, e.value).Err? then Some(Successor(c, at, e.value).error)
        else None
  {
    hide Committed, FrontierAfter, EncodeFrame, Refusal, Successor, Explains, SegmentBytes;
    FrontierSays(c, h, l.frames);
    RefusalIs(c, h, l.frames, f);
  }

  class SegmentV2 {
    const disk: Disk
    const header: SegmentHeader
    var frontier: Frontier
    var poisoned: bool

    constructor (disk: Disk, header: SegmentHeader, frontier: Frontier)
      ensures this.disk == disk && this.header == header && this.frontier == frontier && !poisoned
    {
      this.disk, this.header, this.frontier, poisoned := disk, header, frontier, false;
    }

    /** The disk is good, and unless poisoned the handle's cursor is at its committed end. */
    ghost predicate Valid(c: Codec)
      reads this, disk
    {
      && Faithful(c) && Good(c, header, disk.Now(), disk.ledger)
      && (!poisoned ==>
          && frontier == FrontierAfter(c, header, disk.ledger.frames)
          && disk.segment == SegmentBytes(c, header, disk.ledger.frames))
    }

    /**
     Appends one frame; `died` says that power was lost part-way and no answer was given.
     `Appended` is kept and durable, `DefinitelyNot` touches nothing, and after anything
     else the frame is committed or not, once at most, and the handle is poisoned.
     */
    method Append(c: Codec, kind: nat, payload: Bytes) returns (r: Outcome, died: bool)
      requires Valid(c)
      modifies this, disk
      ensures Valid(c)
      ensures var f, l := Frame(header.device, old(frontier.next), kind, payload), old(disk.ledger);
        if died || r.OutcomeUnknown? then
          poisoned && disk.ledger.attempts == l.attempts + [Attempt(f, Unsure)]
          && (disk.ledger.frames == l.frames || disk.ledger.frames == l.frames + [f])
        else if r.DefinitelyNot? then
          poisoned == old(poisoned) && disk.Now() == old(disk.Now()) && disk.ledger == l.(attempts := l.attempts + [Attempt(f, Never)])
        else
          !poisoned && r.sequence == f.sequence && disk.ledger == Ledger(l.frames + [f], |l.frames| + 1, l.attempts + [Attempt(f, Kept)])
      ensures !old(poisoned) ==> old(frontier.next) == header.base + |old(disk.ledger.frames)|
      ensures var no := if old(poisoned) then Some(Poisoned) else Refusal(c, header, old(disk.ledger.frames), Frame(header.device, old(frontier.next), kind, payload));
        (r.DefinitelyNot? <==> no.Some?) && (r.DefinitelyNot? ==> Some(r.error) == no)
      ensures disk.faults >= old(disk.faults) && (r.OutcomeUnknown? ==> died || disk.faults > old(disk.faults))
    {
      hide EncodeFrame, FrontierAfter, SegmentBytes, EncodeFrontier, Advance, Good, Explains, Encoded, Refusal;
      var f := Frame(header.device, frontier.next, kind, payload);
      RefusalNow(c, header, disk.Now(), disk.ledger, f);
      if poisoned {
        Refuse(c, f);
        return DefinitelyNot(Poisoned), false;
      }
      var encoded := EncodeFrame(c, f);
      if encoded.Err? {
        Refuse(c, f);
        return DefinitelyNot(Rejected(encoded.error)), false;
      }
      var bytes := encoded.value;
      var successor := Successor(c, frontier, bytes);
      if successor.Err? {
        Refuse(c, f);
        return DefinitelyNot(successor.error), false;
      }
      poisoned := true;
      r, died := Commit(c, f, bytes, successor.value);
    }

    ghost method Refuse(c: Codec, f: Frame)
      requires Valid(c)
      modifies disk`ledger
      ensures Valid(c) && disk.ledger == old(disk.ledger).(attempts := old(disk.ledger.attempts) + [Attempt(f, Never)])
    {
      hide Good;
      Noted(c, header, disk.Now(), disk.ledger, Attempt(f, Never));
      disk.ledger := disk.ledger.(attempts := disk.ledger.attempts + [Attempt(f, Never)]);
    }

    /** The steps after which nothing can be taken back with certainty. */
    method Commit(c: Codec, f: Frame, bytes: Bytes, successor: Frontier) returns (r: Outcome, died: bool)
      requires Valid(c) && poisoned
      requires frontier == FrontierAfter(c, header, disk.ledger.frames) && disk.segment == SegmentBytes(c, header, disk.ledger.frames)
      requires f.device == header.device && f.sequence == frontier.next
      requires EncodeFrame(c, f) == Ok(bytes) && Successor(c, frontier, bytes) == Ok(successor)
      modifies this, disk
      ensures Valid(c)
      ensures var l := old(disk.ledger);
        if died || r.OutcomeUnknown? then
          poisoned && disk.ledger.attempts == l.attempts + [Attempt(f, Unsure)]
          && (disk.ledger.frames == l.frames || disk.ledger.frames == l.frames + [f])
        else
          !poisoned && r == Appended(f.sequence) && disk.ledger == Ledger(l.frames + [f], |l.frames| + 1, l.attempts + [Attempt(f, Kept)])
      ensures disk.faults >= old(disk.faults) && (r.OutcomeUnknown? ==> died || disk.faults > old(disk.faults)) && !r.DefinitelyNot?
    {
      hide EncodeFrame, FrontierAfter, SegmentBytes, EncodeFrontier, Advance, Good, Explains, Encoded;
      r := OutcomeUnknown;
      ghost var l := disk.ledger;
      Ready(c, header, disk.Now(), l, f, bytes, frontier, successor);
      Noted(c, header, disk.Now(), l, Attempt(f, Unsure));
      disk.ledger := l.(attempts := l.attempts + [Attempt(f, Unsure)]);
      ghost var d := disk.Now();
      var written := disk.WriteSegment(bytes);
      Written(c, header, d, disk.ledger, disk.segment, disk.synced);
      died := *;
      if died || !written {
        return;
      }
      d := disk.Now();
      var synced := disk.SyncSegment();
      Written(c, header, d, disk.ledger, disk.segment, disk.synced);
      died := *;
      if died || !synced {
        return;
      }
      r, died := PublishFrontier(c, f, bytes, successor, l);
    }

    /** Replaces the frontier, makes the replacement durable, and reads it back. */
    method PublishFrontier(c: Codec, f: Frame, bytes: Bytes, successor: Frontier, ghost l: Ledger) returns (r: Outcome, died: bool)
      requires Faithful(c) && poisoned && Good(c, header, disk.Now(), disk.ledger)
      requires disk.ledger == l.(attempts := l.attempts + [Attempt(f, Unsure)]) && Committed(c, header, l.frames)
      requires Explains(l.attempts, header.base, l.frames, l.durable) && l.durable <= |l.frames|
      requires disk.synced == disk.segment == SegmentBytes(c, header, l.frames) + bytes
      requires successor == Advance(c, FrontierAfter(c, header, l.frames), bytes)
      requires EncodeFrame(c, f).Ok? && Encoded(c, f) == bytes && Admit(header.device, header.base + |l.frames|, f).None?
      modifies this, disk
      ensures Valid(c)
      ensures
        if died || r.OutcomeUnknown? then
          poisoned && disk.ledger.attempts == l.attempts + [Attempt(f, Unsure)]
          && (disk.ledger.frames == l.frames || disk.ledger.frames == l.frames + [f])
        else
          !poisoned && r == Appended(f.sequence) && disk.ledger == Ledger(l.frames + [f], |l.frames| + 1, l.attempts + [Attempt(f, Kept)])
      ensures disk.faults >= old(disk.faults) && (r.OutcomeUnknown? ==> died || disk.faults > old(disk.faults)) && !r.DefinitelyNot?
    {
      hide EncodeFrame, FrontierAfter, SegmentBytes, EncodeFrontier, Advance, Good, Explains, Encoded, Committed;
      r := OutcomeUnknown;
      ghost var d := disk.Now();
      GoodBound(c, header, d, disk.ledger);
      Replaced(c, header, d, disk.ledger, f, l.attempts);
      ghost var done;
      var replaced;
      replaced, done := disk.ReplaceFrontier(EncodeFrontier(c, successor));
      if done {
        disk.ledger := disk.ledger.(frames := l.frames + [f]);
      }
      died := *;
      if died || !replaced {
        return;
      }
      d := disk.Now();
      var barrier := disk.SyncDirectory();
      died := *;
      if !barrier {
        return;
      }
      ghost var unsure := disk.ledger;
      GoodExplains(c, header, d, unsure);
      MoreDurable(unsure.attempts, header.base, unsure.frames, unsure.durable, |unsure.frames|);
      Barrier(c, header, d, unsure, unsure.attempts);
      disk.ledger := Ledger(unsure.frames, |unsure.frames|, unsure.attempts);
      var verified := disk.VerifyFrontier(EncodeFrontier(c, successor));
      if died || !verified {
        return;
      }
      KeptNow(l.attempts, header.base, l.frames, l.durable, f);
      Barrier(c, header, disk.Now(), disk.ledger, l.attempts + [Attempt(f, Kept)]);
      disk.ledger := Ledger(l.frames + [f], |l.frames| + 1, l.attempts + [Attempt(f, Kept)]);
      OneMoreFrame(c, header, l.frames, f);
      frontier, poisoned := successor, false;
      return Appended(f.sequence), false;
    }
  }

  lemma GoodExplains(c: Codec, h: SegmentHeader, d: Image, l: Ledger)
    requires Good(c, h, d, l)
    ensures Explains(l.attempts, h.base, l.frames, l.durable) && l.durable <= |l.frames|
  {
  }

  /** What an append may rely on once its checks have passed. */
  lemma Ready(c: Codec, h: SegmentHeader, d: Image, l: Ledger, f: Frame, bytes: Bytes, at: Frontier, successor: Frontier)
    requires Faithful(c) && Good(c, h, d, l)
    requires at == FrontierAfter(c, h, l.frames) && d.segment == SegmentBytes(c, h, l.frames)
    requires f.device == h.device && f.sequence == at.next
    requires EncodeFrame(c, f) == Ok(bytes) && Successor(c, at, bytes) == Ok(successor)
    ensures Encoded(c, f) == bytes && successor == Advance(c, at, bytes) && d.synced == d.segment
    ensures f.sequence == h.base + |l.frames| && Admit(h.device, h.base + |l.frames|, f).None?
    ensures |d.segment| + |bytes| <= MAX_SEGMENT_BYTES
    ensures Explains(l.attempts, h.base, l.frames, l.durable) && l.durable <= |l.frames| && Committed(c, h, l.frames)
  {
    hide EncodeFrame, EncodeFrontier, Explains, WasFrontier, SegmentBytes;
    FrontierSays(c, h, l.frames);
  }

  // ----- reopening -----

  /** The frames selected by the two files, or why they are refused. */
  function Select(c: Codec, h: SegmentHeader, segment: Bytes, frontier: Bytes): Result<seq<Frame>, JournalError> {
    if |segment| < HEADER_BYTES then Err(Corrupt)
    else match DecodeHeader(c, segment[..HEADER_BYTES])
      case Err(e) => Err(e)
      case Ok(found) =>
        if found != h then Err(Corrupt)
        else match DecodeFrontier(c, frontier)
          case Err(e) => Err(e)
          case Ok(f) => if f.header != h then Err(Corrupt) else ScanPrefix(c, segment, f)
  }

  lemma SelectExtent(c: Codec, h: SegmentHeader, segment: Bytes, frontier: Bytes)
    requires Select(c, h, segment, frontier).Ok?
    ensures DecodeFrontier(c, frontier).Ok? && HEADER_BYTES <= DecodeFrontier(c, frontier).value.extent <= |segment|
  {
    hide InspectFrom, DecodeHeader, DecodeFrontier;
  }

  /** Whatever the protocol and crashes leave behind is accepted, and means the ledger's frames. */
  lemma NeverRejected(c: Codec, h: SegmentHeader, d: Image, l: Ledger)
    requires Faithful(c) && Good(c, h, d, l)
    ensures Select(c, h, d.segment, d.frontier) == Ok(l.frames)
    ensures DecodeFrontier(c, d.frontier) == Ok(FrontierAfter(c, h, l.frames))
  {
    hide DecodeHeader, EncodeHeader, DecodeFrontier, EncodeFrontier, ScanPrefix, FrontierAfter, Consecutive, WasFrontier, Explains;
    var f := FrontierAfter(c, h, l.frames);
    HeaderRoundTrip(c, h);
    FrontierSays(c, h, l.frames);
    FrontierRoundTrip(c, f);
    FrontierSelects(c, h, l.frames, d.segment);
    assert d.segment[..HEADER_BYTES] == EncodeHeader(c, h);
  }

  /** Every disk a crash may leave selects these frames. */
  ghost predicate Survives(c: Codec, h: SegmentHeader, d: Image, frames: seq<Frame>) {
    forall segment: Bytes, b: Bytes :: d.synced <= segment && |segment| <= MAX_SEGMENT_BYTES && (b == d.frontier || b in d.revertible) ==>
      Select(c, h, segment, b) == Ok(frames)
  }

  /**
   Reopening does not sync the directory, so what it replays survives every crash if
   and only if no other frontier is still waiting to be made durable.
   */
  lemma SurvivesWhenSynced(c: Codec, h: SegmentHeader, d: Image, l: Ledger)
    requires Faithful(c) && Good(c, h, d, l)
    ensures Survives(c, h, d, l.frames) <==> d.revertible <= {d.frontier}
  {
    hide Good, Select, Committed, SegmentBytes, FrontierAfter, EncodeFrontier, DecodeFrontier;
    if d.revertible <= {d.frontier} {
      forall segment: Bytes, b: Bytes | d.synced <= segment && |segment| <= MAX_SEGMENT_BYTES && (b == d.frontier || b in d.revertible)
        ensures Select(c, h, segment, b) == Ok(l.frames)
      {
        assert b == d.frontier;
        GoodWithTail(c, h, d, l, segment);
        NeverRejected(c, h, d.(segment := segment, synced := segment), l);
      }
    } else {
      var b :| b in d.revertible && b != d.frontier;
      var k := Crashed(c, h, d, l, d.synced, b) by {
        GoodBound(c, h, d, l);
        GoodPrefix(c, h, d, l);
      }
      GoodFrontier(c, h, d, l);
      assert k != |l.frames| by {
        GoodFrontier(c, h, Image(d.synced, d.synced, b, {}), Ledger(l.frames[..k], k, l.attempts));
        assert l.frames[..|l.frames|] == l.frames;
      }
      NeverRejected(c, h, Image(d.synced, d.synced, b, {}), Ledger(l.frames[..k], k, l.attempts));
      GoodBound(c, h, d, l);
      GoodPrefix(c, h, d, l);
      assert Select(c, h, d.synced, b) == Ok(l.frames[..k]);
    }
  }

  /** The disk after the first append of a generation, cut short between the frontier's replacement and its barrier. */
  function Unsynced(c: Codec, h: SegmentHeader, f: Frame): Image {
    var segment := SegmentBytes(c, h, []) + Encoded(c, f);
    Image(segment, segment, EncodeFrontier(c, Advance(c, Initial(h), Encoded(c, f))), {EncodeFrontier(c, Initial(h))})
  }

  /** A reopening replays the frame of that append, and a crash after the reopening loses it. */
  lemma ReplayedThenLost(c: Codec, h: SegmentHeader, f: Frame)
    requires Faithful(c) && SizedHeader(h) && EncodeFrame(c, f).Ok? && Admit(h.device, h.base, f).None?
    requires HEADER_BYTES + |Encoded(c, f)| <= MAX_SEGMENT_BYTES
    ensures var d := Unsynced(c, h, f);
      && Good(c, h, d, Ledger([f], 0, [Attempt(f, Unsure)]))
      && Select(c, h, d.segment, d.frontier) == Ok([f]) && !Survives(c, h, d, [f])
      && Select(c, h, d.segment, EncodeFrontier(c, Initial(h))) == Ok([])
  {
    hide Good, Explains, EncodeFrontier, EncodeHeader, Select, Advance, Encoded, DecodeFrontier, FrontierAfter;
    var first, segment := EncodeHeader(c, h), SegmentBytes(c, h, []) + Encoded(c, f);
    var d, l := Image(first, first, EncodeFrontier(c, Initial(h)), {}), Ledger([], 0, []);
    FreshIsGood(c, h);
    HeaderRoundTrip(c, h);
    assert SegmentBytes(c, h, []) == first;
    Noted(c, h, d, l, Attempt(f, Unsure));
    var tried := Ledger([], 0, [] + [Attempt(f, Unsure)]);
    Written(c, h, d, tried, segment, segment);
    var full := d.(segment := segment, synced := segment);
    GoodExplains(c, h, d, l);
    InitialAfter(c, h);
    Replaced(c, h, full, tried, f, []);
    var after, done := Unsynced(c, h, f), Ledger([f], 0, [Attempt(f, Unsure)]);
    assert {} + {EncodeFrontier(c, Initial(h))} == {EncodeFrontier(c, Initial(h))};
    assert [] + [f] == [f] && [] + [Attempt(f, Unsure)] == [Attempt(f, Unsure)];
    NeverRejected(c, h, full, tried);
    NeverRejected(c, h, after, done);
    SurvivesWhenSynced(c, h, after, done);
  }

  lemma InitialAfter(c: Codec, h: SegmentHeader)
    ensures FrontierAfter(c, h, []) == Initial(h)
  {
  }

  lemma GoodFrontier(c: Codec, h: SegmentHeader, d: Image, l: Ledger)
    requires Good(c, h, d, l)
    ensures d.frontier == EncodeFrontier(c, FrontierAfter(c, h, l.frames))
  {
  }

  lemma GoodWithTail(c: Codec, h: SegmentHeader, d: Image, l: Ledger, segment: Bytes)
    requires Good(c, h, d, l) && d.synced <= segment && |segment| <= MAX_SEGMENT_BYTES
    ensures Good(c, h, d.(segment := segment, synced := segment), l)
  {
    hide Committed, SegmentBytes, FrontierAfter, EncodeFrontier, Explains, WasFrontier;
  }

  lemma InspectStep(c: Codec, device: Bytes, next: nat, rest: Bytes, frames: seq<Frame>)
    requires ReadCompleteFrame(c, rest).Ok? && Admit(device, next, ReadCompleteFrame(c, rest).value.frame).None?
    ensures var read := ReadCompleteFrame(c, rest).value;
      && MIN_FRAME_BYTES <= read.length <= |rest|
      && FoundAll(frames, InspectFrom(c, device, next, rest))
         == FoundAll(frames + [read.frame], InspectFrom(c, device, next + 1, rest[read.length..]))
  {
    hide ReadCompleteFrame, Admit;
    ReadLength(c, rest);
    var read := ReadCompleteFrame(c, rest).value;
    var r := InspectFrom(c, device, next + 1, rest[read.length..]);
    if r.Ok? {
      assert frames + ([read.frame] + r.value.frames) == frames + [read.frame] + r.value.frames;
    }
  }

  /** The scan loop, frame by frame up to the committed extent. */
  method ScanV2Prefix(c: Codec, file: Bytes, f: Frontier) returns (r: Result<seq<Frame>, JournalError>)
    ensures r == ScanPrefix(c, file, f)
  {
    hide ReadCompleteFrame, Admit, TerminalFits;
    if |file| > MAX_SEGMENT_BYTES {
      return Err(TooLarge);
    }
    if f.extent < HEADER_BYTES || f.extent > MAX_SEGMENT_BYTES || |file| < f.extent {
      return Err(Corrupt);
    }
    ghost var region := file[HEADER_BYTES..f.extent];
    var offset, next, frames := HEADER_BYTES, f.header.base, [];
    assert region[0..] == region;
    FoundNone(InspectFrom(c, f.header.device, f.header.base, region));
    while offset < f.extent
      invariant HEADER_BYTES <= offset <= f.extent
      invariant FoundAll(frames, InspectFrom(c, f.header.device, next, file[offset..f.extent])) == InspectFrom(c, f.header.device, f.header.base, region)
      decreases f.extent - offset
    {
      var rest := file[offset..f.extent];
      var read := ReadCompleteFrame(c, rest);
      InspectStops(c, f.header.device, next, rest);
      if read.Err? {
        return Err(if read.error.Ambiguous? then Corrupt else read.error);
      }
      var refused := Admit(f.header.device, next, read.value.frame);
      if refused.Some? {
        return Err(if refused.value.Ambiguous? then Corrupt else refused.value);
      }
      InspectStep(c, f.header.device, next, rest, frames);
      assert rest[read.value.length..] == file[offset + read.value.length..f.extent];
      offset, next, frames := offset + read.value.length, next + 1, frames + [read.value.frame];
    }
    assert frames + [] == frames;
    return if next != f.next || !TerminalFits(c, f, frames) then Err(Corrupt) else Ok(frames);
  }

  lemma InspectStops(c: Codec, device: Bytes, next: nat, rest: Bytes)
    requires |rest| > 0
    ensures var read, r := ReadCompleteFrame(c, rest), InspectFrom(c, device, next, rest);
      && (read.Err? ==> r.Err? && (if r.error.Ambiguous? then Corrupt else r.error) == (if read.error.Ambiguous? then Corrupt else read.error))
      && (read.Ok? && Admit(device, next, read.value.frame).Some? ==> r == Err(Admit(device, next, read.value.frame).value))
  {
  }

  /** Opens the selected generation, cutting off what the frontier does not commit. */
  method OpenSelected(c: Codec, disk: Disk, h: SegmentHeader) returns (error: Option<JournalError>, handle: SegmentV2?, frames: seq<Frame>)
    requires Faithful(c) && disk.synced <= disk.segment
    modifies disk
    ensures disk.ledger == old(disk.ledger)
    ensures Select(c, h, old(disk.segment), old(disk.frontier)).Err? ==>
      error == Some(Select(c, h, old(disk.segment), old(disk.frontier)).error) && disk.Now() == old(disk.Now())
    ensures Select(c, h, old(disk.segment), old(disk.frontier)).Ok? ==> error.None? || error == Some(Io)
    ensures old(Good(c, h, disk.Now(), disk.ledger)) ==> Good(c, h, disk.Now(), disk.ledger) && (error.None? || error == Some(Io))
    ensures disk.faults >= old(disk.faults) && (error == Some(Io) && Select(c, h, old(disk.segment), old(disk.frontier)).Ok? ==> disk.faults > old(disk.faults))
    ensures error.None? ==>
      handle != null && fresh(handle) && Select(c, h, old(disk.segment), old(disk.frontier)) == Ok(frames)
    ensures error.None? && old(Good(c, h, disk.Now(), disk.ledger)) ==>
      handle.disk == disk && handle.header == h && handle.Valid(c) && !handle.poisoned && frames == disk.ledger.frames
  {
    hide Good, ScanPrefix, DecodeHeader, DecodeFrontier, SegmentBytes, FrontierAfter;
    handle, frames := null, [];
    ghost var d, l := disk.Now(), disk.ledger;
    if Good(c, h, d, l) {
      NeverRejected(c, h, d, l);
    }
    if |disk.segment| < HEADER_BYTES {
      return Some(Corrupt), null, [];
    }
    var header := DecodeHeader(c, disk.segment[..HEADER_BYTES]);
    if header.Err? {
      return Some(header.error), null, [];
    }
    if header.value != h {
      return Some(Corrupt), null, [];
    }
    var decoded := DecodeFrontier(c, disk.frontier);
    if decoded.Err? {
      return Some(decoded.error), null, [];
    }
    var f := decoded.value;
    if f.header != h {
      return Some(Corrupt), null, [];
    }
    var scanned := ScanV2Prefix(c, disk.segment, f);
    if scanned.Err? {
      return Some(scanned.error), null, [];
    }
    SelectExtent(c, h, disk.segment, disk.frontier);
    ghost var shorter := d.(segment := d.segment[..f.extent], synced := if |d.synced| <= f.extent then d.synced else d.synced[..f.extent]);
    if Good(c, h, d, l) {
      CutGood(c, h, d, l);
      assert Good(c, h, shorter, l) && shorter.segment == shorter.synced;
    }
    if |disk.segment| > f.extent {
      var cut := disk.TruncateSegment(f.extent);
      assert disk.Now() == d || disk.Now() == shorter;
      if !cut {
        return Some(Io), null, [];
      }
      assert disk.Now() == shorter;
      var synced := disk.SyncSegment();
      assert Good(c, h, d, l) ==> disk.Now() == shorter;
      if !synced {
        return Some(Io), null, [];
      }
    }
    handle := new SegmentV2(disk, h, f);
    return None, handle, scanned.value;
  }

  /** Cutting the segment at the frontier's extent, synced or not, loses nothing committed. */
  lemma CutGood(c: Codec, h: SegmentHeader, d: Image, l: Ledger)
    requires Faithful(c) && Good(c, h, d, l)
    ensures var n := FrontierAfter(c, h, l.frames).extent;
      && n <= |d.synced| && d.synced[..n] == d.segment[..n] == SegmentBytes(c, h, l.frames)
      && Good(c, h, d.(segment := d.segment[..n], synced := d.synced[..n]), l)
      && (|d.segment| == n ==> d.segment == d.synced == d.segment[..n])
  {
    hide WasFrontier, Explains, Committed, EncodeFrontier;
    FrontierSays(c, h, l.frames);
  }

  // ----- whole runs -----

  datatype Event = Try(kind: nat, payload: Bytes) | Reopen | PowerLoss

  /** What a run answered to an event: nothing was open, an append was answered or cut short, an opening replayed or failed. */
  datatype Entry = Closed | Tried(frame: Frame, answer: Option<Outcome>) | Opened(frames: seq<Frame>) | Failed | Lost

  /** Whether a handle is open after these entries. */
  predicate Live(trace: seq<Entry>)
    decreases |trace|
  {
    |trace| > 0 &&
    match Last(trace)
    case Opened(_) => true
    case Tried(_, answer) => answer.Some? && Live(trace[..|trace| - 1])
    case _ => false
  }

  function FateOf(answer: Option<Outcome>): Fate {
    if answer.None? || answer.value.OutcomeUnknown? then Unsure
    else if answer.value.DefinitelyNot? then Never
    else Kept
  }

  /** The attempts these entries made: one for each append tried. */
  function AttemptsOf(trace: seq<Entry>): seq<Attempt>
    decreases |trace|
  {
    if |trace| == 0 then []
    else
      AttemptsOf(trace[..|trace| - 1])
      + if Last(trace).Tried? then [Attempt(Last(trace).frame, FateOf(Last(trace).answer))] else []
  }

  /** The frames that the open handle knows to be committed. */
  function OpenFrames(trace: seq<Entry>): seq<Frame>
    decreases |trace|
  {
    if |trace| == 0 then []
    else match Last(trace)
      case Opened(frames) => frames
      case Tried(f, answer) => OpenFrames(trace[..|trace| - 1]) + if answer.Some? && answer.value.Appended? then [f] else []
      case _ => OpenFrames(trace[..|trace| - 1])
  }

  /** An append has been left unsure since the last opening. */
  predicate Poisoned(trace: seq<Entry>)
    decreases |trace|
  {
    |trace| > 0 &&
    match Last(trace)
    case Opened(_) => false
    case Tried(_, answer) => answer == Some(OutcomeUnknown) || Poisoned(trace[..|trace| - 1])
    case _ => Poisoned(trace[..|trace| - 1])
  }

  /**
   An entry that may answer the event: an append with an open handle is tried with that kind
   and payload, at the next sequence; it is refused exactly when an earlier one was left
   unsure, or the frame cannot be encoded or committed after the frames so far.
   */
  predicate Answers(c: Codec, h: SegmentHeader, e: Event, before: seq<Entry>, t: Entry) {
    match e
    case Try(kind, payload) =>
      if Live(before) then
        && t.Tried? && t.frame.device == h.device && t.frame.kind == kind && t.frame.payload == payload
        && (!Poisoned(before) ==> t.frame.sequence == h.base + |OpenFrames(before)|)
        && (t.answer.Some? ==>
            && (t.answer.value.Appended? ==> t.answer.value.sequence == t.frame.sequence)
            && var no := if Poisoned(before) then Some(JournalError.Poisoned) else Refusal(c, h, OpenFrames(before), t.frame);
              && (t.answer.value.DefinitelyNot? <==> no.Some?)
              && (t.answer.value.DefinitelyNot? ==> Some(t.answer.value.error) == no))
      else t.Closed?
    case Reopen => t.Opened? || t.Failed?
    case PowerLoss => t.Lost?
  }

  predicate Follows(c: Codec, h: SegmentHeader, events: seq<Event>, trace: seq<Entry>) {
    && |trace| == |events|
    && forall n :: 0 <= n < |trace| ==> Answers(c, h, events[n], trace[..n], trace[n])
  }

  /**
   The frames replayed after `made` attempts hold every frame whose append had been
   confirmed, at its sequence and with its payload; nothing refused; each unconfirmed
   attempt once at most.
   */
  ghost predicate Truthful(h: seq<Attempt>, base: nat, frames: seq<Frame>, made: nat) {
    && made <= |h|
    && (exists m :: Accounts(h[..made], base, frames, m))
    && (forall i :: 0 <= i < made && h[i].fate.Kept? ==>
        base <= h[i].frame.sequence < base + |frames| && frames[h[i].frame.sequence - base] == h[i].frame)
  }

  lemma ReplayIsTruthful(h: seq<Attempt>, base: nat, frames: seq<Frame>, durable: nat)
    requires Explains(h, base, frames, durable)
    ensures Truthful(h, base, frames, |h|)
  {
    hide Explains, Accounts;
    assert h[..|h|] == h;
    var m := Accounted(h, base, frames, durable);
    forall i | 0 <= i < |h| && h[i].fate.Kept?
      ensures base <= h[i].frame.sequence < base + |frames| && frames[h[i].frame.sequence - base] == h[i].frame
    {
      KeptIsReplayed(h, base, frames, durable, i);
    }
  }

  lemma TruthfulLater(h: seq<Attempt>, more: seq<Attempt>, base: nat, frames: seq<Frame>, made: nat)
    requires Truthful(h, base, frames, made)
    ensures Truthful(h + more, base, frames, made)
  {
    hide Accounts;
    assert (h + more)[..made] == h[..made];
  }

  /** Every opening replayed the truth about the attempts made before it. */
  ghost predicate AllTruthful(base: nat, trace: seq<Entry>) {
    forall n :: 0 <= n < |trace| && trace[n].Opened? ==>
      Truthful(AttemptsOf(trace), base, trace[n].frames, |AttemptsOf(trace[..n])|)
  }

  /** Nothing fails and nothing stays unsure. */
  predicate AllWell(trace: seq<Entry>) {
    forall t :: t in trace ==> !t.Failed? && (t.Tried? ==> t.answer != Some(OutcomeUnknown))
  }

  lemma OneMoreEntry(c: Codec, h: SegmentHeader, events: seq<Event>, trace: seq<Entry>, e: Event, t: Entry)
    requires Follows(c, h, events, trace) && AllTruthful(h.base, trace) && Answers(c, h, e, trace, t)
    requires t.Opened? ==> Truthful(AttemptsOf(trace), h.base, t.frames, |AttemptsOf(trace)|)
    ensures Follows(c, h, events + [e], trace + [t]) && AllTruthful(h.base, trace + [t])
    ensures AttemptsOf(trace + [t]) == AttemptsOf(trace) + if t.Tried? then [Attempt(t.frame, FateOf(t.answer))] else []
  {
    hide Truthful, Answers;
    var next := trace + [t];
    assert next[..|trace|] == trace;
    var more := if t.Tried? then [Attempt(t.frame, FateOf(t.answer))] else [];
    assert AttemptsOf(next) == AttemptsOf(trace) + more;
    forall n | 0 <= n < |next| ensures Answers(c, h, (events + [e])[n], next[..n], next[n]) {
      assert n < |trace| ==> next[..n] == trace[..n];
    }
    forall n | 0 <= n < |next| && next[n].Opened?
      ensures Truthful(AttemptsOf(next), h.base, next[n].frames, |AttemptsOf(next[..n])|)
    {
      assert next[..n] == trace[..n];
      TruthfulLater(AttemptsOf(trace), more, h.base, next[n].frames, |AttemptsOf(trace[..n])|);
    }
  }

  /** The handle is what the trace says. */
  ghost predicate Tracks(c: Codec, h: SegmentHeader, disk: Disk, handle: SegmentV2?, trace: seq<Entry>)
    reads disk, handle
  {
    && (handle != null <==> Live(trace))
    && (handle != null ==>
        && handle.disk == disk && handle.header == h && handle.Valid(c) && handle.poisoned == Poisoned(trace)
        && (!handle.poisoned ==> disk.ledger.frames == OpenFrames(trace)))
  }

  lemma NextEntry(trace: seq<Entry>, t: Entry)
    ensures Live(trace + [t]) <==> t.Opened? || (t.Tried? && t.answer.Some? && Live(trace))
    ensures t.Opened? ==> !Poisoned(trace + [t]) && OpenFrames(trace + [t]) == t.frames
    ensures t.Tried? ==>
      && (Poisoned(trace + [t]) <==> t.answer == Some(OutcomeUnknown) || Poisoned(trace))
      && OpenFrames(trace + [t]) == OpenFrames(trace) + if t.answer.Some? && t.answer.value.Appended? then [t.frame] else []
  {
    assert (trace + [t])[..|trace|] == trace;
  }

  lemma NextSequence(c: Codec, h: SegmentHeader, d: Image, l: Ledger)
    requires Faithful(c) && Good(c, h, d, l)
    ensures FrontierAfter(c, h, l.frames).next == h.base + |l.frames|
  {
    hide FrontierAfter, Committed;
    FrontierSays(c, h, l.frames);
  }

  /** Tries one append; power may be lost in the middle of it. */
  method TryAppend(c: Codec, disk: Disk, h: SegmentHeader, handle: SegmentV2, kind: nat, payload: Bytes, ghost trace: seq<Entry>)
    returns (next: SegmentV2?, t: Entry)
    requires Good(c, h, disk.Now(), disk.ledger) && Tracks(c, h, disk, handle, trace)
    modifies disk, handle
    ensures Good(c, h, disk.Now(), disk.ledger) && (next == null || next == handle) && Tracks(c, h, disk, next, trace + [t])
    ensures Answers(c, h, Try(kind, payload), trace, t)
    ensures t.Tried? && disk.ledger.attempts == old(disk.ledger.attempts) + [Attempt(t.frame, FateOf(t.answer))]
    ensures disk.faults >= old(disk.faults) && (t.answer == Some(OutcomeUnknown) ==> disk.faults > old(disk.faults))
  {
    hide Good, Explains, Refusal, FrontierAfter, OpenFrames, Poisoned, Live;
    NextSequence(c, h, disk.Now(), disk.ledger);
    var f := Frame(h.device, handle.frontier.next, kind, payload);
    var r, died := handle.Append(c, kind, payload);
    t := Tried(f, if died then None else Some(r));
    NextEntry(trace, t);
    next := handle;
    if died {
      disk.Crash(c, h);
      next := null;
    }
  }

  /** Opens again what the disk holds. */
  method OpenAgain(c: Codec, disk: Disk, h: SegmentHeader) returns (next: SegmentV2?, t: Entry)
    requires Faithful(c) && Good(c, h, disk.Now(), disk.ledger)
    modifies disk
    ensures Good(c, h, disk.Now(), disk.ledger) && disk.ledger == old(disk.ledger)
    ensures if t.Opened? then
        && next != null && fresh(next) && next.disk == disk && next.header == h && next.Valid(c)
        && !next.poisoned && disk.ledger.frames == t.frames
      else t.Failed? && next == null
    ensures t.Opened? ==> Truthful(disk.ledger.attempts, h.base, t.frames, |disk.ledger.attempts|)
    ensures disk.faults >= old(disk.faults) && (t.Failed? ==> disk.faults > old(disk.faults))
  {
    hide Good, Explains, Truthful, Select, FrontierAfter;
    GoodBound(c, h, disk.Now(), disk.ledger);
    GoodPrefix(c, h, disk.Now(), disk.ledger);
    NeverRejected(c, h, disk.Now(), disk.ledger);
    var error, again, frames := OpenSelected(c, disk, h);
    if error.Some? {
      return null, Failed;
    }
    GoodExplains(c, h, disk.Now(), disk.ledger);
    ReplayIsTruthful(disk.ledger.attempts, h.base, frames, disk.ledger.durable);
    return again, Opened(frames);
  }

  /** One event. */
  method Serve(c: Codec, disk: Disk, h: SegmentHeader, handle: SegmentV2?, e: Event, ghost trace: seq<Entry>) returns (next: SegmentV2?, t: Entry)
    requires Faithful(c) && Good(c, h, disk.Now(), disk.ledger) && Tracks(c, h, disk, handle, trace)
    modifies disk, handle
    ensures Good(c, h, disk.Now(), disk.ledger) && Tracks(c, h, disk, next, trace + [t])
    ensures next != null ==> next == handle || fresh(next)
    ensures Answers(c, h, e, trace, t)
    ensures disk.ledger.attempts == old(disk.ledger.attempts) + if t.Tried? then [Attempt(t.frame, FateOf(t.answer))] else []
    ensures t.Opened? ==> Truthful(old(disk.ledger.attempts), h.base, t.frames, |old(disk.ledger.attempts)|)
    ensures disk.faults >= old(disk.faults)
    ensures t.Failed? || (t.Tried? && t.answer == Some(OutcomeUnknown)) ==> disk.faults > old(disk.faults)
  {
    hide Good, Truthful, OpenFrames, Poisoned, Live, Refusal, FrontierAfter;
    match e {
      case Try(kind, payload) =>
        if handle == null {
          NextEntry(trace, Closed);
          return null, Closed;
        }
        next, t := TryAppend(c, disk, h, handle, kind, payload, trace);
      case Reopen =>
        next, t := OpenAgain(c, disk, h);
        NextEntry(trace, t);
      case PowerLoss =>
        disk.Crash(c, h);
        NextEntry(trace, Lost);
        return null, Lost;
    }
  }

  lemma GoodPrefix(c: Codec, h: SegmentHeader, d: Image, l: Ledger)
    requires Good(c, h, d, l)
    ensures d.synced <= d.segment
  {
  }

  /**
   Over any run of appends, failures, crashes and reopenings: every event is answered,
   the attempts are those of the trace, and every opening replays the truth about the
   attempts before it. Openings fail and appends stay unsure only when the disk fails.
   */
  method Run(c: Codec, h: SegmentHeader, events: seq<Event>) returns (disk: Disk, trace: seq<Entry>)
    requires Faithful(c) && SizedHeader(h)
    ensures Good(c, h, disk.Now(), disk.ledger)
    ensures Follows(c, h, events, trace) && disk.ledger.attempts == AttemptsOf(trace) && AllTruthful(h.base, trace)
    ensures disk.faults == 0 ==> AllWell(trace)
  {
    hide Good, AllTruthful, Follows, Answers, AttemptsOf, Truthful, OpenFrames, Poisoned, Live;
    disk := new Disk(c, h);
    var handle: SegmentV2? := null;
    trace := [];
    NothingYet(c, h);
    for n := 0 to |events|
      invariant fresh(disk) && Good(c, h, disk.Now(), disk.ledger)
      invariant (handle != null ==> fresh(handle)) && Tracks(c, h, disk, handle, trace)
      invariant Follows(c, h, events[..n], trace) && AllTruthful(h.base, trace)
      invariant disk.ledger.attempts == AttemptsOf(trace) && (disk.faults == 0 ==> AllWell(trace))
    {
      var t;
      handle, t := Serve(c, disk, h, handle, events[n], trace);
      OneMoreEntry(c, h, events[..n], trace, events[n], t);
      assert events[..n + 1] == events[..n] + [events[n]];
      trace := trace + [t];
    }
    assert events[..|events|] == events;
  }

  lemma NothingYet(c: Codec, h: SegmentHeader)
    ensures Follows(c, h, [], []) && AttemptsOf([]) == [] && AllTruthful(h.base, []) && !Live([])
  {
  }
}
