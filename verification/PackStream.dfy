/**
 Compaction without holding the packs: sorted cursors merged through a heap, planned
 as shapes first and cut by ordinal afterwards, to the same packs as in memory.
 */
module PackStream {
  import opened Wrappers
  import opened KeyBits
  import opened KeyOrder
  import opened SortedRecords
  import opened PackLimits
  import opened PackTiers

  /** What the cursors have still to yield. */
  type Cursors = seq<Pack>

  function Remaining(cursors: Cursors): nat {
    if |cursors| == 0 then 0 else |cursors[0]| + Remaining(cursors[1..])
  }

  /** A cursor that is not at its end and has the least digest; the first such. */
  function LeastFrom(cursors: Cursors, i: nat, best: Option<nat>): (at: Option<nat>)
    requires i <= |cursors| && (best.Some? ==> best.value < i && cursors[best.value] != [])
    ensures at.Some? ==> at.value < |cursors| && cursors[at.value] != []
    decreases |cursors| - i
  {
    if i == |cursors| then best
    else if cursors[i] != [] && (best.None? || Less(cursors[i][0].key, cursors[best.value][0].key)) then
      LeastFrom(cursors, i + 1, Some(i))
    else LeastFrom(cursors, i + 1, best)
  }

  predicate AtDigest(p: Pack, d: Bytes) {
    |p| > 0 && p[0].key == d
  }

  /** Every cursor at a digest moves on. */
  function Advance(cursors: Cursors, d: Bytes): (next: Cursors)
    ensures |next| == |cursors|
  {
    seq(|cursors|, i requires 0 <= i < |cursors| => if AtDigest(cursors[i], d) then cursors[i][1..] else cursors[i])
  }

  lemma {:induction false} AdvanceShrinks(cursors: Cursors, d: Bytes, at: nat)
    requires at < |cursors| && AtDigest(cursors[at], d)
    ensures Remaining(Advance(cursors, d)) < Remaining(cursors)
  {
    assert Advance(cursors, d)[1..] == Advance(cursors[1..], d);
    if at > 0 {
      AdvanceShrinks(cursors[1..], d, at - 1);
      NeverMore(cursors, d);
    } else {
      NeverMore(cursors[1..], d);
    }
  }

  lemma {:induction false} NeverMore(cursors: Cursors, d: Bytes)
    ensures Remaining(Advance(cursors, d)) <= Remaining(cursors)
  {
    if |cursors| > 0 {
      assert Advance(cursors, d)[1..] == Advance(cursors[1..], d);
      NeverMore(cursors[1..], d);
    }
  }

  /** The entries at a digest all carry the same bytes. */
  predicate Agree(cursors: Cursors, e: Entry) {
    forall i :: 0 <= i < |cursors| && AtDigest(cursors[i], e.key) ==> cursors[i][0].value == e.value
  }

  /** One unique entry after the other, equal duplicates falling together. */
  function Stream(cursors: Cursors): Result<Pack, PackError>
    decreases Remaining(cursors)
  {
    var at := LeastFrom(cursors, 0, None);
    if at.None? then Ok([])
    else
      var e := cursors[at.value][0];
      AdvanceShrinks(cursors, e.key, at.value);
      if !Agree(cursors, e) then Err(PathMismatch(e.key))
      else match Stream(Advance(cursors, e.key))
        case Err(x) => Err(x)
        case Ok(es) => Ok([e] + es)
  }

  /** A planned output pack: where it starts in the stream, and its extent. */
  datatype Shape = Shape(start: nat, entries: nat, payload: nat)

  function ShapeBytes(s: Shape): nat {
    PACK_HEADER_BYTES + s.entries * PACK_INDEX_ENTRY_BYTES + s.payload
  }

  /** The plan for the stream from ordinal `i`, an unfinished shape being open. */
  function ShapesFrom(es: Pack, i: nat, open: Shape): seq<Shape>
    requires i <= |es|
    decreases |es| - i
  {
    if i == |es| then (if open.entries == 0 then [] else [open])
    else
      var longer := Shape(open.start, open.entries + 1, open.payload + |es[i].value|);
      if open.entries != 0 && (longer.entries > MAX_PACK_ENTRIES || ShapeBytes(longer) > MAX_PACK_BYTES) then
        [open] + ShapesFrom(es, i + 1, Shape(i, 1, |es[i].value|))
      else ShapesFrom(es, i + 1, longer)
  }

  predicate InStream(s: Shape, es: Pack) {
    s.start + s.entries <= |es|
  }

  /** The second pass: the entries whose ordinals the shape covers. */
  function PartOf(es: Pack, s: Shape): Pack {
    if InStream(s, es) then es[s.start..s.start + s.entries] else []
  }

  function PartsOf(es: Pack, shapes: seq<Shape>): seq<Pack> {
    if |shapes| == 0 then [] else [PartOf(es, shapes[0])] + PartsOf(es, shapes[1..])
  }

  predicate ShapesStuck(shapes: seq<Shape>, selected: nat, tier: nat) {
    |shapes| >= selected && forall s :: s in shapes ==> SizeTier(ShapeBytes(s)) == tier
  }

  function PacksOf(planned: seq<Planned>): (packs: seq<Pack>)
    ensures |packs| == |planned|
  {
    seq(|planned|, i requires 0 <= i < |planned| => planned[i].pack)
  }

  function CarryTierStreaming(planned: seq<Planned>, tier: nat): Result<seq<Planned>, PackError> {
    var x := ExtractTier(planned, tier, MAX_PACKS_PER_SIZE_TIER + 1);
    match Stream(PacksOf(x.selected))
    case Err(e) => Err(e)
    case Ok(es) =>
      var shapes := ShapesFrom(es, 0, Shape(0, 0, 0));
      if ShapesStuck(shapes, |x.selected|, tier) then Err(PackTooLarge)
      else Ok(x.before + Publications(PartsOf(es, shapes)) + x.after)
  }

  function CompactStreaming(planned: seq<Planned>, carried: seq<bool>): Result<seq<Planned>, PackError>
    requires |carried| == PACK_SIZE_TIER_COUNT
    decreases TiersLeft(carried)
  {
    var tier := OverfullFrom(planned, carried, 0);
    OverfullIs(planned, carried, 0);
    if tier.None? then Ok(planned)
    else
      FewerTiersLeft(carried, tier.value);
      match CarryTierStreaming(planned, tier.value)
      case Err(e) => Err(e)
      case Ok(next) => CompactStreaming(next, carried[tier.value := true])
  }

  // ----- the shapes are the greedy cut -----

  lemma OpenGrows(es: Pack, i: nat, open: Shape)
    requires i < |es| && open.start + open.entries == i && open.payload == PayloadBytes(es[open.start..i])
    ensures PayloadBytes(es[open.start..i + 1]) == open.payload + |es[i].value|
    ensures es[open.start..i + 1] == es[open.start..i] + [es[i]]
  {
    assert es[open.start..i + 1] == es[open.start..i] + [es[i]];
    PayloadGrows(es[open.start..i], es[i]);
  }

  /** These shapes cut these parts, and know their sizes. */
  predicate Cuts(es: Pack, shapes: seq<Shape>, parts: seq<Pack>) {
    && PartsOf(es, shapes) == parts && |shapes| == |parts|
    && forall s :: s in shapes ==> InStream(s, es) && ShapeBytes(s) == PackBytes(PartOf(es, s))
  }

  lemma CutsFirst(es: Pack, s: Shape, shapes: seq<Shape>, parts: seq<Pack>)
    requires Cuts(es, shapes, parts) && InStream(s, es) && ShapeBytes(s) == PackBytes(PartOf(es, s))
    ensures Cuts(es, [s] + shapes, [PartOf(es, s)] + parts)
  {
  }

  lemma CutsNone(es: Pack)
    ensures Cuts(es, [], [])
  {
  }

  lemma LastShape(es: Pack, open: Shape)
    requires open.start + open.entries == |es| && open.payload == PayloadBytes(es[open.start..])
    ensures Cuts(es, ShapesFrom(es, |es|, open), PartitionFrom(es[open.start..], []))
  {
    hide PackBytes, PayloadBytes, Cuts, ShapeBytes;
    var chunk := es[open.start..];
    assert es[open.start..open.start + open.entries] == chunk;
    ShapeIsPack(es, open);
    CutsNone(es);
    CutsFirst(es, open, [], []);
    assert [open] + [] == [open] && [PartOf(es, open)] + [] == [chunk];
  }

  lemma {:induction false} ShapesAreParts(es: Pack, i: nat, open: Shape)
    requires i <= |es| && open.start + open.entries == i && open.payload == PayloadBytes(es[open.start..i])
    ensures Cuts(es, ShapesFrom(es, i, open), PartitionFrom(es[open.start..i], es[i..]))
    decreases |es| - i
  {
    hide PackBytes, PayloadBytes, Cuts, ShapeBytes, Ascending;
    var chunk := es[open.start..i];
    if i == |es| {
      assert es[i..] == [] && es[open.start..] == chunk;
      LastShape(es, open);
    } else {
      OpenGrows(es, i, open);
      var longer := Shape(open.start, open.entries + 1, open.payload + |es[i].value|);
      ShapeIsPack(es, longer);
      PartitionStep(es, i, chunk);
      if open.entries != 0 && (longer.entries > MAX_PACK_ENTRIES || ShapeBytes(longer) > MAX_PACK_BYTES) {
        OpenAnew(es, i);
        ShapeIsPack(es, open);
        ShapesAreParts(es, i + 1, Shape(i, 1, |es[i].value|));
        CutsFirst(es, open, ShapesFrom(es, i + 1, Shape(i, 1, |es[i].value|)), PartitionFrom([es[i]], es[i + 1..]));
      } else {
        ShapesAreParts(es, i + 1, longer);
      }
    }
  }

  lemma PartitionStep(es: Pack, i: nat, chunk: Pack)
    requires i < |es|
    ensures PartitionFrom(chunk, es[i..])
         == if |chunk| != 0 && (|chunk| + 1 > MAX_PACK_ENTRIES || PackBytes(chunk + [es[i]]) > MAX_PACK_BYTES) then
              [chunk] + PartitionFrom([es[i]], es[i + 1..])
            else PartitionFrom(chunk + [es[i]], es[i + 1..])
  {
  }

  lemma OpenAnew(es: Pack, i: nat)
    requires i < |es|
    ensures es[i..i + 1] == [es[i]] && PayloadBytes(es[i..i + 1]) == |es[i].value|
  {
  }

  lemma ShapeIsPack(es: Pack, s: Shape)
    requires InStream(s, es) && s.payload == PayloadBytes(es[s.start..s.start + s.entries])
    ensures ShapeBytes(s) == PackBytes(PartOf(es, s))
  {
  }

  /** Planning by shapes and cutting by ordinals gives the greedy cut, sizes included. */
  lemma ShapesCut(es: Pack)
    ensures Cuts(es, ShapesFrom(es, 0, Shape(0, 0, 0)), Partition(es))
  {
    hide Cuts;
    ShapesAreParts(es, 0, Shape(0, 0, 0));
    assert es[0..0] == [] && es[0..] == es;
  }

  lemma {:induction false} StuckAlike(es: Pack, shapes: seq<Shape>, tier: nat)
    requires forall s :: s in shapes ==> ShapeBytes(s) == PackBytes(PartOf(es, s))
    ensures (forall s :: s in shapes ==> SizeTier(ShapeBytes(s)) == tier) <==> (forall p :: p in PartsOf(es, shapes) ==> TierOf(p) == tier)
  {
    hide PackBytes, SizeTier, ShapeBytes, PartOf;
    if |shapes| > 0 {
      var s, rest := shapes[0], shapes[1..];
      StuckAlike(es, rest, tier);
      assert s in shapes && shapes == [s] + rest;
      var p := PartOf(es, s);
      assert PartsOf(es, shapes) == [p] + PartsOf(es, rest);
      assert TierOf(p) == SizeTier(ShapeBytes(s));
      assert p in PartsOf(es, shapes);
      assert forall q :: q in PartsOf(es, shapes) <==> q == p || q in PartsOf(es, rest);
      assert forall x :: x in shapes <==> x == s || x in rest;
    }
  }

  // ----- the stream is the merge -----

  ghost predicate Has(p: Pack, d: Bytes, v: Bytes) {
    d in RecMap(p) && RecMap(p)[d] == v
  }

  ghost predicate HeldBy(cursors: Cursors, d: Bytes, v: Bytes) {
    exists i :: 0 <= i < |cursors| && Has(cursors[i], d, v)
  }

  ghost predicate AllAscending(cursors: Cursors) {
    forall i :: 0 <= i < |cursors| ==> Ascending(cursors[i])
  }

  /** The chosen cursor has the least digest of all that are not at their end. */
  lemma {:induction false} LeastIs(cursors: Cursors, i: nat, best: Option<nat>)
    requires i <= |cursors| && (best.Some? ==> best.value < i && cursors[best.value] != [])
    requires best.None? ==> forall j :: 0 <= j < i ==> cursors[j] == []
    requires best.Some? ==> forall j :: 0 <= j < i && cursors[j] != [] ==> !Less(cursors[j][0].key, cursors[best.value][0].key)
    ensures var at := LeastFrom(cursors, i, best);
      && (at.None? ==> forall j :: 0 <= j < |cursors| ==> cursors[j] == [])
      && (at.Some? ==> forall j :: 0 <= j < |cursors| && cursors[j] != [] ==> !Less(cursors[j][0].key, cursors[at.value][0].key))
    decreases |cursors| - i
  {
    hide Less;
    if i < |cursors| {
      var better := cursors[i] != [] && (best.None? || Less(cursors[i][0].key, cursors[best.value][0].key));
      if better {
        Irreflexive(cursors[i][0].key);
        if best.Some? {
          forall j | 0 <= j < i && cursors[j] != [] ensures !Less(cursors[j][0].key, cursors[i][0].key) {
            if Less(cursors[j][0].key, cursors[i][0].key) {
              Transitive(cursors[j][0].key, cursors[i][0].key, cursors[best.value][0].key);
            }
          }
        }
      }
      LeastIs(cursors, i + 1, if better then Some(i) else best);
    }
  }

  lemma AscendingRest(p: Pack)
    requires Ascending(p) && |p| > 0
    ensures Ascending(p[1..])
    ensures forall d, v :: Has(p[1..], d, v) <==> Has(p, d, v) && d != p[0].key
    ensures forall d, v :: Has(p, d, v) ==> d == p[0].key || Less(p[0].key, d)
  {
    hide Less, Ascending;
    AscendingTail(p);
    FirstNotLater(p);
    forall d, v | Has(p, d, v) && d != p[0].key ensures Less(p[0].key, d) {
      var i := RecMapKey(p, d);
      FirstIsLeast(p, i);
    }
  }

  /** Moving on from the least digest removes exactly that digest; all others are greater. */
  lemma AdvanceHolds(cursors: Cursors, e: Entry, d: Bytes, v: Bytes)
    requires AllAscending(cursors)
    requires forall j :: 0 <= j < |cursors| && cursors[j] != [] ==> !Less(cursors[j][0].key, e.key)
    ensures HeldBy(Advance(cursors, e.key), d, v) <==> HeldBy(cursors, d, v) && d != e.key
    ensures HeldBy(cursors, d, v) ==> d == e.key || Less(e.key, d)
  {
    hide Less, Ascending, Has;
    var next := Advance(cursors, e.key);
    forall i | 0 <= i < |cursors| ensures Has(next[i], d, v) <==> Has(cursors[i], d, v) && d != e.key
      ensures Has(cursors[i], d, v) ==> d == e.key || Less(e.key, d)
    {
      if cursors[i] != [] {
        AscendingRest(cursors[i]);
        Trichotomy(e.key, cursors[i][0].key);
        if Has(cursors[i], d, v) && d != cursors[i][0].key && e.key != cursors[i][0].key {
          Transitive(e.key, cursors[i][0].key, d);
        }
        Irreflexive(e.key);
      } else {
        NothingIn(d, v);
      }
    }
  }

  lemma NothingIn(d: Bytes, v: Bytes)
    ensures !Has([], d, v)
  {
  }

  lemma AdvanceAscends(cursors: Cursors, d: Bytes)
    requires AllAscending(cursors)
    ensures AllAscending(Advance(cursors, d))
  {
  }

  ghost predicate OneMeaning(cursors: Cursors) {
    forall d, v, w :: HeldBy(cursors, d, v) && HeldBy(cursors, d, w) ==> v == w
  }

  lemma HeadHeld(cursors: Cursors, i: nat)
    requires AllAscending(cursors) && i < |cursors| && cursors[i] != []
    ensures HeldBy(cursors, cursors[i][0].key, cursors[i][0].value) && cursors[i][0].key != []
  {
  }

  /** The stream yields in digest order exactly what the cursors hold. */
  lemma {:induction false} StreamHolds(cursors: Cursors)
    requires AllAscending(cursors) && OneMeaning(cursors)
    ensures var r := Stream(cursors);
      && r.Ok? && Ascending(r.value)
      && forall d, v :: Has(r.value, d, v) <==> HeldBy(cursors, d, v)
    decreases Remaining(cursors)
  {
    hide Less, Ascending, Has, HeldBy, Agree, Advance, AllAscending;
    var at := LeastFrom(cursors, 0, None);
    LeastIs(cursors, 0, None);
    if at.None? {
      AllSpent(cursors);
    } else {
      var e := cursors[at.value][0];
      AdvanceShrinks(cursors, e.key, at.value);
      MustAgree(cursors, at.value);
      AdvanceAscends(cursors, e.key);
      var next := Advance(cursors, e.key);
      forall d, v ensures HeldBy(next, d, v) <==> HeldBy(cursors, d, v) && d != e.key
        ensures HeldBy(cursors, d, v) ==> d == e.key || Less(e.key, d)
      {
        AdvanceHolds(cursors, e, d, v);
      }
      StreamHolds(next);
      HeadHeld(cursors, at.value);
      FirstThenRest(cursors, e, Stream(next).value);
    }
  }

  lemma AllSpent(cursors: Cursors)
    requires forall j :: 0 <= j < |cursors| ==> cursors[j] == []
    ensures Ascending<Bytes>([])
    ensures forall d, v :: Has([], d, v) <==> HeldBy(cursors, d, v)
  {
  }

  lemma MustAgree(cursors: Cursors, at: nat)
    requires AllAscending(cursors) && OneMeaning(cursors) && at < |cursors| && cursors[at] != []
    ensures Agree(cursors, cursors[at][0])
  {
    hide Ascending, HeldBy;
    var e := cursors[at][0];
    HeadHeld(cursors, at);
    forall i | 0 <= i < |cursors| && AtDigest(cursors[i], e.key) ensures cursors[i][0].value == e.value {
      HeadHeld(cursors, i);
    }
  }

  lemma FirstThenRest(cursors: Cursors, e: Entry, es: Pack)
    requires Ascending(es) && e.key != [] && HeldBy(cursors, e.key, e.value) && OneMeaning(cursors)
    requires forall d, v :: Has(es, d, v) <==> HeldBy(cursors, d, v) && d != e.key
    requires forall d, v :: HeldBy(cursors, d, v) ==> d == e.key || Less(e.key, d)
    ensures Ascending([e] + es)
    ensures forall d, v :: Has([e] + es, d, v) <==> HeldBy(cursors, d, v)
  {
    hide Less, Ascending, HeldBy;
    if |es| > 0 {
      RecMapAt(es, 0);
      assert Has(es, es[0].key, es[0].value);
    }
    AscendingCons(e, es);
    assert ([e] + es)[1..] == es;
    assert RecMap([e] + es) == RecMap(es)[e.key := e.value];
  }

  lemma CursorsHold(planned: seq<Planned>, d: Bytes, v: Bytes)
    ensures HeldBy(PacksOf(planned), d, v) <==> Holds(planned, d, v)
  {
    hide RecMap;
    if Holds(planned, d, v) {
      var i :| 0 <= i < |planned| && d in RecMap(planned[i].pack) && RecMap(planned[i].pack)[d] == v;
      assert Has(PacksOf(planned)[i], d, v);
    }
    if HeldBy(PacksOf(planned), d, v) {
      var i :| 0 <= i < |planned| && Has(PacksOf(planned)[i], d, v);
      assert d in RecMap(planned[i].pack);
    }
  }

  lemma SameMaps(a: Pack, b: Pack)
    requires Ascending(a) && Ascending(b) && forall d, v :: Has(a, d, v) <==> Has(b, d, v)
    ensures a == b
  {
    hide Ascending;
    forall d ensures d in RecMap(a) <==> d in RecMap(b)
      ensures d in RecMap(a) ==> RecMap(a)[d] == RecMap(b)[d]
    {
      assert d in RecMap(a) ==> Has(a, d, RecMap(a)[d]);
      assert d in RecMap(b) ==> Has(b, d, RecMap(b)[d]);
    }
    assert RecMap(a) == RecMap(b);
    AscendingUnique(a, b);
  }

  /** On packs whose duplicates agree the heap merge yields the entries of the in-memory merge. */
  lemma StreamIsMerge(selected: seq<Planned>)
    requires AllValid(selected) && Consistent(selected)
    ensures Stream(PacksOf(selected)) == MergeFrom(Ok([]), selected)
  {
    hide Holds, Ascending, PackBytes, RecMap, Stream, MergeFrom, HeldBy;
    var cursors := PacksOf(selected);
    forall d, v ensures HeldBy(cursors, d, v) <==> Holds(selected, d, v) {
      CursorsHold(selected, d, v);
    }
    forall i | 0 <= i < |cursors| ensures Ascending(cursors[i]) {
      assert selected[i] in selected;
    }
    StreamHolds(cursors);
    NoneAccumulates();
    assert [] + selected == selected;
    MergeAccumulates(Ok([]), [], selected);
    SameMaps(Stream(cursors).value, MergeFrom(Ok([]), selected).value);
  }

  lemma StreamedCarry(planned: seq<Planned>, tier: nat)
    requires AllValid(planned) && Consistent(planned)
    ensures CarryTierStreaming(planned, tier) == CarryTier(planned, tier)
  {
    hide Holds, ValidPack, Stream, MergeFrom, ShapesFrom, Partition, ExtractTier, Consistent, PacksOf, ShapeBytes, SizeTier, TierOf;
    var k := MAX_PACKS_PER_SIZE_TIER + 1;
    var x := ExtractTier(planned, tier, k);
    ExtractParts(planned, tier, k);
    forall d, v ensures Holds(x.selected, d, v) ==> Holds(planned, d, v) {
      ExtractHolds(planned, tier, k, d, v);
    }
    SomeConsistent(planned, x.selected);
    StreamIsMerge(x.selected);
    var merged := MergeFrom(Ok([]), x.selected);
    if merged.Ok? {
      ShapesCut(merged.value);
      StuckAlike(merged.value, ShapesFrom(merged.value, 0, Shape(0, 0, 0)), tier);
    }
  }

  /**
   On every consistent layout the streaming compaction gives the same packs in the
   same order as the in-memory one, or fails alike.
   */
  lemma {:induction false} StreamedCompaction(planned: seq<Planned>, carried: seq<bool>)
    requires AllValid(planned) && Consistent(planned) && |carried| == PACK_SIZE_TIER_COUNT
    ensures CompactStreaming(planned, carried) == Compact(planned, carried)
    decreases TiersLeft(carried)
  {
    hide Holds, ValidPack, CarryTier, CarryTierStreaming, CountTier, Consistent, SameMeaning;
    var tier := OverfullFrom(planned, carried, 0);
    OverfullIs(planned, carried, 0);
    if tier.Some? {
      FewerTiersLeft(carried, tier.value);
      StreamedCarry(planned, tier.value);
      CarryMeansTheSame(planned, tier.value);
      var next := CarryTier(planned, tier.value);
      if next.Ok? {
        StreamedCompaction(next.value, carried[tier.value := true]);
      }
    }
  }

  // ----- the heap -----

  /** Cursors with their pending heads; `pending` plays the heap. */
  class FiveWayMerge {
    var cursors: Cursors
    var pending: set<(Bytes, nat)>

    constructor (cursors: Cursors)
      requires forall i :: 0 <= i < |cursors| ==> cursors[i] != []
      ensures this.cursors == cursors && Valid()
    {
      this.cursors := cursors;
      pending := set i | 0 <= i < |cursors| && cursors[i] != [] :: (cursors[i][0].key, i);
    }

    /** One pending head for each cursor that is not at its end. */
    ghost predicate Valid()
      reads this
    {
      forall d: Bytes, i: nat :: (d, i) in pending <==> i < |cursors| && AtDigest(cursors[i], d)
    }

    predicate Before(a: (Bytes, nat), b: (Bytes, nat)) {
      Less(a.0, b.0) || (a.0 == b.0 && a.1 < b.1)
    }

    /** Takes the least head by digest, then by cursor. */
    method Pop() returns (least: (Bytes, nat))
      requires pending != {}
      modifies this`pending
      ensures least in old(pending) && pending == old(pending) - {least}
      ensures forall x :: x in pending ==> !Before(x, least)
    {
      hide Less;
      var rest := pending;
      least :| least in rest;
      rest := rest - {least};
      Irreflexive(least.0);
      while rest != {}
        invariant least in pending && rest <= pending
        invariant forall x :: x in pending - rest ==> !Before(x, least)
        decreases rest
      {
        var x :| x in rest;
        rest := rest - {x};
        if Before(x, least) {
          forall y | y in pending - rest ensures !Before(y, x) {
            if y != x && Before(y, x) {
              BeforeTransitive(y, x, least);
            }
            Irreflexive(x.0);
          }
          least := x;
        }
      }
      pending := pending - {least};
    }

    lemma BeforeTransitive(a: (Bytes, nat), b: (Bytes, nat), c: (Bytes, nat))
      requires Before(a, b) && Before(b, c)
      ensures Before(a, c)
    {
      hide Less;
      if Less(a.0, b.0) && Less(b.0, c.0) {
        Transitive(a.0, b.0, c.0);
      }
    }

    /** All cursors at the least digest, which leave the heap together. */
    method PopDigest() returns (d: Bytes, sources: seq<nat>)
      requires Valid() && pending != {}
      modifies this`pending
      ensures |sources| > 0 && forall i: nat :: i in sources <==> i < |cursors| && AtDigest(cursors[i], d)
      ensures forall i, j :: 0 <= i < j < |sources| ==> sources[i] != sources[j]
      ensures forall i :: 0 <= i < |cursors| && cursors[i] != [] ==> !Less(cursors[i][0].key, d)
      ensures forall x: Bytes, i: nat :: (x, i) in pending <==> i < |cursors| && AtDigest(cursors[i], x) && x != d
    {
      hide Less, AtDigest;
      ghost var start := pending;
      var first := Pop();
      d, sources := first.0, [first.1];
      Irreflexive(d);
      forall x | x in start ensures !Less(x.0, d) {
        assert x == first || (x in pending && !Before(x, first));
      }
      while exists x :: x in pending && x.0 == d
        invariant pending <= start && |sources| > 0
        invariant forall x :: x in start ==> !Less(x.0, d)
        invariant forall i: nat :: i in sources <==> (d, i) in start && (d, i) !in pending
        invariant forall x :: x in start && x !in pending ==> x.0 == d
        invariant forall i, j :: 0 <= i < j < |sources| ==> sources[i] != sources[j]
        decreases pending
      {
        ghost var x :| x in pending && x.0 == d;
        var next := Pop();
        Trichotomy(d, next.0);
        assert x == next || (x in pending && !Before(x, next));
        assert next == (d, next.1);
        sources := sources + [next.1];
      }
      forall i | 0 <= i < |cursors| && cursors[i] != [] ensures !Less(cursors[i][0].key, d) {
        AtOwnHead(cursors[i]);
        assert (cursors[i][0].key, i) in start;
      }
      forall x: Bytes, i: nat ensures (x, i) in pending <==> i < |cursors| && AtDigest(cursors[i], x) && x != d {
        assert (x, i) in start && (x, i) !in pending ==> (x, i).0 == d;
      }
    }

    /** The next entry of the stream, after checking that all its duplicates are equal. */
    method NextUnique() returns (r: Result<Option<Entry>, PackError>)
      requires Valid()
      modifies this
      ensures var at := LeastFrom(old(cursors), 0, None);
        if at.None? then r == Ok(None) && cursors == old(cursors) && Valid()
        else
          var e := old(cursors)[at.value][0];
          if Agree(old(cursors), e) then r == Ok(Some(e)) && cursors == Advance(old(cursors), e.key) && Valid()
          else r == Err(PathMismatch(e.key))
    {
      hide Less;
      ghost var before := cursors;
      LeastIs(cursors, 0, None);
      assert forall i :: 0 <= i < |cursors| && cursors[i] != [] ==> (cursors[i][0].key, i) in pending;
      if pending == {} {
        return Ok(None);
      }
      var d, sources := PopDigest();
      forall j | 0 <= j < |sources| ensures sources[j] < |cursors| && AtDigest(cursors[sources[j]], d) {
        assert sources[j] in sources;
      }
      var first := cursors[sources[0]][0];
      SameLeast(cursors, d, sources[0]);
      for k := 1 to |sources|
        invariant forall j :: 0 <= j < k ==> cursors[sources[j]][0].value == first.value
      {
        assert sources[k] in sources;
        if cursors[sources[k]][0].value != first.value {
          return Err(PathMismatch(d));
        }
      }
      assert Agree(cursors, first) by {
        forall i | 0 <= i < |cursors| && AtDigest(cursors[i], first.key) ensures cursors[i][0].value == first.value {
          assert i in sources;
        }
      }
      AdvanceSources(d, sources);
      return Ok(Some(first));
    }

    /** Moves each source on and puts its next head on the heap. */
    method AdvanceSources(d: Bytes, sources: seq<nat>)
      requires forall i: nat :: i in sources <==> i < |cursors| && AtDigest(cursors[i], d)
      requires forall i, j :: 0 <= i < j < |sources| ==> sources[i] != sources[j]
      requires forall x: Bytes, i: nat :: (x, i) in pending <==> i < |cursors| && AtDigest(cursors[i], x) && x != d
      modifies this
      ensures cursors == Advance(old(cursors), d) && Valid()
    {
      ghost var before := cursors;
      for k := 0 to |sources|
        invariant |cursors| == |before|
        invariant forall i: nat :: i < |before| && i in sources[..k] ==> cursors[i] == before[i][1..]
        invariant forall i: nat :: i < |before| && i !in sources[..k] ==> cursors[i] == before[i]
        invariant forall x: Bytes, i: nat :: (x, i) in pending <==>
          i < |cursors| && AtDigest(cursors[i], x) && (i in sources ==> i in sources[..k])
      {
        var source := sources[k];
        assert source in sources && sources[..k + 1] == sources[..k] + [source];
        cursors := cursors[source := cursors[source][1..]];
        if cursors[source] != [] {
          pending := pending + {(cursors[source][0].key, source)};
        }
      }
      assert sources[..|sources|] == sources;
      assert cursors == Advance(before, d);
    }
  }

  lemma AtOwnHead(p: Pack)
    requires p != []
    ensures AtDigest(p, p[0].key)
  {
  }

  /** Whichever cursor at the least digest is looked at, the digest and the agreement are the same. */
  lemma SameLeast(cursors: Cursors, d: Bytes, i: nat)
    requires i < |cursors| && AtDigest(cursors[i], d)
    requires forall j :: 0 <= j < |cursors| && cursors[j] != [] ==> !Less(cursors[j][0].key, d)
    ensures var at := LeastFrom(cursors, 0, None);
      && at.Some? && cursors[at.value][0].key == d
      && (Agree(cursors, cursors[at.value][0]) <==> Agree(cursors, cursors[i][0]))
      && (Agree(cursors, cursors[i][0]) ==> cursors[at.value][0] == cursors[i][0])
  {
    hide Less;
    LeastIs(cursors, 0, None);
    var at := LeastFrom(cursors, 0, None);
    Trichotomy(cursors[at.value][0].key, d);
    assert AtDigest(cursors[at.value], d);
  }

  lemma StreamStep(cursors: Cursors)
    ensures var at := LeastFrom(cursors, 0, None);
      Stream(cursors)
        == if at.None? then Ok([])
           else var e := cursors[at.value][0];
             if !Agree(cursors, e) then Err(PathMismatch(e.key))
             else var rest := Stream(Advance(cursors, e.key));
               if rest.Err? then rest else Ok([e] + rest.value)
  {
  }

  /** The first pass over the stream: shapes only, no bytes held. */
  method PlanMergedStream(packs: seq<Pack>) returns (r: Result<seq<Shape>, PackError>)
    requires forall i :: 0 <= i < |packs| ==> packs[i] != []
    ensures var s := Stream(packs);
      if s.Err? then r == Err(s.error) else r == Ok(ShapesFrom(s.value, 0, Shape(0, 0, 0)))
  {
    hide Stream, Agree, Advance, AtDigest;
    var merge := new FiveWayMerge(packs);
    var shapes, open, ordinal := [], Shape(0, 0, 0), 0;
    ghost var whole := Stream(packs);
    assert whole.Ok? ==> whole.value[0..] == whole.value;
    while true
      invariant fresh(merge) && merge.Valid()
      invariant whole.Err? ==> Stream(merge.cursors) == whole
      invariant whole.Ok? ==> ordinal <= |whole.value| && Stream(merge.cursors) == Ok(whole.value[ordinal..])
      invariant whole.Ok? ==> ShapesFrom(whole.value, 0, Shape(0, 0, 0)) == shapes + ShapesFrom(whole.value, ordinal, open)
      decreases Remaining(merge.cursors)
    {
      StreamStep(merge.cursors);
      ghost var before := merge.cursors;
      var next := merge.NextUnique();
      if next.Err? {
        return Err(next.error);
      }
      if next.value.None? {
        assert whole.Ok? ==> |whole.value[ordinal..]| == 0;
        assert shapes + [] == shapes;
        return Ok(if open.entries == 0 then shapes else shapes + [open]);
      }
      var e := next.value.value;
      Shrinks(before);
      assert whole.Ok? ==> whole.value[ordinal..][0] == whole.value[ordinal] && whole.value[ordinal..][1..] == whole.value[ordinal + 1..];
      var longer := Shape(open.start, open.entries + 1, open.payload + |e.value|);
      if open.entries != 0 && (longer.entries > MAX_PACK_ENTRIES || ShapeBytes(longer) > MAX_PACK_BYTES) {
        shapes := shapes + [open];
        open := Shape(ordinal, 1, |e.value|);
      } else {
        open := longer;
      }
      ordinal := ordinal + 1;
    }
  }

  lemma Shrinks(cursors: Cursors)
    requires LeastFrom(cursors, 0, None).Some?
    ensures Remaining(Advance(cursors, cursors[LeastFrom(cursors, 0, None).value][0].key)) < Remaining(cursors)
  {
    var at := LeastFrom(cursors, 0, None).value;
    AdvanceShrinks(cursors, cursors[at][0].key, at);
  }
}
