/**
 Packs of nodes in digest order, cut greedily to a byte bound, and kept in
 power-of-two size tiers: a fifth pack in a tier is carried like a digit.
 */
module PackTiers {
  import opened Wrappers
  import opened KeyBits
  import opened KeyOrder
  import opened SortedRecords
  import opened PackLimits

  /** A node's bytes under its digest. */
  type Entry = Rec<Bytes>

  type Pack = seq<Entry>

  datatype PackError = PathMismatch(digest: Bytes) | PackTooLarge | TooManyEntries | Malformed | Empty | EntryTooLarge(digest: Bytes)

  function PayloadBytes(p: Pack): nat {
    if |p| == 0 then 0 else PayloadBytes(p[..|p| - 1]) + |p[|p| - 1].value|
  }

  function PackBytes(p: Pack): nat {
    PACK_HEADER_BYTES + |p| * PACK_INDEX_ENTRY_BYTES + PayloadBytes(p)
  }

  predicate ValidEntry(e: Entry) {
    e.key != [] && 0 < |e.value| <= MAX_PACK_ENTRY_BYTES
  }

  predicate ValidEntries(p: Pack) {
    forall e :: e in p ==> ValidEntry(e)
  }

  predicate ValidPack(p: Pack) {
    |p| > 0 && Ascending(p) && ValidEntries(p) && PackBytes(p) <= MAX_PACK_BYTES
  }

  // ----- the greedy cut -----

  function PartitionFrom(chunk: Pack, es: Pack): seq<Pack>
    decreases |es|
  {
    if |es| == 0 then (if |chunk| == 0 then [] else [chunk])
    else if |chunk| != 0 && (|chunk| + 1 > MAX_PACK_ENTRIES || PackBytes(chunk + [es[0]]) > MAX_PACK_BYTES) then
      [chunk] + PartitionFrom([es[0]], es[1..])
    else PartitionFrom(chunk + [es[0]], es[1..])
  }

  function Partition(es: Pack): seq<Pack> {
    PartitionFrom([], es)
  }

  function Join(parts: seq<Pack>): Pack {
    if |parts| == 0 then [] else parts[0] + Join(parts[1..])
  }

  lemma PayloadGrows(p: Pack, e: Entry)
    ensures PayloadBytes(p + [e]) == PayloadBytes(p) + |e.value|
    ensures PackBytes(p + [e]) == PackBytes(p) + PACK_INDEX_ENTRY_BYTES + |e.value|
  {
  }

  lemma {:induction false} PayloadAtLeast(p: Pack)
    requires ValidEntries(p)
    ensures PayloadBytes(p) >= |p|
    decreases |p|
  {
    if |p| > 0 {
      PayloadAtLeast(p[..|p| - 1]);
      assert p[|p| - 1] in p;
    }
  }

  /** The entry-count bound never bites first: within the byte bound it holds by itself. */
  lemma CountBoundIsImplied(p: Pack)
    requires ValidEntries(p) && PackBytes(p) <= MAX_PACK_BYTES
    ensures |p| <= MAX_PACK_ENTRIES
  {
    PayloadAtLeast(p);
  }

  lemma OneEntryFits(e: Entry)
    requires ValidEntry(e)
    ensures ValidPack([e])
  {
    assert [e] == [] + [e];
    PayloadGrows([], e);
  }

  /** The cut at work: each part is full when it is closed, and nothing else is cut. */
  ghost predicate Greedy(parts: seq<Pack>) {
    && (forall i :: 0 <= i < |parts| ==> |parts[i]| > 0 && PackBytes(parts[i]) <= MAX_PACK_BYTES)
    && (forall i :: 0 <= i < |parts| - 1 && |parts[i + 1]| > 0 ==> PackBytes(parts[i] + [parts[i + 1][0]]) > MAX_PACK_BYTES)
  }

  lemma AscendingParts(es: Pack, n: nat)
    requires Ascending(es) && n <= |es|
    ensures Ascending(es[..n]) && Ascending(es[n..])
  {
  }

  lemma {:induction false} PartitionFromSpec(chunk: Pack, es: Pack)
    requires Ascending(chunk + es) && ValidEntries(chunk + es)
    requires |chunk| > 0 ==> PackBytes(chunk) <= MAX_PACK_BYTES
    ensures var parts := PartitionFrom(chunk, es);
      && Join(parts) == chunk + es && Greedy(parts)
      && (forall p :: p in parts ==> ValidPack(p))
      && (|chunk| > 0 ==> |parts| > 0 && chunk <= parts[0])
      && (|chunk| == 0 && |es| > 0 ==> |parts| > 0 && es[0] == parts[0][0])
    decreases |es|
  {
    hide Less, PackBytes, Ascending;
    if |es| == 0 {
      assert chunk + es == chunk;
      assert |chunk| > 0 ==> Join([chunk]) == chunk + Join([]);
    } else {
      var e, rest := es[0], es[1..];
      assert e in chunk + es;
      assert chunk + es == (chunk + [e]) + rest;
      if |chunk| != 0 && (|chunk| + 1 > MAX_PACK_ENTRIES || PackBytes(chunk + [e]) > MAX_PACK_BYTES) {
        AscendingParts(chunk + es, |chunk|);
        assert (chunk + es)[|chunk|..] == [e] + rest && (chunk + es)[..|chunk|] == chunk;
        OneEntryFits(e);
        PartitionFromSpec([e], rest);
        CutIsForced(chunk, e);
        ClosedPart(chunk, es, PartitionFrom([e], rest));
      } else {
        if |chunk| == 0 {
          OneEntryFits(e);
          assert chunk + [e] == [e];
        }
        PartitionFromSpec(chunk + [e], rest);
      }
    }
  }

  lemma CutIsForced(chunk: Pack, e: Entry)
    requires ValidEntries(chunk) && ValidEntry(e) && |chunk| > 0
    requires |chunk| + 1 > MAX_PACK_ENTRIES || PackBytes(chunk + [e]) > MAX_PACK_BYTES
    ensures PackBytes(chunk + [e]) > MAX_PACK_BYTES
  {
    if PackBytes(chunk + [e]) <= MAX_PACK_BYTES {
      CountBoundIsImplied(chunk + [e]);
    }
  }

  lemma ClosedPart(chunk: Pack, es: Pack, parts: seq<Pack>)
    requires |es| > 0 && |chunk| > 0 && Greedy(parts) && |parts| > 0 && [es[0]] <= parts[0]
    requires Join(parts) == es && PackBytes(chunk) <= MAX_PACK_BYTES && PackBytes(chunk + [es[0]]) > MAX_PACK_BYTES
    ensures Greedy([chunk] + parts) && Join([chunk] + parts) == chunk + es
  {
    hide PackBytes;
    var all := [chunk] + parts;
    assert all[1..] == parts;
    forall i | 0 <= i < |all| - 1 && |all[i + 1]| > 0 ensures PackBytes(all[i] + [all[i + 1][0]]) > MAX_PACK_BYTES {
      if i > 0 {
        assert all[i] == parts[i - 1] && all[i + 1] == parts[i];
      }
    }
  }

  /** The cut covers all entries in order, and every part is a valid pack. */
  lemma PartitionSpec(es: Pack)
    requires Ascending(es) && ValidEntries(es)
    ensures var parts := Partition(es);
      && Join(parts) == es && Greedy(parts) && (forall p :: p in parts ==> ValidPack(p))
      && (|es| > 0 ==> |parts| > 0)
  {
    hide Less, PackBytes, Ascending;
    assert [] + es == es;
    PartitionFromSpec([], es);
  }

  lemma {:induction false} PayloadMonotone(p: Pack, q: Pack)
    requires p <= q
    ensures PackBytes(p) <= PackBytes(q)
    decreases |q|
  {
    if |p| < |q| {
      PayloadMonotone(p, q[..|q| - 1]);
    } else {
      assert p == q;
    }
  }

  /** There is only one greedy cut: whatever splits the same entries greedily splits them alike. */
  lemma {:induction false} GreedyIsUnique(a: seq<Pack>, b: seq<Pack>)
    requires Greedy(a) && Greedy(b) && Join(a) == Join(b)
    ensures a == b
    decreases |a|
  {
    hide PackBytes;
    if |a| == 0 || |b| == 0 {
    } else {
      SameFirst(a, b);
      assert a == [a[0]] + a[1..] && b == [b[0]] + b[1..];
      assert Join(a)[|a[0]|..] == Join(a[1..]) && Join(b)[|b[0]|..] == Join(b[1..]);
      GreedyIsUnique(a[1..], b[1..]);
    }
  }

  /** A shorter first part is followed by another, whose first entry the longer one holds. */
  lemma TwoParts(a: seq<Pack>, b: seq<Pack>)
    requires Greedy(a) && Join(a) == Join(b) && |a| > 0 && |b| > 0 && |a[0]| < |b[0]|
    ensures |a| > 1 && |a[1]| > 0 && a[0] + [a[1][0]] <= b[0]
  {
    hide PackBytes;
    assert Join(a) == a[0] + Join(a[1..]);
    assert Join(b)[..|b[0]|] == b[0];
    assert |a| > 1;
    assert Join(a) == a[0] + (a[1] + Join(a[1..][1..]));
    assert Join(a)[|a[0]|] == a[1][0];
  }

  lemma NotShorter(a: seq<Pack>, b: seq<Pack>)
    requires Greedy(a) && Greedy(b) && Join(a) == Join(b) && |a| > 0 && |b| > 0
    ensures |a[0]| >= |b[0]|
  {
    hide PackBytes;
    if |a[0]| < |b[0]| {
      TwoParts(a, b);
      var e := a[1][0];
      assert PackBytes(a[0] + [a[0 + 1][0]]) > MAX_PACK_BYTES;
      PayloadMonotone(a[0] + [e], b[0]);
    }
  }

  lemma SameFirst(a: seq<Pack>, b: seq<Pack>)
    requires Greedy(a) && Greedy(b) && Join(a) == Join(b) && |a| > 0 && |b| > 0
    ensures a[0] == b[0]
  {
    NotShorter(a, b);
    NotShorter(b, a);
    assert Join(a)[..|a[0]|] == a[0] && Join(b)[..|b[0]|] == b[0];
  }

  // ----- size tiers -----

  function Log2(n: nat): nat {
    if n < 2 then 0 else 1 + Log2(n / 2)
  }

  function SizeTier(bytes: nat): nat {
    if Log2(bytes) >= 5 then Log2(bytes) - 5 else 0
  }

  function TierOf(p: Pack): nat {
    SizeTier(PackBytes(p))
  }

  /** A pack of the layout being planned: kept from the catalog, or to be published. */
  datatype Planned = Existing(index: nat, pack: Pack) | Publication(pack: Pack)

  function CountTier(planned: seq<Planned>, tier: nat): nat {
    if |planned| == 0 then 0 else (if TierOf(planned[0].pack) == tier then 1 else 0) + CountTier(planned[1..], tier)
  }

  predicate TiersBounded(planned: seq<Planned>) {
    forall t :: 0 <= t < PACK_SIZE_TIER_COUNT ==> CountTier(planned, t) <= MAX_PACKS_PER_SIZE_TIER
  }

  /** The lowest tier from `tier` up that is overfull and was not carried yet. */
  function OverfullFrom(planned: seq<Planned>, carried: seq<bool>, tier: nat): Option<nat>
    requires |carried| == PACK_SIZE_TIER_COUNT
    decreases PACK_SIZE_TIER_COUNT - tier
  {
    if tier >= PACK_SIZE_TIER_COUNT then None
    else if CountTier(planned, tier) > MAX_PACKS_PER_SIZE_TIER && !carried[tier] then Some(tier)
    else OverfullFrom(planned, carried, tier + 1)
  }

  /** The first `k` packs of a tier, what precedes the last of them, and what follows it. */
  datatype Extract = Extract(before: seq<Planned>, selected: seq<Planned>, after: seq<Planned>)

  function ExtractTier(planned: seq<Planned>, tier: nat, k: nat): Extract
    decreases |planned|
  {
    if |planned| == 0 || k == 0 then Extract([], [], planned)
    else
      var x := ExtractTier(planned[1..], tier, if TierOf(planned[0].pack) == tier then k - 1 else k);
      if TierOf(planned[0].pack) == tier then x.(selected := [planned[0]] + x.selected)
      else x.(before := [planned[0]] + x.before)
  }

  function AddEntry(acc: Result<Pack, PackError>, e: Entry): Result<Pack, PackError> {
    if acc.Err? then acc
    else if e.key !in RecMap(acc.value) then Ok(OrInsert(acc.value, e))
    else if RecMap(acc.value)[e.key] == e.value then acc
    else Err(PathMismatch(e.key))
  }

  function AddPack(acc: Result<Pack, PackError>, p: Pack): Result<Pack, PackError>
    decreases |p|
  {
    if |p| == 0 then acc else AddPack(AddEntry(acc, p[0]), p[1..])
  }

  /** All entries of the selected packs under their digests; equal duplicates fall together. */
  function MergeFrom(acc: Result<Pack, PackError>, selected: seq<Planned>): Result<Pack, PackError>
    decreases |selected|
  {
    if |selected| == 0 then acc else MergeFrom(AddPack(acc, selected[0].pack), selected[1..])
  }

  function Publications(parts: seq<Pack>): seq<Planned> {
    if |parts| == 0 then [] else [Publication(parts[0])] + Publications(parts[1..])
  }

  predicate Stuck(parts: seq<Pack>, selected: nat, tier: nat) {
    |parts| >= selected && forall p :: p in parts ==> TierOf(p) == tier
  }

  /** Five packs of a tier give way to their merged entries, cut again. */
  function CarryTier(planned: seq<Planned>, tier: nat): Result<seq<Planned>, PackError> {
    var x := ExtractTier(planned, tier, MAX_PACKS_PER_SIZE_TIER + 1);
    match MergeFrom(Ok([]), x.selected)
    case Err(e) => Err(e)
    case Ok(es) =>
      var parts := Partition(es);
      if Stuck(parts, |x.selected|, tier) then Err(PackTooLarge) else Ok(x.before + Publications(parts) + x.after)
  }

  /** How many tiers have not been carried yet. */
  function TiersLeft(carried: seq<bool>): nat {
    if |carried| == 0 then 0 else (if carried[0] then 0 else 1) + TiersLeft(carried[1..])
  }

  lemma OverfullIs(planned: seq<Planned>, carried: seq<bool>, from: nat)
    requires |carried| == PACK_SIZE_TIER_COUNT
    ensures var t := OverfullFrom(planned, carried, from);
      && (t.Some? ==> from <= t.value < PACK_SIZE_TIER_COUNT && !carried[t.value] && CountTier(planned, t.value) > MAX_PACKS_PER_SIZE_TIER)
      && (t.None? ==> forall u :: from <= u < PACK_SIZE_TIER_COUNT && !carried[u] ==> CountTier(planned, u) <= MAX_PACKS_PER_SIZE_TIER)
      && (t.Some? ==> forall u :: from <= u < t.value && !carried[u] ==> CountTier(planned, u) <= MAX_PACKS_PER_SIZE_TIER)
    decreases PACK_SIZE_TIER_COUNT - from
  {
    hide CountTier;
  }

  lemma {:induction false} FewerTiersLeft(carried: seq<bool>, t: nat)
    requires t < |carried| && !carried[t]
    ensures TiersLeft(carried[t := true]) < TiersLeft(carried)
  {
    if t == 0 {
      assert carried[0 := true][1..] == carried[1..];
    } else {
      FewerTiersLeft(carried[1..], t - 1);
      assert carried[t := true][1..] == carried[1..][t - 1 := true];
    }
  }

  /** Carries overfull tiers, lowest first and each at most once. */
  function Compact(planned: seq<Planned>, carried: seq<bool>): Result<seq<Planned>, PackError>
    requires |carried| == PACK_SIZE_TIER_COUNT
    decreases TiersLeft(carried)
  {
    var tier := OverfullFrom(planned, carried, 0);
    OverfullIs(planned, carried, 0);
    if tier.None? then Ok(planned)
    else
      FewerTiersLeft(carried, tier.value);
      match CarryTier(planned, tier.value)
      case Err(e) => Err(e)
      case Ok(next) => Compact(next, carried[tier.value := true])
  }

  // ----- what a layout means -----

  /** The tiers that compaction carries, in order. */
  function CarriedTiers(planned: seq<Planned>, carried: seq<bool>): seq<nat>
    requires |carried| == PACK_SIZE_TIER_COUNT
    decreases TiersLeft(carried)
  {
    var tier := OverfullFrom(planned, carried, 0);
    OverfullIs(planned, carried, 0);
    if tier.None? then []
    else
      FewerTiersLeft(carried, tier.value);
      var next := CarryTier(planned, tier.value);
      [tier.value] + if next.Ok? then CarriedTiers(next.value, carried[tier.value := true]) else []
  }

  /** How many packs compaction selects in all its carries. */
  function PacksSelected(planned: seq<Planned>, carried: seq<bool>): nat
    requires |carried| == PACK_SIZE_TIER_COUNT
    decreases TiersLeft(carried)
  {
    var tier := OverfullFrom(planned, carried, 0);
    OverfullIs(planned, carried, 0);
    if tier.None? then 0
    else
      FewerTiersLeft(carried, tier.value);
      var next := CarryTier(planned, tier.value);
      |ExtractTier(planned, tier.value, MAX_PACKS_PER_SIZE_TIER + 1).selected|
        + if next.Ok? then PacksSelected(next.value, carried[tier.value := true]) else 0
  }

  /** Some pack holds these bytes under the digest. */
  ghost predicate Holds(planned: seq<Planned>, d: Bytes, v: Bytes) {
    exists i :: 0 <= i < |planned| && d in RecMap(planned[i].pack) && RecMap(planned[i].pack)[d] == v
  }

  /** No digest names two byte strings. */
  ghost predicate Consistent(planned: seq<Planned>) {
    forall d, v, w :: Holds(planned, d, v) && Holds(planned, d, w) ==> v == w
  }

  ghost predicate AllValid(planned: seq<Planned>) {
    forall pl :: pl in planned ==> ValidPack(pl.pack)
  }

  /** Lookup, newest layer first, skipping packs whose range excludes the digest. */
  function Get(planned: seq<Planned>, d: Bytes): Option<Bytes>
    decreases |planned|
  {
    if |planned| == 0 then None
    else
      var p := planned[|planned| - 1].pack;
      if |p| > 0 && !Less(d, p[0].key) && !Less(p[|p| - 1].key, d) && d in RecMap(p) then Some(RecMap(p)[d])
      else Get(planned[..|planned| - 1], d)
  }

  lemma InRangeOfPack(p: Pack, d: Bytes)
    requires Ascending(p) && d in RecMap(p)
    ensures |p| > 0 && !Less(d, p[0].key) && !Less(p[|p| - 1].key, d)
  {
    hide Less, Ascending;
    var i := RecMapKey(p, d);
    Irreflexive(d);
    if i > 0 {
      FirstIsLeast(p, i);
      Trichotomy(p[0].key, d);
    }
    if i < |p| - 1 {
      AscendingParts(p, i);
      FirstIsLeast(p[i..], |p| - 1 - i);
      Trichotomy(d, p[|p| - 1].key);
    }
  }

  /** Lookup finds exactly what some layer holds. */
  lemma {:induction false} GetFinds(planned: seq<Planned>, d: Bytes)
    requires AllValid(planned)
    ensures Get(planned, d).Some? ==> Holds(planned, d, Get(planned, d).value)
    ensures Get(planned, d).None? ==> forall v :: !Holds(planned, d, v)
    decreases |planned|
  {
    hide Less, RecMap, PackBytes, Ascending;
    if |planned| > 0 {
      var n := |planned| - 1;
      assert planned[n] in planned;
      GetFinds(planned[..n], d);
      if d in RecMap(planned[n].pack) {
        InRangeOfPack(planned[n].pack, d);
      }
      forall v ensures Holds(planned, d, v) <==> Holds(planned[..n], d, v) || (d in RecMap(planned[n].pack) && RecMap(planned[n].pack)[d] == v) {
      }
    }
  }

  function NoneCarried(): (carried: seq<bool>)
    ensures |carried| == PACK_SIZE_TIER_COUNT && forall t :: 0 <= t < |carried| ==> !carried[t]
  {
    seq(PACK_SIZE_TIER_COUNT, _ => false)
  }

  /** Two layouts that hold the same. */
  ghost predicate SameMeaning(a: seq<Planned>, b: seq<Planned>) {
    forall d, v :: Holds(a, d, v) <==> Holds(b, d, v)
  }

  lemma SameAnswers(a: seq<Planned>, b: seq<Planned>, d: Bytes)
    requires AllValid(a) && AllValid(b) && Consistent(a) && SameMeaning(a, b)
    ensures Get(a, d) == Get(b, d)
  {
    hide Holds, Get, AllValid;
    GetFinds(a, d);
    GetFinds(b, d);
  }

  // ----- a carry keeps the meaning -----

  lemma HoldsSplit(a: seq<Planned>, b: seq<Planned>, d: Bytes, v: Bytes)
    ensures Holds(a + b, d, v) <==> Holds(a, d, v) || Holds(b, d, v)
  {
    hide RecMap;
    var c := a + b;
    if Holds(a, d, v) {
      var i :| 0 <= i < |a| && d in RecMap(a[i].pack) && RecMap(a[i].pack)[d] == v;
      assert c[i] == a[i];
    }
    if Holds(b, d, v) {
      var i :| 0 <= i < |b| && d in RecMap(b[i].pack) && RecMap(b[i].pack)[d] == v;
      assert c[|a| + i] == b[i];
    }
    if Holds(c, d, v) {
      var i :| 0 <= i < |c| && d in RecMap(c[i].pack) && RecMap(c[i].pack)[d] == v;
      if i < |a| {
        assert a[i] == c[i];
      } else {
        assert b[i - |a|] == c[i];
      }
    }
  }

  lemma HoldsOne(pl: Planned, d: Bytes, v: Bytes)
    ensures Holds([pl], d, v) <==> d in RecMap(pl.pack) && RecMap(pl.pack)[d] == v
  {
    hide RecMap;
    assert [pl][0] == pl;
  }

  /** Extraction only rearranges: nothing is lost or invented. */
  lemma {:induction false} ExtractHolds(planned: seq<Planned>, tier: nat, k: nat, d: Bytes, v: Bytes)
    ensures var x := ExtractTier(planned, tier, k);
      Holds(planned, d, v) <==> Holds(x.before, d, v) || Holds(x.selected, d, v) || Holds(x.after, d, v)
    decreases |planned|
  {
    hide Holds, TierOf;
    if |planned| == 0 || k == 0 {
      NothingHeld(d, v);
    } else {
      var k' := if TierOf(planned[0].pack) == tier then k - 1 else k;
      var x := ExtractTier(planned[1..], tier, k');
      ExtractHolds(planned[1..], tier, k', d, v);
      assert planned == [planned[0]] + planned[1..];
      HoldsSplit([planned[0]], planned[1..], d, v);
      HoldsSplit([planned[0]], x.selected, d, v);
      HoldsSplit([planned[0]], x.before, d, v);
    }
  }

  lemma NothingHeld(d: Bytes, v: Bytes)
    ensures !Holds([], d, v)
  {
  }

  lemma {:induction false} ExtractParts(planned: seq<Planned>, tier: nat, k: nat)
    requires AllValid(planned)
    ensures var x := ExtractTier(planned, tier, k);
      && AllValid(x.before) && AllValid(x.selected) && AllValid(x.after)
      && |x.selected| <= k && (CountTier(planned, tier) >= k ==> |x.selected| == k)
      && (forall pl :: pl in x.selected ==> TierOf(pl.pack) == tier)
    decreases |planned|
  {
    hide TierOf, ValidPack;
    if |planned| != 0 && k != 0 {
      var k' := if TierOf(planned[0].pack) == tier then k - 1 else k;
      assert planned == [planned[0]] + planned[1..];
      ExtractParts(planned[1..], tier, k');
    }
  }

  lemma MapsAgree(p: Pack, d: Bytes, v: Bytes)
    ensures Holds([Publication(p)], d, v) <==> d in RecMap(p) && RecMap(p)[d] == v
  {
    HoldsOne(Publication(p), d, v);
  }

  /** What an accumulated merge holds. */
  ghost predicate Accumulates(acc: Result<Pack, PackError>, some: seq<Planned>) {
    && acc.Ok? && Ascending(acc.value) && ValidEntries(acc.value)
    && forall d, v :: (d in RecMap(acc.value) && RecMap(acc.value)[d] == v) <==> Holds(some, d, v)
  }

  lemma {:induction false} InRecMap(p: Pack, e: Entry)
    requires Ascending(p)
    ensures e in p <==> e.key in RecMap(p) && RecMap(p)[e.key] == e.value
  {
    hide Ascending, Less;
    if e in p {
      var i :| 0 <= i < |p| && p[i] == e;
      RecMapAt(p, i);
    }
    if e.key in RecMap(p) && RecMap(p)[e.key] == e.value {
      var i := RecMapKey(p, e.key);
      RecMapAt(p, i);
      assert p[i] == e;
    }
  }

  lemma {:induction false} OrInsertMembers(es: Pack, r: Entry, e: Entry)
    requires e in OrInsert(es, r)
    ensures e in es || e == r
  {
    if |es| > 0 && es[0].key != r.key && !Less(r.key, es[0].key) {
      if e != es[0] {
        OrInsertMembers(es[1..], r, e);
      }
    }
  }

  lemma AddEntryAccumulates(acc: Result<Pack, PackError>, e: Entry, some: seq<Planned>)
    requires Accumulates(acc, some) && ValidEntry(e)
    requires e.key in RecMap(acc.value) ==> RecMap(acc.value)[e.key] == e.value
    ensures AddEntry(acc, e).Ok? && Ascending(AddEntry(acc, e).value) && ValidEntries(AddEntry(acc, e).value)
    ensures RecMap(AddEntry(acc, e).value) == RecMap(acc.value)[e.key := e.value]
  {
    hide Ascending, Less, Holds;
    OrInsertSpec(acc.value, e);
    forall x | x in OrInsert(acc.value, e) ensures ValidEntry(x) {
      OrInsertMembers(acc.value, e, x);
    }
  }

  lemma PutFirst(m: map<Bytes, Bytes>, n: map<Bytes, Bytes>, e: Entry)
    requires e.key in n ==> n[e.key] == e.value
    ensures m[e.key := e.value] + n == m + n[e.key := e.value]
  {
  }

  /** Adding a pack that agrees with what is there accumulates it too. */
  lemma {:induction false} AddPackAccumulates(acc: Result<Pack, PackError>, p: Pack, some: seq<Planned>)
    requires Accumulates(acc, some) && Ascending(p) && ValidEntries(p)
    requires forall d :: d in RecMap(p) && d in RecMap(acc.value) ==> RecMap(p)[d] == RecMap(acc.value)[d]
    ensures var r := AddPack(acc, p);
      r.Ok? && Ascending(r.value) && ValidEntries(r.value) && RecMap(r.value) == RecMap(acc.value) + RecMap(p)
    decreases |p|
  {
    hide Ascending, Less, Holds, ValidEntry, AddEntry;
    if |p| > 0 {
      var e := p[0];
      assert e in p;
      AscendingTail(p);
      FirstNotLater(p);
      AddEntryAccumulates(acc, e, some);
      var next := AddEntry(acc, e);
      AccumulatesItself(next);
      AddPackAccumulates(next, p[1..], [Publication(next.value)]);
      PutFirst(RecMap(acc.value), RecMap(p[1..]), e);
    }
  }

  lemma AccumulatesItself(acc: Result<Pack, PackError>)
    requires acc.Ok? && Ascending(acc.value) && ValidEntries(acc.value)
    ensures Accumulates(acc, [Publication(acc.value)])
  {
    hide Ascending, RecMap, Holds;
    forall d, v ensures (d in RecMap(acc.value) && RecMap(acc.value)[d] == v) <==> Holds([Publication(acc.value)], d, v) {
      MapsAgree(acc.value, d, v);
    }
  }

  lemma {:induction false} MergeAccumulates(acc: Result<Pack, PackError>, done: seq<Planned>, selected: seq<Planned>)
    requires Accumulates(acc, done) && AllValid(selected) && Consistent(done + selected)
    ensures Accumulates(MergeFrom(acc, selected), done + selected)
    decreases |selected|
  {
    hide Ascending, Holds, PackBytes, RecMap;
    if |selected| == 0 {
      assert done + selected == done;
    } else {
      var pl, rest := selected[0], selected[1..];
      assert pl in selected;
      assert done + selected == (done + [pl]) + rest;
      PackAgrees(acc, done, pl, rest);
      AddPackAccumulates(acc, pl.pack, done);
      var next := AddPack(acc, pl.pack);
      forall d, v ensures (d in RecMap(next.value) && RecMap(next.value)[d] == v) <==> Holds(done + [pl], d, v) {
        HoldsSplit(done, [pl], d, v);
        HoldsOne(pl, d, v);
      }
      MergeAccumulates(next, done + [pl], rest);
    }
  }

  lemma PackAgrees(acc: Result<Pack, PackError>, done: seq<Planned>, pl: Planned, rest: seq<Planned>)
    requires Accumulates(acc, done) && Consistent((done + [pl]) + rest)
    ensures forall d :: d in RecMap(pl.pack) && d in RecMap(acc.value) ==> RecMap(pl.pack)[d] == RecMap(acc.value)[d]
  {
    hide Ascending, Holds, RecMap;
    forall d | d in RecMap(pl.pack) && d in RecMap(acc.value) ensures RecMap(pl.pack)[d] == RecMap(acc.value)[d] {
      var v, w := RecMap(pl.pack)[d], RecMap(acc.value)[d];
      HoldsOne(pl, d, v);
      HoldsSplit(done, [pl], d, v);
      HoldsSplit(done, [pl], d, w);
      HoldsSplit(done + [pl], rest, d, v);
      HoldsSplit(done + [pl], rest, d, w);
    }
  }

  lemma {:induction false} PublicationsHold(parts: seq<Pack>, d: Bytes, v: Bytes)
    requires Ascending(Join(parts))
    ensures Holds(Publications(parts), d, v) <==> d in RecMap(Join(parts)) && RecMap(Join(parts))[d] == v
    decreases |parts|
  {
    hide Ascending, Holds, Less;
    var all := Join(parts);
    if |parts| > 0 {
      AscendingParts(all, |parts[0]|);
      assert all[..|parts[0]|] == parts[0] && all[|parts[0]|..] == Join(parts[1..]);
      PublicationsHold(parts[1..], d, v);
      HoldsSplit([Publication(parts[0])], Publications(parts[1..]), d, v);
      MapsAgree(parts[0], d, v);
      InRecMap(all, Rec(d, v));
      InRecMap(parts[0], Rec(d, v));
      InRecMap(Join(parts[1..]), Rec(d, v));
    } else {
      NothingHeld(d, v);
    }
  }

  lemma PublicationsValid(parts: seq<Pack>)
    requires forall p :: p in parts ==> ValidPack(p)
    ensures AllValid(Publications(parts)) && |Publications(parts)| == |parts|
  {
  }

  /** Replacing some packs by publications of their merged entries keeps the meaning. */
  lemma ReplacementMeansTheSame(planned: seq<Planned>, x: Extract, es: Pack, parts: seq<Pack>)
    requires Ascending(es) && Join(parts) == es
    requires forall d, v :: Holds(planned, d, v) <==> Holds(x.before, d, v) || Holds(x.selected, d, v) || Holds(x.after, d, v)
    requires forall d, v :: (d in RecMap(es) && RecMap(es)[d] == v) <==> Holds(x.selected, d, v)
    ensures SameMeaning(planned, x.before + Publications(parts) + x.after)
  {
    hide Holds, RecMap, Ascending, Publications;
    var next := x.before + Publications(parts) + x.after;
    forall d, v ensures Holds(planned, d, v) <==> Holds(next, d, v) {
      PublicationsHold(parts, d, v);
      HoldsSplit(x.before, Publications(parts), d, v);
      HoldsSplit(x.before + Publications(parts), x.after, d, v);
    }
  }

  lemma ConsistentToo(a: seq<Planned>, b: seq<Planned>)
    requires Consistent(a) && SameMeaning(a, b)
    ensures Consistent(b)
  {
  }

  lemma SomeConsistent(planned: seq<Planned>, some: seq<Planned>)
    requires Consistent(planned) && forall d, v :: Holds(some, d, v) ==> Holds(planned, d, v)
    ensures Consistent(some)
  {
  }

  /** A carry over a consistent layout either gives up on its size, or means the same. */
  lemma CarryMeansTheSame(planned: seq<Planned>, tier: nat)
    requires AllValid(planned) && Consistent(planned)
    ensures var r := CarryTier(planned, tier);
      && (r.Err? ==> r == Err(PackTooLarge))
      && (r.Ok? ==> AllValid(r.value) && Consistent(r.value) && SameMeaning(planned, r.value))
  {
    hide Holds, ValidPack, RecMap, Ascending, Stuck, Partition, ValidEntries, Consistent, ExtractTier, SameMeaning;
    var x := ExtractTier(planned, tier, MAX_PACKS_PER_SIZE_TIER + 1);
    ExtractParts(planned, tier, MAX_PACKS_PER_SIZE_TIER + 1);
    forall d, v ensures Holds(planned, d, v) <==> Holds(x.before, d, v) || Holds(x.selected, d, v) || Holds(x.after, d, v) {
      ExtractHolds(planned, tier, MAX_PACKS_PER_SIZE_TIER + 1, d, v);
    }
    NoneAccumulates();
    SomeConsistent(planned, x.selected);
    assert [] + x.selected == x.selected;
    MergeAccumulates(Ok([]), [], x.selected);
    var es := MergeFrom(Ok([]), x.selected).value;
    var parts := Partition(es);
    PartitionSpec(es);
    PublicationsValid(parts);
    ReplacementMeansTheSame(planned, x, es, parts);
    ConsistentToo(planned, x.before + Publications(parts) + x.after);
  }

  /**
   What a carry makes of an overfull tier: the greedy cut of everything its first five packs
   hold stands in their place, unless that is five parts or more, all of the same tier again.
   */
  lemma CarryIs(planned: seq<Planned>, tier: nat, parts: seq<Pack>)
    requires AllValid(planned) && Consistent(planned) && CountTier(planned, tier) > MAX_PACKS_PER_SIZE_TIER
    requires Greedy(parts) && Ascending(Join(parts))
    requires var selected, all := ExtractTier(planned, tier, MAX_PACKS_PER_SIZE_TIER + 1).selected, RecMap(Join(parts));
      forall d, v :: (d in all && all[d] == v) <==> Holds(selected, d, v)
    ensures var x := ExtractTier(planned, tier, MAX_PACKS_PER_SIZE_TIER + 1);
      CarryTier(planned, tier) ==
        if |parts| > MAX_PACKS_PER_SIZE_TIER && forall p :: p in parts ==> TierOf(p) == tier then Err(PackTooLarge)
        else Ok(x.before + Publications(parts) + x.after)
  {
    hide Holds, ValidPack, RecMap, Ascending, Partition, ValidEntries, Consistent, ExtractTier, SameMeaning, TierOf, CountTier, Greedy, Join, Publications;
    var x := ExtractTier(planned, tier, MAX_PACKS_PER_SIZE_TIER + 1);
    ExtractParts(planned, tier, MAX_PACKS_PER_SIZE_TIER + 1);
    forall d, v | Holds(x.selected, d, v) ensures Holds(planned, d, v) {
      ExtractHolds(planned, tier, MAX_PACKS_PER_SIZE_TIER + 1, d, v);
    }
    NoneAccumulates();
    SomeConsistent(planned, x.selected);
    assert [] + x.selected == x.selected;
    MergeAccumulates(Ok([]), [], x.selected);
    var es := MergeFrom(Ok([]), x.selected).value;
    PartitionSpec(es);
    var a, b := RecMap(es), RecMap(Join(parts));
    assert a.Keys == b.Keys by {
      forall d | d in a ensures d in b {
        assert Holds(x.selected, d, a[d]);
      }
      forall d | d in b ensures d in a {
        assert Holds(x.selected, d, b[d]);
      }
    }
    assert forall d :: d in a ==> Holds(x.selected, d, a[d]) && b[d] == a[d];
    assert a == b;
    AscendingUnique(es, Join(parts));
    GreedyIsUnique(Partition(es), parts);
  }

  lemma NoneAccumulates()
    ensures Accumulates(Ok([]), [])
  {
  }

  /**
   Compaction of any consistent layout, however overfull, means the same for every
   digest; it ends after carrying each tier at most once.
   */
  lemma {:induction false} CompactMeansTheSame(planned: seq<Planned>, carried: seq<bool>)
    requires AllValid(planned) && Consistent(planned) && |carried| == PACK_SIZE_TIER_COUNT
    ensures var r := Compact(planned, carried);
      && (r.Err? ==> r == Err(PackTooLarge))
      && (r.Ok? ==> AllValid(r.value) && Consistent(r.value) && SameMeaning(planned, r.value))
      && (r.Ok? ==> forall d :: Get(r.value, d) == Get(planned, d))
    decreases TiersLeft(carried)
  {
    hide Holds, ValidPack, CarryTier, Get, CountTier, AllValid;
    var tier := OverfullFrom(planned, carried, 0);
    OverfullIs(planned, carried, 0);
    if tier.Some? {
      FewerTiersLeft(carried, tier.value);
      CarryMeansTheSame(planned, tier.value);
      var next := CarryTier(planned, tier.value);
      if next.Ok? {
        CompactMeansTheSame(next.value, carried[tier.value := true]);
        forall d ensures Get(next.value, d) == Get(planned, d) {
          SameAnswers(planned, next.value, d);
        }
      }
    }
  }

  lemma {:induction false} AllLeft(carried: seq<bool>)
    requires forall t :: 0 <= t < |carried| ==> !carried[t]
    ensures TiersLeft(carried) == |carried|
  {
    if |carried| > 0 {
      AllLeft(carried[1..]);
    }
  }

  predicate Distinct(tiers: seq<nat>) {
    forall i, j :: 0 <= i < j < |tiers| ==> tiers[i] != tiers[j]
  }

  lemma DistinctNone()
    ensures Distinct([])
  {
  }

  lemma DistinctFirst(tier: nat, rest: seq<nat>)
    requires Distinct(rest) && tier !in rest
    ensures Distinct([tier] + rest)
  {
  }

  /**
   The carries of a compaction: of different tiers that were not carried before, five
   packs each, and no more carries than tiers were left. A tier that ends overfull was carried.
   */
  lemma {:induction false} CarriesAreFew(planned: seq<Planned>, carried: seq<bool>)
    requires AllValid(planned) && Consistent(planned) && |carried| == PACK_SIZE_TIER_COUNT
    ensures var tiers, r := CarriedTiers(planned, carried), Compact(planned, carried);
      && |tiers| <= TiersLeft(carried)
      && (forall t :: t in tiers ==> t < PACK_SIZE_TIER_COUNT && !carried[t])
      && Distinct(tiers)
      && PacksSelected(planned, carried) == (MAX_PACKS_PER_SIZE_TIER + 1) * |tiers|
      && (r.Ok? ==> forall t :: 0 <= t < PACK_SIZE_TIER_COUNT && CountTier(r.value, t) > MAX_PACKS_PER_SIZE_TIER ==> carried[t] || t in tiers)
    decreases TiersLeft(carried)
  {
    hide Holds, ValidPack, CarryTier, CountTier, AllValid, Consistent, SameMeaning, ExtractTier, OverfullFrom, Distinct;
    var tier := OverfullFrom(planned, carried, 0);
    OverfullIs(planned, carried, 0);
    DistinctNone();
    if tier.Some? {
      FewerTiersLeft(carried, tier.value);
      CarryMeansTheSame(planned, tier.value);
      ExtractParts(planned, tier.value, MAX_PACKS_PER_SIZE_TIER + 1);
      var next := CarryTier(planned, tier.value);
      if next.Ok? {
        CarriesAreFew(next.value, carried[tier.value := true]);
      }
      DistinctFirst(tier.value, if next.Ok? then CarriedTiers(next.value, carried[tier.value := true]) else []);
    }
  }

  /** A whole compaction carries at most twenty times, each tier at most once and five packs each. */
  lemma CompactionIsShort(planned: seq<Planned>)
    requires AllValid(planned) && Consistent(planned)
    ensures var tiers := CarriedTiers(planned, NoneCarried());
      && |tiers| <= PACK_SIZE_TIER_COUNT && Distinct(tiers)
      && PacksSelected(planned, NoneCarried()) == (MAX_PACKS_PER_SIZE_TIER + 1) * |tiers|
  {
    hide Compact, CarriedTiers, PacksSelected;
    CarriesAreFew(planned, NoneCarried());
    AllLeft(NoneCarried());
  }
}
