/** The size tiers over time: carries land strictly higher, tiers stay bounded, compaction costs at most twenty times the new bytes. */
module PackGrowth {
  import opened Wrappers
  import opened KeyBits
  import opened SortedRecords
  import opened PackLimits
  import opened PackTiers

  function TotalBytes(planned: seq<Planned>): nat {
    if |planned| == 0 then 0 else PackBytes(planned[0].pack) + TotalBytes(planned[1..])
  }

  /** The bytes of the packs of one tier. */
  function TierBytes(planned: seq<Planned>, tier: nat): nat {
    if |planned| == 0 then 0 else (if TierOf(planned[0].pack) == tier then PackBytes(planned[0].pack) else 0) + TierBytes(planned[1..], tier)
  }

  /** The bytes of the full tiers from `tier` up, those that one more pack would overfill. */
  function FullBytes(planned: seq<Planned>, tier: nat): nat
    decreases PACK_SIZE_TIER_COUNT - tier
  {
    if tier >= PACK_SIZE_TIER_COUNT then 0
    else (if CountTier(planned, tier) >= MAX_PACKS_PER_SIZE_TIER then TierBytes(planned, tier) else 0) + FullBytes(planned, tier + 1)
  }

  /** Bytes weighted by the tiers they may still climb. */
  function Potential(planned: seq<Planned>): nat {
    if |planned| == 0 then 0 else Weight(planned[0].pack) + Potential(planned[1..])
  }

  function Weight(p: Pack): nat {
    if TierOf(p) < PACK_SIZE_TIER_COUNT then PackBytes(p) * (PACK_SIZE_TIER_COUNT - TierOf(p)) else 0
  }

  /** In how many packs a digest occurs. */
  function Occurrences(planned: seq<Planned>, d: Bytes): nat {
    if |planned| == 0 then 0 else (if d in RecMap(planned[0].pack) then 1 else 0) + Occurrences(planned[1..], d)
  }

  /** No digest in two packs. */
  ghost predicate DuplicateFree(planned: seq<Planned>) {
    forall d :: Occurrences(planned, d) <= 1
  }

  // ----- sizes -----

  lemma {:induction false} Log2Bounds(n: nat)
    requires n > 0
    ensures Pow2(Log2(n)) <= n < Pow2(Log2(n) + 1)
  {
    if n >= 2 {
      Log2Bounds(n / 2);
    }
  }

  lemma {:induction false} Log2AtLeast(n: nat, k: nat)
    requires n >= Pow2(k)
    ensures Log2(n) >= k
    decreases k
  {
    if k > 0 {
      Log2AtLeast(n / 2, k - 1);
    }
  }

  lemma {:induction false} Log2Below(n: nat, k: nat)
    requires n < Pow2(k) && k > 0
    ensures Log2(n) < k
    decreases k
  {
    if n >= 2 {
      Log2Below(n / 2, k - 1);
    }
  }

  lemma Powers()
    ensures Pow2(5) == 32 && Pow2(25) == 2 * MAX_PACK_BYTES
  {
    assert Pow2(5) == 32;
    assert Pow2(10) == 32 * Pow2(5);
    assert Pow2(15) == 32 * Pow2(10);
    assert Pow2(20) == 32 * Pow2(15);
    assert Pow2(25) == 32 * Pow2(20);
  }

  /** A pack's tier is within the fixed number of tiers and says its size up to a factor of two. */
  lemma TierBounds(p: Pack)
    requires MIN_PACK_BYTES <= PackBytes(p) <= MAX_PACK_BYTES
    ensures TierOf(p) < PACK_SIZE_TIER_COUNT
    ensures Pow2(TierOf(p) + 5) <= PackBytes(p) < Pow2(TierOf(p) + 6)
  {
    hide PackBytes, Pow2;
    Powers();
    Log2AtLeast(PackBytes(p), 5);
    Log2Below(PackBytes(p), 25);
    Log2Bounds(PackBytes(p));
  }

  lemma ValidSize(p: Pack)
    requires ValidPack(p)
    ensures MIN_PACK_BYTES <= PackBytes(p) <= MAX_PACK_BYTES
  {
    PayloadAtLeast(p);
  }

  lemma {:induction false} Pow2AtLeast32(t: nat)
    ensures Pow2(t + 5) >= 32 && Pow2(t + 6) == 2 * Pow2(t + 5)
  {
    Powers();
    if t > 0 {
      Pow2AtLeast32(t - 1);
    }
  }

  lemma {:induction false} FiveAreLarge(selected: seq<Planned>, tier: nat)
    requires AllValid(selected) && forall pl :: pl in selected ==> TierOf(pl.pack) == tier
    ensures TotalBytes(selected) >= |selected| * Pow2(tier + 5)
  {
    hide PackBytes, ValidPack, TierOf, Pow2;
    if |selected| > 0 {
      var pl := selected[0];
      assert pl in selected && selected == [pl] + selected[1..];
      FiveAreLarge(selected[1..], tier);
      ValidSize(pl.pack);
      TierBounds(pl.pack);
      OneMore(|selected|, Pow2(tier + 5));
    }
  }

  lemma OneMore(n: nat, w: nat)
    requires n > 0
    ensures n * w == (n - 1) * w + w
  {
  }

  // ----- what merging does to sizes -----

  lemma {:induction false} PayloadJoins(a: Pack, b: Pack)
    ensures PayloadBytes(a + b) == PayloadBytes(a) + PayloadBytes(b)
    decreases |b|
  {
    if |b| == 0 {
      assert a + b == a;
    } else {
      assert (a + b)[..|a + b| - 1] == a + b[..|b| - 1];
      PayloadJoins(a, b[..|b| - 1]);
    }
  }

  lemma {:induction false} InsertGrows(es: Pack, e: Entry)
    requires Ascending(es) && e.key !in RecMap(es)
    ensures |OrInsert(es, e)| == |es| + 1 && PayloadBytes(OrInsert(es, e)) == PayloadBytes(es) + |e.value|
  {
    hide Less, Ascending;
    PayloadGrows([], e);
    assert [] + [e] == [e];
    if |es| > 0 {
      if Less(e.key, es[0].key) {
        PayloadJoins([e], es);
      } else {
        AscendingTail(es);
        InsertGrows(es[1..], e);
        PayloadJoins([es[0]], OrInsert(es[1..], e));
        PayloadJoins([es[0]], es[1..]);
        assert [es[0]] + es[1..] == es;
      }
    }
  }

  lemma PayloadFirst(p: Pack)
    requires |p| > 0
    ensures PayloadBytes(p) == |p[0].value| + PayloadBytes(p[1..])
  {
    PayloadJoins([p[0]], p[1..]);
    PayloadGrows([], p[0]);
    assert [] + [p[0]] == [p[0]] && [p[0]] + p[1..] == p;
  }

  lemma AddFresh(acc: Pack, e: Entry)
    requires Ascending(acc) && e.key != [] && e.key !in RecMap(acc)
    ensures AddEntry(Ok(acc), e) == Ok(OrInsert(acc, e)) && Ascending(OrInsert(acc, e))
    ensures |OrInsert(acc, e)| == |acc| + 1 && PayloadBytes(OrInsert(acc, e)) == PayloadBytes(acc) + |e.value|
    ensures RecMap(OrInsert(acc, e)).Keys == RecMap(acc).Keys + {e.key}
  {
    hide Ascending, OrInsert, PayloadBytes;
    OrInsertSpec(acc, e);
    InsertGrows(acc, e);
  }

  lemma {:induction false} AddPackGrows(acc: Pack, p: Pack)
    requires Ascending(acc) && Ascending(p) && RecMap(acc).Keys !! RecMap(p).Keys
    ensures var r := AddPack(Ok(acc), p);
      r.Ok? && Ascending(r.value) && |r.value| == |acc| + |p| && PayloadBytes(r.value) == PayloadBytes(acc) + PayloadBytes(p)
      && RecMap(r.value).Keys == RecMap(acc).Keys + RecMap(p).Keys
    decreases |p|
  {
    hide Ascending, OrInsert, AddEntry;
    if |p| > 0 {
      AscendingTail(p);
      FirstNotLater(p);
      assert RecMap(p).Keys == {p[0].key} + RecMap(p[1..]).Keys;
      assert p[0].key in RecMap(p).Keys;
      AddFresh(acc, p[0]);
      AddPackGrows(OrInsert(acc, p[0]), p[1..]);
      PayloadFirst(p);
    }
  }

  ghost function KeysHeld(planned: seq<Planned>): set<Bytes> {
    if |planned| == 0 then {} else RecMap(planned[0].pack).Keys + KeysHeld(planned[1..])
  }

  lemma {:induction false} HeldMeansOccurs(planned: seq<Planned>, d: Bytes)
    ensures d in KeysHeld(planned) <==> Occurrences(planned, d) > 0
  {
    hide RecMap;
    if |planned| > 0 {
      HeldMeansOccurs(planned[1..], d);
    }
  }

  lemma FirstApart(planned: seq<Planned>)
    requires DuplicateFree(planned) && |planned| > 0
    ensures RecMap(planned[0].pack).Keys !! KeysHeld(planned[1..]) && DuplicateFree(planned[1..])
  {
    hide RecMap;
    forall d ensures Occurrences(planned[1..], d) <= 1 && (d in RecMap(planned[0].pack) ==> d !in KeysHeld(planned[1..])) {
      HeldMeansOccurs(planned[1..], d);
      assert Occurrences(planned, d) <= 1;
    }
  }

  /** Merging packs without duplicates drops all headers but one. */
  lemma {:induction false} MergeGrows(acc: Pack, selected: seq<Planned>)
    requires Ascending(acc) && AllValid(selected) && DuplicateFree(selected) && RecMap(acc).Keys !! KeysHeld(selected)
    ensures var r := MergeFrom(Ok(acc), selected);
      r.Ok? && PackBytes(r.value) + |selected| * PACK_HEADER_BYTES == PackBytes(acc) + TotalBytes(selected)
      && RecMap(r.value).Keys == RecMap(acc).Keys + KeysHeld(selected)
    decreases |selected|
  {
    hide Less, Ascending, RecMap;
    if |selected| > 0 {
      var pl := selected[0];
      assert pl in selected && selected == [pl] + selected[1..];
      FirstApart(selected);
      AddPackGrows(acc, pl.pack);
      MergeGrows(AddPack(Ok(acc), pl.pack).value, selected[1..]);
    }
  }

  // ----- layouts as sums of their parts -----

  lemma {:induction false} SumsJoin(a: seq<Planned>, b: seq<Planned>, tier: nat)
    ensures TotalBytes(a + b) == TotalBytes(a) + TotalBytes(b)
    ensures Potential(a + b) == Potential(a) + Potential(b)
    ensures CountTier(a + b, tier) == CountTier(a, tier) + CountTier(b, tier)
  {
    hide PackBytes, TierOf, Weight, RecMap;
    if |a| == 0 {
      assert a + b == b;
    } else {
      assert (a + b)[1..] == a[1..] + b;
      SumsJoin(a[1..], b, tier);
    }
  }

  lemma {:induction false} ExtractSums(planned: seq<Planned>, tier: nat, k: nat, t: nat)
    ensures var x := ExtractTier(planned, tier, k);
      && TotalBytes(planned) == TotalBytes(x.before) + TotalBytes(x.selected) + TotalBytes(x.after)
      && Potential(planned) == Potential(x.before) + Potential(x.selected) + Potential(x.after)
      && CountTier(planned, t) == CountTier(x.before, t) + CountTier(x.selected, t) + CountTier(x.after, t)
    decreases |planned|
  {
    hide PackBytes, TierOf, Weight, RecMap;
    if |planned| != 0 && k != 0 {
      var mine := TierOf(planned[0].pack) == tier;
      var x := ExtractTier(planned[1..], tier, if mine then k - 1 else k);
      ExtractSums(planned[1..], tier, if mine then k - 1 else k, t);
      assert ([planned[0]] + x.selected)[1..] == x.selected && ([planned[0]] + x.before)[1..] == x.before;
    }
  }

  lemma {:induction false} OneTierCounts(selected: seq<Planned>, tier: nat, t: nat)
    requires forall pl :: pl in selected ==> TierOf(pl.pack) == tier
    ensures CountTier(selected, t) == if t == tier then |selected| else 0
  {
    hide TierOf;
    if |selected| > 0 {
      assert selected[0] in selected && selected == [selected[0]] + selected[1..];
      OneTierCounts(selected[1..], tier, t);
    }
  }

  lemma {:induction false} OneTierWeighs(selected: seq<Planned>, tier: nat)
    requires tier < PACK_SIZE_TIER_COUNT && forall pl :: pl in selected ==> TierOf(pl.pack) == tier
    ensures Potential(selected) == TotalBytes(selected) * (PACK_SIZE_TIER_COUNT - tier)
  {
    hide TierOf, PackBytes;
    if |selected| > 0 {
      assert selected[0] in selected && selected == [selected[0]] + selected[1..];
      OneTierWeighs(selected[1..], tier);
      Distribute(PackBytes(selected[0].pack), TotalBytes(selected[1..]), PACK_SIZE_TIER_COUNT - tier);
    }
  }

  lemma Distribute(a: nat, b: nat, c: nat)
    ensures (a + b) * c == a * c + b * c
  {
  }

  lemma {:induction false} OccurrencesJoin(a: seq<Planned>, b: seq<Planned>, d: Bytes)
    ensures Occurrences(a + b, d) == Occurrences(a, d) + Occurrences(b, d)
  {
    hide RecMap;
    if |a| == 0 {
      assert a + b == b;
    } else {
      assert (a + b)[1..] == a[1..] + b;
      OccurrencesJoin(a[1..], b, d);
    }
  }

  lemma {:induction false} ExtractOccurrences(planned: seq<Planned>, tier: nat, k: nat, d: Bytes)
    ensures var x := ExtractTier(planned, tier, k);
      Occurrences(planned, d) == Occurrences(x.before, d) + Occurrences(x.selected, d) + Occurrences(x.after, d)
    decreases |planned|
  {
    hide TierOf, RecMap;
    if |planned| != 0 && k != 0 {
      var mine := TierOf(planned[0].pack) == tier;
      var x := ExtractTier(planned[1..], tier, if mine then k - 1 else k);
      ExtractOccurrences(planned[1..], tier, if mine then k - 1 else k, d);
      assert ([planned[0]] + x.selected)[1..] == x.selected && ([planned[0]] + x.before)[1..] == x.before;
    }
  }

  lemma SelectedDuplicateFree(planned: seq<Planned>, tier: nat, k: nat)
    requires DuplicateFree(planned)
    ensures DuplicateFree(ExtractTier(planned, tier, k).selected)
  {
    hide Occurrences, ExtractTier;
    forall d ensures Occurrences(ExtractTier(planned, tier, k).selected, d) <= 1 {
      ExtractOccurrences(planned, tier, k, d);
    }
  }

  /** One pack in place of the packs it merges: still no duplicates. */
  lemma StillDuplicateFree(planned: seq<Planned>, tier: nat, k: nat, es: Pack)
    requires DuplicateFree(planned) && RecMap(es).Keys == KeysHeld(ExtractTier(planned, tier, k).selected)
    ensures var x := ExtractTier(planned, tier, k); DuplicateFree(x.before + [Publication(es)] + x.after)
  {
    hide ExtractTier, RecMap, KeysHeld;
    var x := ExtractTier(planned, tier, k);
    forall d ensures Occurrences(x.before + [Publication(es)] + x.after, d) <= 1 {
      ExtractOccurrences(planned, tier, k, d);
      HeldMeansOccurs(x.selected, d);
      OccurrencesJoin(x.before, [Publication(es)], d);
      OccurrencesJoin(x.before + [Publication(es)], x.after, d);
      assert Occurrences([Publication(es)], d) == if d in RecMap(es) then 1 else 0;
      assert Occurrences(planned, d) <= 1;
    }
  }

  // ----- the carry -----

  /** Entries that fit one pack are cut into one pack. */
  lemma FitsOnePack(es: Pack)
    requires Ascending(es) && ValidEntries(es) && |es| > 0 && PackBytes(es) <= MAX_PACK_BYTES
    ensures Partition(es) == [es]
  {
    hide PackBytes, Ascending, Partition;
    PartitionSpec(es);
    assert Join([es]) == es + Join([]) == es;
    GreedyIsUnique(Partition(es), [es]);
  }

  /** Five packs merged into one land in a strictly higher tier, and the potential pays for reading them. */
  lemma CarryLandsHigher(selected: seq<Planned>, es: Pack, tier: nat)
    requires AllValid(selected) && |selected| == MAX_PACKS_PER_SIZE_TIER + 1 && tier < PACK_SIZE_TIER_COUNT
    requires forall pl :: pl in selected ==> TierOf(pl.pack) == tier
    requires PackBytes(es) + MAX_PACKS_PER_SIZE_TIER * PACK_HEADER_BYTES == TotalBytes(selected) && PackBytes(es) <= MAX_PACK_BYTES
    ensures tier < TierOf(es) < PACK_SIZE_TIER_COUNT
    ensures Weight(es) + TotalBytes(selected) <= Potential(selected)
  {
    hide PackBytes, TotalBytes, Potential, TierOf, Pow2, AllValid, ValidPack;
    FiveAreLarge(selected, tier);
    Pow2AtLeast32(tier);
    var b := PackBytes(es);
    assert b >= Pow2(tier + 6);
    TierBounds(es);
    if TierOf(es) <= tier {
      Pow2Rises(TierOf(es) + 6, tier + 6);
    }
    OneTierWeighs(selected, tier);
    var room, left := PACK_SIZE_TIER_COUNT - tier, PACK_SIZE_TIER_COUNT - TierOf(es);
    WeightFalls(b, TotalBytes(selected), left, room);
  }

  lemma Pow2Rises(a: nat, b: nat)
    requires a <= b
    ensures Pow2(a) <= Pow2(b)
  {
  }

  lemma WeightFalls(b: nat, s: nat, left: nat, room: nat)
    requires b <= s && left + 1 <= room
    ensures b * left + s <= s * room
  {
    assert b * left <= s * left;
    assert s * left + s == s * (left + 1);
    assert s * (left + 1) <= s * room;
  }

  ghost predicate Proper(planned: seq<Planned>) {
    AllValid(planned) && DuplicateFree(planned)
  }

  /** The layout fits into one pack. */
  ghost predicate Bounded(planned: seq<Planned>) {
    Proper(planned) && TotalBytes(planned) <= MAX_PACK_BYTES
  }

  lemma DuplicateFreeIsConsistent(planned: seq<Planned>)
    requires DuplicateFree(planned)
    ensures Consistent(planned)
  {
    hide RecMap;
    forall d, v, w | Holds(planned, d, v) && Holds(planned, d, w) ensures v == w {
      var i :| 0 <= i < |planned| && d in RecMap(planned[i].pack) && RecMap(planned[i].pack)[d] == v;
      var j :| 0 <= j < |planned| && d in RecMap(planned[j].pack) && RecMap(planned[j].pack)[d] == w;
      if i < j {
        TwiceOccurs(planned, i, j, d);
      } else if j < i {
        TwiceOccurs(planned, j, i, d);
      }
    }
  }

  lemma {:induction false} TwiceOccurs(planned: seq<Planned>, i: nat, j: nat, d: Bytes)
    requires i < j < |planned| && d in RecMap(planned[i].pack) && d in RecMap(planned[j].pack)
    ensures Occurrences(planned, d) > 1
  {
    hide RecMap;
    assert planned == planned[..j] + planned[j..];
    OccurrencesJoin(planned[..j], planned[j..], d);
    OccursSomewhere(planned[..j], i, d);
    OccursSomewhere(planned[j..], 0, d);
  }

  lemma {:induction false} OccursSomewhere(planned: seq<Planned>, i: nat, d: Bytes)
    requires i < |planned| && d in RecMap(planned[i].pack)
    ensures Occurrences(planned, d) > 0
  {
    hide RecMap;
    if i > 0 {
      OccursSomewhere(planned[1..], i - 1, d);
    }
  }

  lemma {:induction false} TierBytesJoin(a: seq<Planned>, b: seq<Planned>, tier: nat)
    ensures TierBytes(a + b, tier) == TierBytes(a, tier) + TierBytes(b, tier)
  {
    hide PackBytes, TierOf;
    if |a| == 0 {
      assert a + b == b;
    } else {
      assert (a + b)[1..] == a[1..] + b;
      TierBytesJoin(a[1..], b, tier);
    }
  }

  lemma {:induction false} TierBytesExtract(planned: seq<Planned>, tier: nat, k: nat, t: nat)
    ensures var x := ExtractTier(planned, tier, k);
      TierBytes(planned, t) == TierBytes(x.before, t) + TierBytes(x.selected, t) + TierBytes(x.after, t)
    decreases |planned|
  {
    hide PackBytes, TierOf;
    if |planned| > 0 && k > 0 {
      TierBytesExtract(planned[1..], tier, if TierOf(planned[0].pack) == tier then k - 1 else k, t);
    }
  }

  lemma {:induction false} TierBytesOfOne(selected: seq<Planned>, tier: nat, t: nat)
    requires forall pl :: pl in selected ==> TierOf(pl.pack) == tier
    ensures TierBytes(selected, t) == if t == tier then TotalBytes(selected) else 0
  {
    hide PackBytes, TierOf;
    if |selected| > 0 {
      assert selected[0] in selected;
      TierBytesOfOne(selected[1..], tier, t);
    }
  }

  /** What one carry does to a layout if the five packs fit into one. */
  lemma CarryFits(planned: seq<Planned>, tier: nat)
    requires Proper(planned) && tier < PACK_SIZE_TIER_COUNT && CountTier(planned, tier) == MAX_PACKS_PER_SIZE_TIER + 1
    requires TierBytes(planned, tier) <= MAX_PACK_BYTES
    ensures var r, x := CarryTier(planned, tier), ExtractTier(planned, tier, MAX_PACKS_PER_SIZE_TIER + 1);
      && r.Ok? && Proper(r.value)
      && Potential(r.value) + TotalBytes(x.selected) <= Potential(planned)
      && TotalBytes(r.value) <= TotalBytes(planned)
      && exists s: nat :: tier < s < PACK_SIZE_TIER_COUNT && Moved(planned, r.value, tier, s) && MovedBytes(planned, r.value, tier, s)
  {
    hide PackBytes, TotalBytes, TierBytes, Potential, TierOf, AllValid, ValidPack, DuplicateFree, CountTier, Occurrences, KeysHeld, Holds, ExtractTier, RecMap, Ascending;
    var k := MAX_PACKS_PER_SIZE_TIER + 1;
    var x := ExtractTier(planned, tier, k);
    var es := MergedSelection(planned, tier);
    var next := x.before + [Publication(es)] + x.after;
    CarryLandsHigher(x.selected, es, tier);
    assert CarryTier(planned, tier) == Ok(next) by {
      CarriedWhole(planned, tier, es);
    }
    StillDuplicateFree(planned, tier, k, es);
    CarryMeansTheSame(planned, tier) by {
      DuplicateFreeIsConsistent(planned);
    }
    NextSums(planned, tier, es, 0);
    forall t: nat ensures CountTier(next, t) == CountTier(planned, t) - (if t == tier then k else 0) + (if t == TierOf(es) then 1 else 0) {
      NextSums(planned, tier, es, t);
    }
    forall t: nat ensures t != tier ==> TierBytes(next, t) <= TierBytes(planned, t) + if t == TierOf(es) then TierBytes(planned, tier) else 0 {
      if t != tier { NextTierBytes(planned, tier, es, t); }
    }
    assert Moved(planned, next, tier, TierOf(es));
    assert MovedBytes(planned, next, tier, TierOf(es));
  }

  /** What arrived is no larger than what left. */
  ghost predicate MovedBytes(planned: seq<Planned>, next: seq<Planned>, tier: nat, to: nat) {
    forall t: nat :: t != tier ==> TierBytes(next, t) <= TierBytes(planned, t) + if t == to then TierBytes(planned, tier) else 0
  }

  lemma NextTierBytes(planned: seq<Planned>, tier: nat, es: Pack, t: nat)
    requires var x := ExtractTier(planned, tier, MAX_PACKS_PER_SIZE_TIER + 1);
      PackBytes(es) <= TotalBytes(x.selected) && forall pl :: pl in x.selected ==> TierOf(pl.pack) == tier
    requires t != tier
    ensures var x := ExtractTier(planned, tier, MAX_PACKS_PER_SIZE_TIER + 1);
      TierBytes(x.before + [Publication(es)] + x.after, t) <= TierBytes(planned, t) + if t == TierOf(es) then TierBytes(planned, tier) else 0
  {
    hide PackBytes, TierOf, ExtractTier, TotalBytes;
    var k := MAX_PACKS_PER_SIZE_TIER + 1;
    var x := ExtractTier(planned, tier, k);
    TierBytesExtract(planned, tier, k, t);
    TierBytesExtract(planned, tier, k, tier);
    TierBytesOfOne(x.selected, tier, t);
    TierBytesOfOne(x.selected, tier, tier);
    TierBytesJoin(x.before, [Publication(es)], t);
    TierBytesJoin(x.before + [Publication(es)], x.after, t);
  }

  /** Five packs left one tier, one arrived in another. */
  ghost predicate Moved(planned: seq<Planned>, next: seq<Planned>, tier: nat, to: nat) {
    forall t: nat :: CountTier(next, t) == CountTier(planned, t) - (if t == tier then MAX_PACKS_PER_SIZE_TIER + 1 else 0) + (if t == to then 1 else 0)
  }

  /** The merged entries of the five selected packs fit one pack. */
  lemma MergedSelection(planned: seq<Planned>, tier: nat) returns (es: Pack)
    requires Proper(planned) && CountTier(planned, tier) >= MAX_PACKS_PER_SIZE_TIER + 1 && TierBytes(planned, tier) <= MAX_PACK_BYTES
    ensures var x := ExtractTier(planned, tier, MAX_PACKS_PER_SIZE_TIER + 1);
      && MergeFrom(Ok([]), x.selected) == Ok(es) && Ascending(es) && ValidEntries(es) && |es| > 0
      && |x.selected| == MAX_PACKS_PER_SIZE_TIER + 1 && AllValid(x.selected)
      && (forall pl :: pl in x.selected ==> TierOf(pl.pack) == tier)
      && PackBytes(es) + MAX_PACKS_PER_SIZE_TIER * PACK_HEADER_BYTES == TotalBytes(x.selected) && PackBytes(es) <= MAX_PACK_BYTES
      && RecMap(es).Keys == KeysHeld(x.selected)
  {
    hide TotalBytes, TierBytes, Potential, TierOf, CountTier, Occurrences, Holds, ExtractTier, Ascending, ValidPack, PayloadBytes;
    var k := MAX_PACKS_PER_SIZE_TIER + 1;
    var x := ExtractTier(planned, tier, k);
    ExtractParts(planned, tier, k);
    SelectedDuplicateFree(planned, tier, k);
    NoneAccumulates();
    DuplicateFreeIsConsistent(x.selected);
    assert [] + x.selected == x.selected;
    MergeAccumulates(Ok([]), [], x.selected);
    EmptyPack();
    MergeGrows([], x.selected);
    es := MergeFrom(Ok([]), x.selected).value;
    TierBytesExtract(planned, tier, k, tier);
    TierBytesOfOne(x.selected, tier, tier);
    NotEmptyMerge(x.selected, es);
  }

  lemma EmptyPack()
    ensures Ascending<Bytes>([]) && PackBytes([]) == PACK_HEADER_BYTES && RecMap<Bytes>([]).Keys == {}
  {
  }

  lemma NotEmptyMerge(selected: seq<Planned>, es: Pack)
    requires |selected| > 0 && AllValid(selected) && RecMap(es).Keys == KeysHeld(selected)
    ensures |es| > 0
  {
    hide Ascending;
    assert selected[0] in selected;
    RecMapAt(selected[0].pack, 0);
    assert selected[0].pack[0].key in KeysHeld(selected);
  }

  lemma CarriedWhole(planned: seq<Planned>, tier: nat, es: Pack)
    requires var x := ExtractTier(planned, tier, MAX_PACKS_PER_SIZE_TIER + 1);
      MergeFrom(Ok([]), x.selected) == Ok(es) && |x.selected| == MAX_PACKS_PER_SIZE_TIER + 1
    requires Ascending(es) && ValidEntries(es) && |es| > 0 && PackBytes(es) <= MAX_PACK_BYTES
    ensures var x := ExtractTier(planned, tier, MAX_PACKS_PER_SIZE_TIER + 1);
      CarryTier(planned, tier) == Ok(x.before + [Publication(es)] + x.after)
  {
    hide PackBytes, ExtractTier, MergeFrom, Ascending, Partition;
    FitsOnePack(es);
    assert Publications([es]) == [Publication(es)] + Publications([es][1..]);
    assert Publications([es]) == [Publication(es)];
  }

  lemma NextSums(planned: seq<Planned>, tier: nat, es: Pack, t: nat)
    requires var x := ExtractTier(planned, tier, MAX_PACKS_PER_SIZE_TIER + 1);
      && |x.selected| == MAX_PACKS_PER_SIZE_TIER + 1 && (forall pl :: pl in x.selected ==> TierOf(pl.pack) == tier)
      && PackBytes(es) <= TotalBytes(x.selected)
      && Weight(es) + TotalBytes(x.selected) <= Potential(x.selected)
    ensures var x := ExtractTier(planned, tier, MAX_PACKS_PER_SIZE_TIER + 1);
      var next := x.before + [Publication(es)] + x.after;
      && TotalBytes(next) <= TotalBytes(planned)
      && Potential(next) + TotalBytes(x.selected) <= Potential(planned)
      && CountTier(next, t) == CountTier(planned, t) - (if t == tier then MAX_PACKS_PER_SIZE_TIER + 1 else 0) + (if t == TierOf(es) then 1 else 0)
  {
    hide PackBytes, TierOf, Weight, ExtractTier;
    var x := ExtractTier(planned, tier, MAX_PACKS_PER_SIZE_TIER + 1);
    ExtractSums(planned, tier, MAX_PACKS_PER_SIZE_TIER + 1, t);
    OneTierCounts(x.selected, tier, t);
    SumsJoin(x.before, [Publication(es)], t);
    SumsJoin(x.before + [Publication(es)], x.after, t);
  }

  // ----- compaction and history -----

  /** The bytes of all packs selected while compacting. */
  function SelectedBytes(planned: seq<Planned>, carried: seq<bool>): nat
    requires |carried| == PACK_SIZE_TIER_COUNT
    decreases TiersLeft(carried)
  {
    var tier := OverfullFrom(planned, carried, 0);
    OverfullIs(planned, carried, 0);
    if tier.None? then 0
    else
      FewerTiersLeft(carried, tier.value);
      var next := CarryTier(planned, tier.value);
      TotalBytes(ExtractTier(planned, tier.value, MAX_PACKS_PER_SIZE_TIER + 1).selected)
        + if next.Ok? then SelectedBytes(next.value, carried[tier.value := true]) else 0
  }

  /** At most one tier is overfull, by one pack, and nothing from it up has been carried. */
  ghost predicate OneOver(planned: seq<Planned>, carried: seq<bool>, at: nat)
    requires |carried| == PACK_SIZE_TIER_COUNT
  {
    && at < PACK_SIZE_TIER_COUNT && CountTier(planned, at) <= MAX_PACKS_PER_SIZE_TIER + 1
    && (forall t :: 0 <= t < PACK_SIZE_TIER_COUNT && t != at ==> CountTier(planned, t) <= MAX_PACKS_PER_SIZE_TIER)
    && (forall t :: at <= t < PACK_SIZE_TIER_COUNT ==> !carried[t])
  }

  lemma OverfullOne(planned: seq<Planned>, carried: seq<bool>, at: nat)
    requires |carried| == PACK_SIZE_TIER_COUNT && OneOver(planned, carried, at)
    ensures OverfullFrom(planned, carried, 0) == if CountTier(planned, at) > MAX_PACKS_PER_SIZE_TIER then Some(at) else None
  {
    hide CountTier;
    OverfullIs(planned, carried, 0);
  }

  /** Skipping tiers that are not full, or not counting them, leaves less. */
  lemma {:induction false} FullBytesFrom(planned: seq<Planned>, from: nat, tier: nat)
    requires from <= tier < PACK_SIZE_TIER_COUNT && CountTier(planned, tier) >= MAX_PACKS_PER_SIZE_TIER
    ensures TierBytes(planned, tier) + FullBytes(planned, tier + 1) <= FullBytes(planned, from)
    decreases tier - from
  {
    hide TierBytes, CountTier;
    if from < tier {
      FullBytesFrom(planned, from + 1, tier);
    }
  }

  lemma {:induction false} FullBytesAlike(a: seq<Planned>, b: seq<Planned>, from: nat)
    requires forall t :: from <= t < PACK_SIZE_TIER_COUNT ==> CountTier(a, t) == CountTier(b, t) && TierBytes(a, t) <= TierBytes(b, t)
    ensures FullBytes(a, from) <= FullBytes(b, from)
    decreases PACK_SIZE_TIER_COUNT - from
  {
    hide TierBytes, CountTier;
    if from < PACK_SIZE_TIER_COUNT {
      FullBytesAlike(a, b, from + 1);
    }
  }

  /** The overfull tier, if there is one, fits into one pack together with all full tiers above it. */
  predicate RoomAbove(planned: seq<Planned>, at: nat) {
    CountTier(planned, at) > MAX_PACKS_PER_SIZE_TIER ==> TierBytes(planned, at) + FullBytes(planned, at + 1) <= MAX_PACK_BYTES
  }

  lemma RoomMoves(planned: seq<Planned>, next: seq<Planned>, at: nat, s: nat)
    requires at < s < PACK_SIZE_TIER_COUNT && Moved(planned, next, at, s) && MovedBytes(planned, next, at, s)
    requires RoomAbove(planned, at) && CountTier(planned, at) > MAX_PACKS_PER_SIZE_TIER && CountTier(planned, s) <= MAX_PACKS_PER_SIZE_TIER
    ensures RoomAbove(next, s)
  {
    hide TierBytes, CountTier, FullBytes;
    if CountTier(next, s) > MAX_PACKS_PER_SIZE_TIER {
      FullBytesFrom(planned, at + 1, s);
      FullBytesAlike(next, planned, s + 1);
    }
  }

  /**
   Where the overfull tier and the full tiers above it fit into one pack, compaction
   succeeds, ends tier-bounded, and is paid for by the potential.
   */
  lemma {:induction false} CompactWithRoom(planned: seq<Planned>, carried: seq<bool>, at: nat)
    requires |carried| == PACK_SIZE_TIER_COUNT && Proper(planned) && OneOver(planned, carried, at) && RoomAbove(planned, at)
    ensures var r := Compact(planned, carried);
      && r.Ok? && Proper(r.value) && TiersBounded(r.value)
      && Potential(r.value) + SelectedBytes(planned, carried) <= Potential(planned)
      && TotalBytes(r.value) <= TotalBytes(planned)
    decreases TiersLeft(carried)
  {
    hide Proper, CarryTier, ExtractTier, Potential, TotalBytes, TierBytes, FullBytes, CountTier, OverfullFrom, RoomAbove, MovedBytes;
    OverfullOne(planned, carried, at);
    if CountTier(planned, at) > MAX_PACKS_PER_SIZE_TIER {
      FewerTiersLeft(carried, at);
      OneFits(planned, at);
      CarryFits(planned, at);
      var next := CarryTier(planned, at).value;
      var s: nat :| at < s < PACK_SIZE_TIER_COUNT && Moved(planned, next, at, s) && MovedBytes(planned, next, at, s);
      RoomMoves(planned, next, at, s);
      CompactWithRoom(next, carried[at := true], s);
    }
  }

  lemma OneFits(planned: seq<Planned>, at: nat)
    requires RoomAbove(planned, at) && CountTier(planned, at) > MAX_PACKS_PER_SIZE_TIER
    ensures TierBytes(planned, at) <= MAX_PACK_BYTES
  {
  }

  /** Appending a delta of new entries: cut, compacted, and refused if the catalog would be too large or its tiers come out overfull. */
  function Append(current: seq<Planned>, delta: Pack): Result<seq<Planned>, PackError> {
    Guarded(current, Limited(Compact(current + Publications(Partition(delta)), NoneCarried())))
  }

  /** The limits on what a catalog may name. */
  function Limited(r: Result<seq<Planned>, PackError>): Result<seq<Planned>, PackError> {
    if r.Ok? && (|r.value| > MAX_CATALOG_PACKS || TotalBytes(r.value) > MAX_CATALOG_PACK_BYTES) then Err(PackTooLarge) else r
  }

  /** The check behind compaction. */
  function Guarded(current: seq<Planned>, r: Result<seq<Planned>, PackError>): Result<seq<Planned>, PackError> {
    if r.Ok? && TiersBounded(current) && !TiersBounded(r.value) then Err(PackTooLarge) else r
  }

  /** The packs of the first `n` tiers. */
  function InTiers(planned: seq<Planned>, n: nat): nat {
    if n == 0 then 0 else InTiers(planned, n - 1) + CountTier(planned, n - 1)
  }

  lemma {:induction false} TierOnce(planned: seq<Planned>, n: nat)
    requires |planned| > 0
    ensures InTiers(planned, n) == InTiers(planned[1..], n) + if TierOf(planned[0].pack) < n then 1 else 0
  {
    hide TierOf;
    if n > 0 {
      TierOnce(planned, n - 1);
    }
  }

  /** Every pack is in one of the twenty tiers. */
  lemma {:induction false} EachInATier(planned: seq<Planned>)
    requires AllValid(planned)
    ensures InTiers(planned, PACK_SIZE_TIER_COUNT) == |planned|
  {
    hide TierOf, ValidPack, CountTier;
    if |planned| == 0 {
      NoTiers(PACK_SIZE_TIER_COUNT);
    } else {
      assert planned[0] in planned;
      ValidSize(planned[0].pack);
      TierBounds(planned[0].pack);
      TierOnce(planned, PACK_SIZE_TIER_COUNT);
      EachInATier(planned[1..]);
    }
  }

  lemma {:induction false} NoTiers(n: nat)
    ensures InTiers([], n) == 0
  {
    if n > 0 {
      NoTiers(n - 1);
    }
  }

  lemma {:induction false} FewInTiers(planned: seq<Planned>, n: nat)
    requires TiersBounded(planned) && n <= PACK_SIZE_TIER_COUNT
    ensures InTiers(planned, n) <= MAX_PACKS_PER_SIZE_TIER * n
  {
    hide CountTier;
    if n > 0 {
      FewInTiers(planned, n - 1);
    }
  }

  /** Bounded tiers keep the catalog within its limit on packs. */
  lemma WithinLimits(planned: seq<Planned>)
    requires AllValid(planned) && TiersBounded(planned) && TotalBytes(planned) <= MAX_CATALOG_PACK_BYTES
    ensures Limited(Ok(planned)) == Ok(planned)
  {
    hide CountTier, TierOf, TotalBytes, AllValid;
    EachInATier(planned);
    FewInTiers(planned, PACK_SIZE_TIER_COUNT);
  }

  /** One of these tiers is overfull. */
  predicate Refilled(tiers: seq<nat>, planned: seq<Planned>) {
    exists t :: t in tiers && CountTier(planned, t) > MAX_PACKS_PER_SIZE_TIER
  }

  /**
   On any consistent layout, however large, the guard refuses an append that compaction
   and the catalog's limits admit if and only if the tiers were bounded before and one
   that compaction carried has been filled up again.
   */
  lemma GuardRefusesRefilledTiers(current: seq<Planned>, delta: Pack)
    requires AllValid(current + Publications(Partition(delta))) && Consistent(current + Publications(Partition(delta)))
    requires Limited(Compact(current + Publications(Partition(delta)), NoneCarried())).Ok?
    ensures var start := current + Publications(Partition(delta));
      Append(current, delta).Err? <==> TiersBounded(current) && Refilled(CarriedTiers(start, NoneCarried()), Compact(start, NoneCarried()).value)
  {
    hide Compact, CarriedTiers, CountTier, TotalBytes, Partition, AllValid, Consistent, PacksSelected;
    var start := current + Publications(Partition(delta));
    CarriesAreFew(start, NoneCarried());
  }

  function AppendWork(current: seq<Planned>, delta: Pack): nat {
    SelectedBytes(current + Publications(Partition(delta)), NoneCarried())
  }

  lemma {:induction false} TierInRange(planned: seq<Planned>, t: nat)
    requires AllValid(planned) && t >= PACK_SIZE_TIER_COUNT
    ensures CountTier(planned, t) == 0
  {
    hide TierOf, ValidPack;
    if |planned| > 0 {
      assert planned[0] in planned && planned == [planned[0]] + planned[1..];
      ValidSize(planned[0].pack);
      TierBounds(planned[0].pack);
      TierInRange(planned[1..], t);
    }
  }

  /**
   What a caller can see before an append: the delta is one pack, and together with the
   packs of the full tiers from its own tier up it fits into one.
   */
  ghost predicate HasRoom(current: seq<Planned>, delta: Pack) {
    && |delta| > 0 && Proper(current + [Publication(delta)]) && TiersBounded(current)
    && FullBytes(current, TierOf(delta)) + PackBytes(delta) <= MAX_PACK_BYTES
    && TotalBytes(current) + PackBytes(delta) <= MAX_CATALOG_PACK_BYTES
  }

  lemma StartHasRoom(current: seq<Planned>, delta: Pack)
    requires HasRoom(current, delta) && TierOf(delta) < PACK_SIZE_TIER_COUNT
    ensures RoomAbove(current + [Publication(delta)], TierOf(delta))
  {
    hide PackBytes, TierOf, CountTier, TierBytes, TotalBytes, AllValid, DuplicateFree;
    var start, at := current + [Publication(delta)], TierOf(delta);
    forall t: nat ensures CountTier(start, t) == CountTier(current, t) + if t == at then 1 else 0
                  ensures TierBytes(start, t) == TierBytes(current, t) + if t == at then PackBytes(delta) else 0 {
      SumsJoin(current, [Publication(delta)], t);
      TierBytesJoin(current, [Publication(delta)], t);
      OneInTier(delta, t);
    }
    FullBytesAlike(start, current, at + 1);
  }

  lemma OneInTier(delta: Pack, t: nat)
    ensures CountTier([Publication(delta)], t) == if t == TierOf(delta) then 1 else 0
    ensures TierBytes([Publication(delta)], t) == if t == TierOf(delta) then PackBytes(delta) else 0
  {
    hide PackBytes, TierOf;
  }

  /**
   For catalogs of any size up to the limit: an append that has room succeeds and leaves
   the tiers bounded, so neither the limits nor the guard refuse it.
   */
  lemma AppendWithRoom(current: seq<Planned>, delta: Pack)
    requires HasRoom(current, delta)
    ensures var r := Append(current, delta);
      && r.Ok? && Proper(r.value) && TiersBounded(r.value)
      && Compact(current + Publications(Partition(delta)), NoneCarried()) == r
      && SameMeaning(current + [Publication(delta)], r.value)
      && TotalBytes(r.value) <= TotalBytes(current) + PackBytes(delta)
      && Potential(r.value) + AppendWork(current, delta) <= Potential(current) + PACK_SIZE_TIER_COUNT * PackBytes(delta)
  {
    hide PackBytes, TierOf, Compact, SelectedBytes, CountTier, Holds, DuplicateFree, TiersBounded, ValidPack, Potential, TotalBytes, Partition, FullBytes, RoomAbove;
    var start := current + [Publication(delta)];
    assert start[|current|] == Publication(delta);
    assert Publication(delta) in start;
    assert ValidPack(delta);
    PackIsWhole(delta);
    ValidSize(delta);
    TierBounds(delta);
    SumsJoin(current, [Publication(delta)], 0);
    OneWeighs(delta);
    OverByOne(current, delta);
    StartHasRoom(current, delta);
    CompactWithRoom(start, NoneCarried(), TierOf(delta));
    WithinLimits(Compact(start, NoneCarried()).value);
    DuplicateFreeIsConsistent(start);
    CompactMeansTheSame(start, NoneCarried());
  }

  /** A small delta has room wherever the four highest tiers are not full, however much they hold. */
  lemma SmallDeltaHasRoom(current: seq<Planned>, delta: Pack)
    requires |delta| > 0 && Proper(current + [Publication(delta)]) && TiersBounded(current)
    requires TotalBytes(current) + PackBytes(delta) <= MAX_CATALOG_PACK_BYTES
    requires TierOf(delta) < 16 && forall t :: 16 <= t < PACK_SIZE_TIER_COUNT ==> CountTier(current, t) < MAX_PACKS_PER_SIZE_TIER
    ensures HasRoom(current, delta)
  {
    hide PackBytes, TierOf, CountTier, TierBytes, TotalBytes, DuplicateFree, ValidPack, Pow2;
    var start := current + [Publication(delta)];
    assert start[|current|] == Publication(delta);
    assert Publication(delta) in start;
    ValidSize(delta);
    TierBounds(delta);
    forall pl | pl in current ensures ValidPack(pl.pack) {
      assert pl in start;
    }
    LowTiersFit(current, TierOf(delta));
    Powers();
    Pow2AtLeast32(19);
    Pow2AtLeast32(18);
    Pow2AtLeast32(17);
  }

  lemma {:induction false} LowTiersFit(planned: seq<Planned>, from: nat)
    requires AllValid(planned) && TiersBounded(planned) && from <= 16
    requires forall t :: 16 <= t < PACK_SIZE_TIER_COUNT ==> CountTier(planned, t) < MAX_PACKS_PER_SIZE_TIER
    ensures FullBytes(planned, from) + 4 * Pow2(from + 6) <= 4 * Pow2(22)
    decreases 16 - from
  {
    hide PackBytes, TierOf, CountTier, TierBytes, TotalBytes, ValidPack, AllValid;
    if from == 16 {
      HighTiersNotFull(planned, 16);
    } else {
      LowTiersFit(planned, from + 1);
      TierBytesBelow(planned, from);
    }
  }

  lemma {:induction false} HighTiersNotFull(planned: seq<Planned>, from: nat)
    requires forall t :: from <= t < PACK_SIZE_TIER_COUNT ==> CountTier(planned, t) < MAX_PACKS_PER_SIZE_TIER
    ensures FullBytes(planned, from) == 0
    decreases PACK_SIZE_TIER_COUNT - from
  {
    hide CountTier, TierBytes;
    if from < PACK_SIZE_TIER_COUNT {
      HighTiersNotFull(planned, from + 1);
    }
  }

  lemma {:induction false} TierBytesBelow(planned: seq<Planned>, tier: nat)
    requires AllValid(planned)
    ensures TierBytes(planned, tier) <= CountTier(planned, tier) * Pow2(tier + 6)
  {
    hide PackBytes, TierOf, ValidPack, Pow2;
    if |planned| > 0 {
      assert planned[0] in planned;
      ValidSize(planned[0].pack);
      TierBounds(planned[0].pack);
      TierBytesBelow(planned[1..], tier);
      if TierOf(planned[0].pack) == tier {
        OneMore(CountTier(planned, tier), Pow2(tier + 6));
      }
    }
  }

  lemma {:induction false} FullIsPart(planned: seq<Planned>, from: nat)
    ensures FullBytes(planned, from) <= TotalBytes(planned)
  {
    FullInTiers(planned, from);
    TiersInTotal(planned, from);
  }

  /** The bytes of all tiers from `tier` up. */
  function HighBytes(planned: seq<Planned>, tier: nat): nat
    decreases PACK_SIZE_TIER_COUNT - tier
  {
    if tier >= PACK_SIZE_TIER_COUNT then 0 else TierBytes(planned, tier) + HighBytes(planned, tier + 1)
  }

  lemma {:induction false} FullInTiers(planned: seq<Planned>, from: nat)
    ensures FullBytes(planned, from) <= HighBytes(planned, from)
    decreases PACK_SIZE_TIER_COUNT - from
  {
    hide TierBytes, CountTier;
    if from < PACK_SIZE_TIER_COUNT {
      FullInTiers(planned, from + 1);
    }
  }

  lemma {:induction false} TiersInTotal(planned: seq<Planned>, from: nat)
    ensures HighBytes(planned, from) <= TotalBytes(planned)
    decreases |planned|
  {
    hide PackBytes, TierOf;
    HighFirst(planned, from);
    if |planned| > 0 {
      TiersInTotal(planned[1..], from);
    }
  }

  lemma {:induction false} HighFirst(planned: seq<Planned>, from: nat)
    ensures HighBytes(planned, from) ==
      if |planned| == 0 then 0
      else HighBytes(planned[1..], from) + if from <= TierOf(planned[0].pack) < PACK_SIZE_TIER_COUNT then PackBytes(planned[0].pack) else 0
    decreases PACK_SIZE_TIER_COUNT - from
  {
    hide PackBytes, TierOf;
    if from < PACK_SIZE_TIER_COUNT {
      HighFirst(planned, from + 1);
    }
  }

  /** Compaction of a layout that fits into one pack. */
  lemma CompactInBounds(planned: seq<Planned>, carried: seq<bool>, at: nat)
    requires |carried| == PACK_SIZE_TIER_COUNT && Bounded(planned) && OneOver(planned, carried, at)
    ensures var r := Compact(planned, carried);
      && r.Ok? && Bounded(r.value) && TiersBounded(r.value)
      && Potential(r.value) + SelectedBytes(planned, carried) <= Potential(planned)
      && TotalBytes(r.value) <= TotalBytes(planned)
  {
    hide Compact, SelectedBytes, Proper, CountTier, TotalBytes, TierBytes, Potential, TiersBounded;
    FullInTiers(planned, at + 1);
    TiersInTotal(planned, at);
    CompactWithRoom(planned, carried, at);
  }

  /** An append whose whole layout fits one pack has room, so it succeeds. */
  lemma AppendInBounds(current: seq<Planned>, delta: Pack)
    requires TiersBounded(current) && Bounded(current + [Publication(delta)]) && |delta| > 0
    ensures var r := Append(current, delta);
      && r.Ok? && Bounded(r.value) && TiersBounded(r.value)
      && Compact(current + Publications(Partition(delta)), NoneCarried()) == r
      && SameMeaning(current + [Publication(delta)], r.value)
      && TotalBytes(r.value) <= TotalBytes(current) + PackBytes(delta)
      && Potential(r.value) + AppendWork(current, delta) <= Potential(current) + PACK_SIZE_TIER_COUNT * PackBytes(delta)
  {
    hide PackBytes, TierOf, Compact, SelectedBytes, CountTier, SameMeaning, Proper, TiersBounded, Potential, TotalBytes, Partition, FullBytes, Append;
    SumsJoin(current, [Publication(delta)], 0);
    OneTotal(delta);
    FullIsPart(current, TierOf(delta));
    AppendWithRoom(current, delta);
  }

  lemma PackIsWhole(delta: Pack)
    requires ValidPack(delta)
    ensures Publications(Partition(delta)) == [Publication(delta)]
  {
    hide PackBytes, Ascending, Partition;
    FitsOnePack(delta);
    assert Publications([delta]) == [Publication(delta)] + Publications([delta][1..]);
  }

  lemma OneWeighs(delta: Pack)
    requires TierOf(delta) < PACK_SIZE_TIER_COUNT
    ensures TotalBytes([Publication(delta)]) == PackBytes(delta)
    ensures Potential([Publication(delta)]) == Weight(delta) <= PACK_SIZE_TIER_COUNT * PackBytes(delta)
  {
    hide PackBytes, TierOf;
    var b, left := PackBytes(delta), PACK_SIZE_TIER_COUNT - TierOf(delta);
    assert b * left <= b * PACK_SIZE_TIER_COUNT;
  }

  lemma OverByOne(current: seq<Planned>, delta: Pack)
    requires TiersBounded(current) && TierOf(delta) < PACK_SIZE_TIER_COUNT
    ensures OneOver(current + [Publication(delta)], NoneCarried(), TierOf(delta))
  {
    hide TierOf;
    forall t | 0 <= t < PACK_SIZE_TIER_COUNT
      ensures CountTier(current + [Publication(delta)], t) == CountTier(current, t) + if t == TierOf(delta) then 1 else 0
    {
      SumsJoin(current, [Publication(delta)], t);
      assert CountTier([Publication(delta)], t) == if t == TierOf(delta) then 1 else 0;
    }
  }

  /** The layout after a history of appends, and the bytes selected on the way. */
  function History(deltas: seq<Pack>): Result<seq<Planned>, PackError>
    decreases |deltas|
  {
    if |deltas| == 0 then Ok([])
    else match History(deltas[..|deltas| - 1])
      case Err(e) => Err(e)
      case Ok(current) => Append(current, deltas[|deltas| - 1])
  }

  function HistoryWork(deltas: seq<Pack>): nat
    decreases |deltas|
  {
    if |deltas| == 0 then 0
    else
      var before := History(deltas[..|deltas| - 1]);
      HistoryWork(deltas[..|deltas| - 1]) + if before.Ok? then AppendWork(before.value, deltas[|deltas| - 1]) else 0
  }

  lemma {:induction false} OccursIffHeld(planned: seq<Planned>, d: Bytes)
    ensures Occurrences(planned, d) > 0 <==> exists v :: Holds(planned, d, v)
  {
    hide RecMap;
    if |planned| > 0 {
      OccursIffHeld(planned[1..], d);
      assert planned == [planned[0]] + planned[1..];
      forall v ensures Holds(planned, d, v) <==> Holds([planned[0]], d, v) || Holds(planned[1..], d, v) {
        HoldsSplit([planned[0]], planned[1..], d, v);
      }
      if d in RecMap(planned[0].pack) {
        HoldsOne(planned[0], d, RecMap(planned[0].pack)[d]);
      } else {
        forall v ensures !Holds([planned[0]], d, v) {
          HoldsOne(planned[0], d, v);
        }
      }
    }
  }

  /** What has been appended so far, as it was and as it is now laid out, admits the same further deltas. */
  lemma NextDelta(now: seq<Planned>, asWas: seq<Planned>, delta: Pack)
    requires Bounded(now) && SameMeaning(asWas, now) && TotalBytes(now) <= TotalBytes(asWas)
    requires Bounded(asWas + [Publication(delta)])
    ensures Bounded(now + [Publication(delta)]) && SameMeaning(asWas + [Publication(delta)], now + [Publication(delta)])
  {
    hide Holds, PackBytes, ValidPack, RecMap;
    var last := [Publication(delta)];
    SumsJoin(now, last, 0);
    SumsJoin(asWas, last, 0);
    assert (asWas + last)[|asWas|] == Publication(delta);
    assert Publication(delta) in asWas + last;
    forall d ensures Occurrences(now + last, d) <= 1 {
      OccurrencesJoin(now, last, d);
      OccurrencesJoin(asWas, last, d);
      OccursIffHeld(now, d);
      OccursIffHeld(asWas, d);
      assert Occurrences(now, d) <= 1;
      assert Occurrences(asWas + last, d) <= 1;
      assert (exists v :: Holds(now, d, v)) ==> exists v :: Holds(asWas, d, v);
    }
    forall d, v ensures Holds(asWas + last, d, v) <==> Holds(now + last, d, v) {
      HoldsSplit(now, last, d, v);
      HoldsSplit(asWas, last, d, v);
    }
  }

  lemma PublicationsAppend(parts: seq<Pack>, p: Pack)
    ensures Publications(parts + [p]) == Publications(parts) + [Publication(p)]
  {
    if |parts| > 0 {
      assert (parts + [p])[1..] == parts[1..] + [p];
      PublicationsAppend(parts[1..], p);
    } else {
      assert parts + [p] == [p] && [p][1..] == [];
      assert Publications([p]) == [Publication(p)] + Publications([]);
    }
  }

  lemma BoundedBefore(asWas: seq<Planned>, last: Planned)
    requires Bounded(asWas + [last])
    ensures Bounded(asWas)
  {
    hide PackBytes, ValidPack, RecMap;
    SumsJoin(asWas, [last], 0);
    forall d ensures Occurrences(asWas, d) <= 1 {
      OccurrencesJoin(asWas, [last], d);
      assert Occurrences(asWas + [last], d) <= 1;
    }
  }

  /**
   Over any history of duplicate-free deltas within one pack's bound, every append
   succeeds and leaves at most four packs a tier, the layout holds exactly the deltas,
   and the bytes ever selected for compaction are at most twenty times the delta bytes.
   */
  lemma {:induction false} HistoryIsAmortised(deltas: seq<Pack>)
    requires Bounded(Publications(deltas)) && forall p :: p in deltas ==> |p| > 0
    ensures var r := History(deltas);
      && r.Ok? && Bounded(r.value) && TiersBounded(r.value)
      && SameMeaning(Publications(deltas), r.value)
      && TotalBytes(r.value) <= TotalBytes(Publications(deltas))
      && Potential(r.value) + HistoryWork(deltas) <= PACK_SIZE_TIER_COUNT * TotalBytes(Publications(deltas))
    decreases |deltas|
  {
    hide Bounded, SameMeaning, Append, AppendWork, Potential, TotalBytes, TiersBounded, PackBytes;
    if |deltas| == 0 {
      NoHistory();
    } else {
      var before, delta := deltas[..|deltas| - 1], deltas[|deltas| - 1];
      assert deltas == before + [delta];
      PublicationsAppend(before, delta);
      BoundedBefore(Publications(before), Publication(delta));
      HistoryIsAmortised(before);
      var now := History(before).value;
      NextDelta(now, Publications(before), delta);
      AppendInBounds(now, delta);
      MeaningChains(Publications(deltas), now + [Publication(delta)], Append(now, delta).value);
      SumsJoin(Publications(before), [Publication(delta)], 0);
      OneTotal(delta);
    }
  }

  lemma OneTotal(delta: Pack)
    ensures TotalBytes([Publication(delta)]) == PackBytes(delta)
  {
  }

  lemma MeaningChains(a: seq<Planned>, b: seq<Planned>, c: seq<Planned>)
    requires SameMeaning(a, b) && SameMeaning(b, c)
    ensures SameMeaning(a, c)
  {
    hide Holds;
  }

  lemma NoHistory()
    ensures Bounded([]) && TiersBounded([]) && SameMeaning([], []) && TotalBytes([]) == 0 && Potential([]) == 0
  {
  }

  /** Each append of the history has room when it is made. */
  ghost predicate RoomAlong(deltas: seq<Pack>)
    decreases |deltas|
  {
    |deltas| == 0 ||
    var n := |deltas| - 1;
    RoomAlong(deltas[..n]) && History(deltas[..n]).Ok? && HasRoom(History(deltas[..n]).value, deltas[n])
  }

  /**
   Over any history whose appends have room, for catalogs up to the limit, all of them
   succeed and leave the tiers bounded, the layout holds exactly the deltas, and the
   bytes ever selected for compaction are at most twenty times the delta bytes.
   */
  lemma {:induction false} RoomyHistoryIsAmortised(deltas: seq<Pack>)
    requires RoomAlong(deltas)
    ensures var r := History(deltas);
      && r.Ok? && Proper(r.value) && TiersBounded(r.value)
      && SameMeaning(Publications(deltas), r.value)
      && Potential(r.value) + HistoryWork(deltas) <= PACK_SIZE_TIER_COUNT * TotalBytes(Publications(deltas))
    decreases |deltas|
  {
    hide Proper, SameMeaning, Append, AppendWork, Potential, TotalBytes, TiersBounded, PackBytes, HasRoom;
    if |deltas| == 0 {
      NoHistory();
      assert Proper([]) by { ProperNone(); }
    } else {
      var before, delta := deltas[..|deltas| - 1], deltas[|deltas| - 1];
      assert deltas == before + [delta];
      PublicationsAppend(before, delta);
      RoomyHistoryIsAmortised(before);
      var now := History(before).value;
      AppendWithRoom(now, delta);
      MeaningJoined(Publications(before), now, Publication(delta));
      MeaningChains(Publications(deltas), now + [Publication(delta)], Append(now, delta).value);
      SumsJoin(Publications(before), [Publication(delta)], 0);
      OneTotal(delta);
    }
  }

  lemma ProperNone()
    ensures Proper([])
  {
  }

  lemma MeaningJoined(a: seq<Planned>, b: seq<Planned>, last: Planned)
    requires SameMeaning(a, b)
    ensures SameMeaning(a + [last], b + [last])
  {
    hide Holds;
    forall d, v ensures Holds(a + [last], d, v) <==> Holds(b + [last], d, v) {
      HoldsSplit(a, [last], d, v);
      HoldsSplit(b, [last], d, v);
    }
  }
}
