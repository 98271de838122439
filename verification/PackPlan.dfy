/**
 The loops of compaction over a layout of packs, and installing the new layout
 in memory from the packs already open.

 A pack kept from the catalog carries its position there. The labels stay in
 catalog order without repetition through every carry, so installing a layout
 can move each kept pack out of the old catalog once.
 */
module PackPlan {
  import opened Wrappers
  import opened PackLimits
  import opened PackTiers
  import opened PackGrowth

  /** Cuts entries into packs, closing one when the next entry would overfill it. */
  method CutPublications(es: Pack) returns (parts: seq<Pack>)
    ensures parts == Partition(es)
  {
    hide PackBytes;
    var chunk := [];
    parts := [];
    assert es[0..] == es;
    for i := 0 to |es|
      invariant parts + PartitionFrom(chunk, es[i..]) == Partition(es)
    {
      assert es[i..][1..] == es[i + 1..] && es[i..][0] == es[i];
      if |chunk| != 0 && (|chunk| + 1 > MAX_PACK_ENTRIES || PackBytes(chunk + [es[i]]) > MAX_PACK_BYTES) {
        parts := parts + [chunk];
        chunk := [];
      }
      assert |chunk| == 0 ==> chunk + [es[i]] == [es[i]];
      chunk := chunk + [es[i]];
    }
    assert es[|es|..] == [];
    assert parts + [] == parts;
    return if |chunk| != 0 then parts + [chunk] else parts;
  }

  method PartitionPublications(es: Pack) returns (r: Result<seq<Pack>, PackError>)
    ensures r == if |es| == 0 then Err(Empty) else Ok(Partition(es))
  {
    hide Partition;
    if |es| == 0 {
      return Err(Empty);
    }
    var parts := CutPublications(es);
    return Ok(parts);
  }

  method CountTiers(planned: seq<Planned>) returns (counts: array<nat>)
    requires AllValid(planned)
    ensures fresh(counts) && counts.Length == PACK_SIZE_TIER_COUNT
    ensures forall t :: 0 <= t < PACK_SIZE_TIER_COUNT ==> counts[t] == CountTier(planned, t)
  {
    hide TierOf, ValidPack;
    counts := new nat[PACK_SIZE_TIER_COUNT](_ => 0);
    for i := 0 to |planned|
      invariant forall t :: 0 <= t < PACK_SIZE_TIER_COUNT ==> counts[t] == CountTier(planned[..i], t)
    {
      assert planned[i] in planned;
      ValidSize(planned[i].pack);
      TierBounds(planned[i].pack);
      forall t | 0 <= t < PACK_SIZE_TIER_COUNT
        ensures CountTier(planned[..i + 1], t) == CountTier(planned[..i], t) + if TierOf(planned[i].pack) == t then 1 else 0
      {
        SumsJoin(planned[..i], [planned[i]], t);
        assert planned[..i + 1] == planned[..i] + [planned[i]];
        assert CountTier([planned[i]], t) == if TierOf(planned[i].pack) == t then 1 else 0;
      }
      var tier := TierOf(planned[i].pack);
      counts[tier] := counts[tier] + 1;
    }
    assert planned[..|planned|] == planned;
  }

  /** The lowest overfull tier that was not carried yet. */
  method FirstOverfull(planned: seq<Planned>, carried: seq<bool>) returns (tier: Option<nat>)
    requires AllValid(planned) && |carried| == PACK_SIZE_TIER_COUNT
    ensures tier == OverfullFrom(planned, carried, 0)
  {
    hide CountTier;
    var counts := CountTiers(planned);
    for t := 0 to PACK_SIZE_TIER_COUNT
      invariant OverfullFrom(planned, carried, 0) == OverfullFrom(planned, carried, t)
    {
      if counts[t] > MAX_PACKS_PER_SIZE_TIER && !carried[t] {
        return Some(t);
      }
    }
    return None;
  }

  lemma ExtractStep(planned: seq<Planned>, i: nat, tier: nat, k: nat)
    requires i < |planned| && k > 0
    ensures var x := ExtractTier(planned[i + 1..], tier, if TierOf(planned[i].pack) == tier then k - 1 else k);
      ExtractTier(planned[i..], tier, k) ==
        if TierOf(planned[i].pack) == tier then x.(selected := [planned[i]] + x.selected) else x.(before := [planned[i]] + x.before)
  {
    hide TierOf;
    assert planned[i..][1..] == planned[i + 1..] && planned[i..][0] == planned[i];
  }

  /** Walks the layout until five packs of the tier are selected. */
  method SelectTier(planned: seq<Planned>, tier: nat) returns (x: Extract)
    ensures x == ExtractTier(planned, tier, MAX_PACKS_PER_SIZE_TIER + 1)
  {
    hide TierOf;
    var before, selected, i := [], [], 0;
    assert planned[0..] == planned;
    while i < |planned| && |selected| < MAX_PACKS_PER_SIZE_TIER + 1
      invariant i <= |planned| && |selected| <= MAX_PACKS_PER_SIZE_TIER + 1
      invariant var rest := ExtractTier(planned[i..], tier, MAX_PACKS_PER_SIZE_TIER + 1 - |selected|);
        ExtractTier(planned, tier, MAX_PACKS_PER_SIZE_TIER + 1) == Extract(before + rest.before, selected + rest.selected, rest.after)
    {
      ExtractStep(planned, i, tier, MAX_PACKS_PER_SIZE_TIER + 1 - |selected|);
      hide ExtractTier;
      if TierOf(planned[i].pack) == tier {
        selected := selected + [planned[i]];
      } else {
        before := before + [planned[i]];
      }
      i := i + 1;
    }
    x := Extract(before, selected, planned[i..]);
  }

  /** Copies the selected packs' entries into one map, refusing unequal duplicates. */
  method MergeSelected(selected: seq<Planned>) returns (r: Result<Pack, PackError>)
    ensures r == MergeFrom(Ok([]), selected)
  {
    hide AddEntry;
    var entries: Pack := [];
    assert selected[0..] == selected;
    for i := 0 to |selected|
      invariant MergeFrom(Ok([]), selected) == MergeFrom(Ok(entries), selected[i..])
    {
      assert selected[i..][1..] == selected[i + 1..];
      var p := selected[i].pack;
      ghost var before := entries;
      assert p[0..] == p;
      for j := 0 to |p|
        invariant AddPack(Ok(before), p) == AddPack(Ok(entries), p[j..])
      {
        assert p[j..][1..] == p[j + 1..];
        var added := AddEntry(Ok(entries), p[j]);
        if added.Err? {
          Sticks(added.error, p[j + 1..], selected[i + 1..]);
          return added;
        }
        entries := added.value;
      }
    }
    return Ok(entries);
  }

  lemma Sticks(e: PackError, p: Pack, selected: seq<Planned>)
    ensures AddPack(Err(e), p) == Err(e) && MergeFrom(Err(e), selected) == Err(e)
  {
    StickyPack(e, p);
    StickyMerge(e, selected);
  }

  lemma {:induction false} StickyPack(e: PackError, p: Pack)
    ensures AddPack(Err(e), p) == Err(e)
    decreases |p|
  {
    if |p| > 0 {
      StickyPack(e, p[1..]);
    }
  }

  lemma {:induction false} StickyMerge(e: PackError, selected: seq<Planned>)
    ensures MergeFrom(Err(e), selected) == Err(e)
    decreases |selected|
  {
    if |selected| > 0 {
      StickyPack(e, selected[0].pack);
      StickyMerge(e, selected[1..]);
    }
  }

  /** The compaction loop, counting the bytes of the packs it selects. */
  method CompactSizeTiers(start: seq<Planned>) returns (r: Result<seq<Planned>, PackError>, selectedBytes: nat)
    requires AllValid(start) && Consistent(start)
    ensures r == Compact(start, NoneCarried()) && selectedBytes == SelectedBytes(start, NoneCarried())
  {
    hide ValidPack, Holds, CountTier, TierOf, MergeFrom, Partition, ExtractTier, OverfullFrom, TotalBytes, Consistent, SameMeaning;
    var planned, carried := start, NoneCarried();
    selectedBytes := 0;
    while true
      invariant AllValid(planned) && Consistent(planned) && |carried| == PACK_SIZE_TIER_COUNT
      invariant Compact(start, NoneCarried()) == Compact(planned, carried)
      invariant SelectedBytes(start, NoneCarried()) == selectedBytes + SelectedBytes(planned, carried)
      decreases TiersLeft(carried)
    {
      var tier := FirstOverfull(planned, carried);
      if tier.None? {
        return Ok(planned), selectedBytes;
      }
      OverfullIs(planned, carried, 0);
      FewerTiersLeft(carried, tier.value);
      CarryMeansTheSame(planned, tier.value);
      var x := SelectTier(planned, tier.value);
      selectedBytes := selectedBytes + TotalBytes(x.selected);
      var entries := MergeSelected(x.selected);
      if entries.Err? {
        return Err(entries.error), selectedBytes;
      }
      var parts := CutPublications(entries.value);
      if Stuck(parts, |x.selected|, tier.value) {
        return Err(PackTooLarge), selectedBytes;
      }
      planned := x.before + Publications(parts) + x.after;
      carried := carried[tier.value := true];
    }
  }

  // ----- installing the new layout -----

  /** Kept packs name distinct packs of the catalog, in its order, and are those packs. */
  predicate Labelled(planned: seq<Planned>, packs: seq<Pack>, from: nat)
    decreases |planned|
  {
    if |planned| == 0 then true
    else match planned[0]
      case Publication(_) => Labelled(planned[1..], packs, from)
      case Existing(i, p) => from <= i < |packs| && packs[i] == p && Labelled(planned[1..], packs, i + 1)
  }

  function StartFrom(packs: seq<Pack>, i: nat): seq<Planned>
    requires i <= |packs|
    decreases |packs| - i
  {
    if i == |packs| then [] else [Existing(i, packs[i])] + StartFrom(packs, i + 1)
  }

  lemma {:induction false} StartIsLabelled(packs: seq<Pack>, i: nat, parts: seq<Pack>)
    requires i <= |packs|
    ensures Labelled(StartFrom(packs, i) + Publications(parts), packs, i)
    decreases |packs| - i
  {
    hide Publications, Labelled;
    if i == |packs| {
      assert StartFrom(packs, i) + Publications(parts) == Publications(parts);
      NewOnly(parts, packs, i);
    } else {
      StartIsLabelled(packs, i + 1, parts);
      var rest := StartFrom(packs, i + 1) + Publications(parts);
      assert StartFrom(packs, i) + Publications(parts) == [Existing(i, packs[i])] + rest;
      KeptFirst(packs, i, rest);
    }
  }

  lemma KeptFirst(packs: seq<Pack>, i: nat, rest: seq<Planned>)
    requires i < |packs| && Labelled(rest, packs, i + 1)
    ensures Labelled([Existing(i, packs[i])] + rest, packs, i)
  {
  }

  lemma {:induction false} NewOnly(parts: seq<Pack>, packs: seq<Pack>, from: nat)
    ensures Labelled(Publications(parts), packs, from)
    decreases |parts|
  {
    if |parts| > 0 {
      NewOnly(parts[1..], packs, from);
      assert Publications(parts)[1..] == Publications(parts[1..]);
    }
  }

  lemma {:induction false} FromEarlier(planned: seq<Planned>, packs: seq<Pack>, from: nat, earlier: nat)
    requires Labelled(planned, packs, from) && earlier <= from
    ensures Labelled(planned, packs, earlier)
    decreases |planned|
  {
    if |planned| > 0 && planned[0].Publication? {
      FromEarlier(planned[1..], packs, from, earlier);
    }
  }

  lemma {:induction false} AfterNew(parts: seq<Pack>, rest: seq<Planned>, packs: seq<Pack>, from: nat)
    requires Labelled(rest, packs, from)
    ensures Labelled(Publications(parts) + rest, packs, from)
    decreases |parts|
  {
    if |parts| > 0 {
      AfterNew(parts[1..], rest, packs, from);
      assert (Publications(parts) + rest)[1..] == Publications(parts[1..]) + rest;
    } else {
      assert Publications(parts) + rest == rest;
    }
  }

  /** Replacing selected packs by new ones leaves the kept ones in catalog order. */
  lemma {:induction false} ReplacedLabelled(planned: seq<Planned>, tier: nat, k: nat, parts: seq<Pack>, packs: seq<Pack>, from: nat)
    requires Labelled(planned, packs, from)
    ensures var x := ExtractTier(planned, tier, k); Labelled(x.before + Publications(parts) + x.after, packs, from)
    decreases |planned|
  {
    hide TierOf;
    var x := ExtractTier(planned, tier, k);
    if |planned| == 0 || k == 0 {
      AfterNew(parts, planned, packs, from);
      assert x.before + Publications(parts) + x.after == Publications(parts) + planned;
    } else {
      var head := planned[0];
      var next := if head.Existing? then head.index + 1 else from;
      var k' := if TierOf(head.pack) == tier then k - 1 else k;
      var rest := ExtractTier(planned[1..], tier, k');
      ReplacedLabelled(planned[1..], tier, k', parts, packs, next);
      if TierOf(head.pack) == tier {
        FromEarlier(rest.before + Publications(parts) + rest.after, packs, next, from);
      } else {
        assert x.before + Publications(parts) + x.after == [head] + (rest.before + Publications(parts) + rest.after);
      }
    }
  }

  /** Compaction keeps every retained pack's label, so each is installed once, in catalog order. */
  lemma {:induction false} CompactLabelled(planned: seq<Planned>, carried: seq<bool>, packs: seq<Pack>)
    requires Labelled(planned, packs, 0) && |carried| == PACK_SIZE_TIER_COUNT
    ensures Compact(planned, carried).Ok? ==> Labelled(Compact(planned, carried).value, packs, 0)
    decreases TiersLeft(carried)
  {
    hide Labelled, ExtractTier, MergeFrom, Partition, CountTier, Stuck;
    var tier := OverfullFrom(planned, carried, 0);
    OverfullIs(planned, carried, 0);
    if tier.Some? {
      FewerTiersLeft(carried, tier.value);
      var next := CarryTier(planned, tier.value);
      if next.Ok? {
        var es := MergeFrom(Ok([]), ExtractTier(planned, tier.value, MAX_PACKS_PER_SIZE_TIER + 1).selected).value;
        ReplacedLabelled(planned, tier.value, MAX_PACKS_PER_SIZE_TIER + 1, Partition(es), packs, 0);
        CompactLabelled(next.value, carried[tier.value := true], packs);
      }
    }
  }

  /** Installs a layout: kept packs are moved out of the old catalog, each exactly once. */
  method Finish(packs: seq<Pack>, planned: seq<Planned>) returns (installed: seq<Pack>)
    requires Labelled(planned, packs, 0)
    ensures |installed| == |planned| && forall i :: 0 <= i < |planned| ==> installed[i] == planned[i].pack
  {
    var slots: seq<Option<Pack>> := seq(|packs|, i requires 0 <= i < |packs| => Some(packs[i]));
    installed := [];
    ghost var from := 0;
    assert planned[0..] == planned;
    for n := 0 to |planned|
      invariant Labelled(planned[n..], packs, from) && |slots| == |packs|
      invariant forall i :: from <= i < |packs| ==> slots[i] == Some(packs[i])
      invariant |installed| == n && forall i :: 0 <= i < n ==> installed[i] == planned[i].pack
    {
      assert planned[n..][0] == planned[n] && planned[n..][1..] == planned[n + 1..];
      match planned[n]
      case Publication(p) =>
        installed := installed + [p];
      case Existing(i, p) =>
        installed := installed + [slots[i].value];
        slots := slots[i := None];
        from := i + 1;
    }
  }
}
