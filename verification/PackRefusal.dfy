/** An append that only the guard behind compaction refuses: uniform entries of the largest size, and a tier filled up again. */
module PackRefusal {
  import opened Wrappers
  import opened KeyBits
  import opened SortedRecords
  import opened PackLimits
  import opened PackTiers
  import opened PackGrowth
  import PackStream
  import PackAppend

  // ----- runs of entries -----

  function Key(i: nat): Bytes
    requires i < 1000
  {
    [i / 256, i % 256]
  }

  /** Different values of the largest size an entry may have. */
  function Val(i: nat): (v: Bytes)
    requires i < 1000
    ensures |v| == MAX_PACK_ENTRY_BYTES
  {
    Key(i) + seq(MAX_PACK_ENTRY_BYTES - 2, _ => 0)
  }

  /** The entries from `a` up to `b`. */
  function Run(a: nat, b: nat): (p: Pack)
    requires a <= b <= 1000
    ensures |p| == b - a && forall k :: 0 <= k < b - a ==> p[k] == Rec(Key(a + k), Val(a + k))
  {
    seq(b - a, k requires 0 <= k < b - a => Rec(Key(a + k), Val(a + k)))
  }

  predicate InRun(a: nat, b: nat, d: Bytes, v: Bytes)
    requires a <= b <= 1000
  {
    exists i :: a <= i < b && d == Key(i) && v == Val(i)
  }

  lemma KeysRise(i: nat, j: nat)
    requires i < j < 1000
    ensures Less(Key(i), Key(j)) && Key(i) != Key(j)
  {
    var x, y := Key(i), Key(j);
    assert x[1..] == [i % 256] && y[1..] == [j % 256];
    assert Less(x[1..], y[1..]) <==> i % 256 < j % 256;
  }

  lemma RunAscends(a: nat, b: nat)
    requires a <= b <= 1000
    ensures Ascending(Run(a, b)) && ValidEntries(Run(a, b))
  {
    hide Less, Val;
    var p := Run(a, b);
    forall k | 0 <= k < |p| ensures p[k].key != [] && (k > 0 ==> Less(p[k - 1].key, p[k].key)) {
      if k > 0 { KeysRise(a + k - 1, a + k); }
    }
  }

  lemma RunJoin(a: nat, b: nat, c: nat)
    requires a <= b <= c <= 1000
    ensures Run(a, b) + Run(b, c) == Run(a, c)
  {
    hide Key, Val;
  }

  lemma {:induction false} RunBytes(a: nat, b: nat)
    requires a <= b <= 1000
    ensures PackBytes(Run(a, b)) == 20 + (b - a) * 131112
  {
    hide Key, Val, PackBytes;
    if a == b {
      assert Run(a, b) == [];
      EmptyPack();
    } else {
      RunBytes(a, b - 1);
      assert Run(a, b) == Run(a, b - 1) + [Rec(Key(b - 1), Val(b - 1))];
      PayloadGrows(Run(a, b - 1), Rec(Key(b - 1), Val(b - 1)));
    }
  }

  lemma RunTier(a: nat, b: nat)
    requires a <= b <= 1000
    ensures 8 <= b - a <= 14 ==> TierOf(Run(a, b)) == 15
    ensures 64 <= b - a <= 127 ==> TierOf(Run(a, b)) == 18
  {
    hide PackBytes, Log2;
    RunBytes(a, b);
    var n := PackBytes(Run(a, b));
    Doublings();
    if 8 <= b - a <= 14 {
      Log2AtLeast(n, 20);
      Log2Below(n, 21);
    }
    if 64 <= b - a <= 127 {
      Log2AtLeast(n, 23);
      Log2Below(n, 24);
    }
  }

  lemma Doublings()
    ensures Pow2(20) == 1048576 && Pow2(21) == 2097152 && Pow2(23) == 8388608 && Pow2(24) == 16777216
  {
    Powers();
    assert Pow2(25) == 2 * Pow2(24);
    assert Pow2(24) == 2 * Pow2(23);
    assert Pow2(23) == 2 * Pow2(22);
    assert Pow2(22) == 2 * Pow2(21);
    assert Pow2(21) == 2 * Pow2(20);
  }

  lemma RunHas(a: nat, b: nat, d: Bytes, v: Bytes)
    requires a <= b <= 1000
    ensures PackStream.Has(Run(a, b), d, v) <==> InRun(a, b, d, v)
  {
    hide Key, Val, Less, Ascending;
    var p := Run(a, b);
    RunAscends(a, b);
    if d in RecMap(p) {
      var i := RecMapKey(p, d);
      RecMapAt(p, i);
      assert a <= a + i < b && d == Key(a + i);
    }
    if InRun(a, b, d, v) {
      var i :| a <= i < b && d == Key(i) && v == Val(i);
      RecMapAt(p, i - a);
      assert p[i - a] == Rec(Key(i), Val(i));
    }
    if d in RecMap(p) && RecMap(p)[d] == v {
      var i := RecMapKey(p, d);
      RecMapAt(p, i);
      assert p[i] == Rec(Key(a + i), Val(a + i));
      assert InRun(a, b, d, v);
    }
  }

  // ----- layouts of runs -----

  predicate IsRun(p: Pack) {
    exists a, b :: 0 <= a < b <= 1000 && b - a <= 127 && p == Run(a, b)
  }

  predicate AllRuns(planned: seq<Planned>) {
    forall pl :: pl in planned ==> IsRun(pl.pack)
  }

  lemma RunIsValid(p: Pack)
    requires IsRun(p)
    ensures ValidPack(p)
  {
    hide Ascending, PackBytes, Key, Val;
    var a, b :| 0 <= a < b <= 1000 && b - a <= 127 && p == Run(a, b);
    RunAscends(a, b);
    RunBytes(a, b);
  }

  lemma RunsAreProper(planned: seq<Planned>)
    requires AllRuns(planned)
    ensures AllValid(planned) && Consistent(planned)
  {
    hide ValidPack, IsRun, RecMap;
    forall pl | pl in planned ensures ValidPack(pl.pack) {
      RunIsValid(pl.pack);
    }
    forall d, v, w | Holds(planned, d, v) && Holds(planned, d, w) ensures v == w {
      var i :| 0 <= i < |planned| && d in RecMap(planned[i].pack) && RecMap(planned[i].pack)[d] == v;
      var j :| 0 <= j < |planned| && d in RecMap(planned[j].pack) && RecMap(planned[j].pack)[d] == w;
      assert planned[i] in planned && planned[j] in planned;
      OneValue(planned[i].pack, d, v);
      OneValue(planned[j].pack, d, w);
      SameIndex(d, v, w);
    }
  }

  predicate Filed(d: Bytes, v: Bytes) {
    InRun(0, 1000, d, v)
  }

  lemma OneValue(p: Pack, d: Bytes, v: Bytes)
    requires IsRun(p) && PackStream.Has(p, d, v)
    ensures Filed(d, v)
  {
    hide Key, Val, RecMap;
    var a, b :| 0 <= a < b <= 1000 && b - a <= 127 && p == Run(a, b);
    RunHas(a, b, d, v);
  }

  lemma SameIndex(d: Bytes, v: Bytes, w: Bytes)
    requires Filed(d, v) && Filed(d, w)
    ensures v == w
  {
    hide Val, Key;
    var i :| 0 <= i < 1000 && d == Key(i) && v == Val(i);
    var j :| 0 <= j < 1000 && d == Key(j) && w == Val(j);
    if i < j { KeysRise(i, j); }
    if j < i { KeysRise(j, i); }
  }

  lemma RunsJoin(a: nat, b: nat, c: nat, d: Bytes, v: Bytes)
    requires a <= b <= c <= 1000
    ensures InRun(a, c, d, v) <==> InRun(a, b, d, v) || InRun(b, c, d, v)
  {
    hide Key, Val;
    if InRun(a, c, d, v) {
      var i :| a <= i < c && d == Key(i) && v == Val(i);
      assert i < b ==> InRun(a, b, d, v);
      assert i >= b ==> InRun(b, c, d, v);
    }
  }

  /** Five runs that together cover the entries from `lo` to `hi` merge to that run. */
  lemma MergesTo(selected: seq<Planned>, lo: nat, hi: nat)
    requires lo <= hi <= 1000 && AllRuns(selected)
    requires forall d, v :: Holds(selected, d, v) <==> InRun(lo, hi, d, v)
    ensures MergeFrom(Ok([]), selected) == Ok(Run(lo, hi))
  {
    hide Holds, InRun, Ascending, RecMap, AllRuns, ValidEntries;
    RunsAreProper(selected);
    NoneAccumulates();
    assert [] + selected == selected;
    MergeAccumulates(Ok([]), [], selected);
    var es := MergeFrom(Ok([]), selected).value;
    RunAscends(lo, hi);
    forall d, v ensures PackStream.Has(es, d, v) <==> PackStream.Has(Run(lo, hi), d, v) {
      RunHas(lo, hi, d, v);
      assert (d in RecMap(es) && RecMap(es)[d] == v) <==> Holds(selected, d, v);
    }
    PackStream.SameMaps(es, Run(lo, hi));
  }

  lemma CutsTo(es: Pack, parts: seq<Pack>)
    requires Ascending(es) && ValidEntries(es) && Greedy(parts) && Join(parts) == es
    ensures Partition(es) == parts
  {
    hide Ascending, ValidEntries, Greedy, Join, Partition;
    PartitionSpec(es);
    GreedyIsUnique(Partition(es), parts);
  }

  /** A run of 127 entries is full. */
  lemma FullRun(a: nat, next: nat)
    requires a + 127 <= 1000 && next < 1000
    ensures PackBytes(Run(a, a + 127)) <= MAX_PACK_BYTES
    ensures PackBytes(Run(a, a + 127) + [Rec(Key(next), Val(next))]) > MAX_PACK_BYTES
  {
    hide Key, Val, PackBytes;
    RunBytes(a, a + 127);
    PayloadGrows(Run(a, a + 127), Rec(Key(next), Val(next)));
  }

  // ----- evaluating a carry -----

  lemma {:induction false} ExtractTake(a: seq<Planned>, rest: seq<Planned>, tier: nat, k: nat)
    requires |a| <= k && forall pl :: pl in a ==> TierOf(pl.pack) == tier
    ensures ExtractTier(a + rest, tier, k)
      == var x := ExtractTier(rest, tier, k - |a|); x.(selected := a + x.selected)
    decreases |a|
  {
    hide TierOf;
    if |a| == 0 {
      assert a + rest == rest;
    } else {
      assert a[0] in a && (a + rest)[1..] == a[1..] + rest;
      ExtractTake(a[1..], rest, tier, k - 1);
      assert [a[0]] + a[1..] == a;
    }
  }

  lemma {:induction false} ExtractSkip(a: seq<Planned>, rest: seq<Planned>, tier: nat, k: nat)
    requires k > 0 && forall pl :: pl in a ==> TierOf(pl.pack) != tier
    ensures ExtractTier(a + rest, tier, k) == var x := ExtractTier(rest, tier, k); x.(before := a + x.before)
    decreases |a|
  {
    hide TierOf;
    if |a| == 0 {
      assert a + rest == rest;
    } else {
      assert a[0] in a && (a + rest)[1..] == a[1..] + rest;
      ExtractSkip(a[1..], rest, tier, k);
      assert [a[0]] + a[1..] == a;
    }
  }

  /** Four packs of the tier, some of others, a fifth of the tier, and some more. */
  lemma ExtractFive(four: seq<Planned>, others: seq<Planned>, fifth: Planned, more: seq<Planned>, tier: nat)
    requires |four| == 4 && forall pl :: pl in four ==> TierOf(pl.pack) == tier
    requires TierOf(fifth.pack) == tier && forall pl :: pl in others ==> TierOf(pl.pack) != tier
    ensures ExtractTier(four + (others + ([fifth] + more)), tier, 5) == Extract(others, four + [fifth], more)
    ensures ExtractTier(others + (four + ([fifth] + more)), tier, 5) == Extract(others, four + [fifth], more)
  {
    hide TierOf;
    ExtractTake([fifth], more, tier, 1);
    ExtractSkip(others, [fifth] + more, tier, 1);
    ExtractTake(four, others + ([fifth] + more), tier, 5);
    ExtractTake(four, [fifth] + more, tier, 5);
    ExtractSkip(others, four + ([fifth] + more), tier, 5);
    assert [fifth] + [] == [fifth] && others + [] == others;
  }

  lemma CarryEvaluates(planned: seq<Planned>, tier: nat, x: Extract, lo: nat, hi: nat, parts: seq<Pack>)
    requires ExtractTier(planned, tier, 5) == x && |x.selected| == 5 && lo <= hi <= 1000
    requires MergeFrom(Ok([]), x.selected) == Ok(Run(lo, hi)) && Partition(Run(lo, hi)) == parts && |parts| < 5
    ensures CarryTier(planned, tier) == Ok(x.before + Publications(parts) + x.after)
  {
    hide ExtractTier, MergeFrom, Partition, Publications;
  }

  lemma CompactStep(planned: seq<Planned>, carried: seq<bool>, tier: nat, next: seq<Planned>)
    requires |carried| == PACK_SIZE_TIER_COUNT && tier < PACK_SIZE_TIER_COUNT && !carried[tier]
    requires CountTier(planned, tier) > MAX_PACKS_PER_SIZE_TIER
    requires forall t :: 0 <= t < PACK_SIZE_TIER_COUNT && t != tier && !carried[t] ==> CountTier(planned, t) <= MAX_PACKS_PER_SIZE_TIER
    requires CarryTier(planned, tier) == Ok(next)
    ensures Compact(planned, carried) == Compact(next, carried[tier := true])
  {
    hide CountTier, CarryTier;
    OverfullIs(planned, carried, 0);
  }

  lemma CompactEnd(planned: seq<Planned>, carried: seq<bool>)
    requires |carried| == PACK_SIZE_TIER_COUNT
    requires forall t :: 0 <= t < PACK_SIZE_TIER_COUNT && !carried[t] ==> CountTier(planned, t) <= MAX_PACKS_PER_SIZE_TIER
    ensures Compact(planned, carried) == Ok(planned)
  {
    hide CountTier, CarryTier;
    OverfullIs(planned, carried, 0);
  }

  // ----- the layout -----

  function One(a: nat, b: nat): Planned
    requires a <= b <= 1000
  {
    Publication(Run(a, b))
  }

  /** Four packs of tier 18. */
  function Large(): (large: seq<Planned>)
    ensures |large| == 4
  {
    [One(0, 64), One(64, 130), One(130, 196), One(196, 262)]
  }

  /** Four packs of tier 15. */
  function Small(): (small: seq<Planned>)
    ensures |small| == 4
  {
    [One(389, 403), One(403, 417), One(417, 431), One(431, 445)]
  }

  function Current(): seq<Planned> {
    Large() + Small()
  }

  /** New entries for one full pack and 64 more. */
  function Delta(): Pack {
    Run(262, 389) + Run(445, 509)
  }

  /** What is left once tier 18 has been carried: three full packs, and a small one at the end. */
  function Full(): (full: seq<Planned>)
    ensures |full| == 3
  {
    [One(0, 127), One(127, 254), One(254, 381)]
  }

  function Start(): seq<Planned> {
    Large() + (Small() + ([One(262, 389)] + [One(445, 509)]))
  }

  function Middle(): seq<Planned> {
    Small() + (Full() + ([One(381, 389)] + [One(445, 509)]))
  }

  function End(): seq<Planned> {
    Full() + [One(381, 445)] + [One(445, 509)]
  }

  lemma OneIsRun(a: nat, b: nat)
    requires a < b <= 1000 && b - a <= 127
    ensures IsRun(One(a, b).pack)
    ensures 8 <= b - a <= 14 ==> TierOf(One(a, b).pack) == 15
    ensures 64 <= b - a <= 127 ==> TierOf(One(a, b).pack) == 18
    ensures PackBytes(One(a, b).pack) == 20 + (b - a) * 131112
  {
    hide TierOf, PackBytes;
    RunTier(a, b);
    RunBytes(a, b);
  }

  /** Every pack of these groups is a run of its group's tier. */
  lemma Groups()
    ensures forall pl :: pl in Large() ==> IsRun(pl.pack) && TierOf(pl.pack) == 18
    ensures forall pl :: pl in Small() ==> IsRun(pl.pack) && TierOf(pl.pack) == 15
    ensures forall pl :: pl in Full() ==> IsRun(pl.pack) && TierOf(pl.pack) == 18
  {
    hide TierOf, PackBytes, IsRun, Run;
    OneIsRun(0, 64);
    OneIsRun(64, 130);
    OneIsRun(130, 196);
    OneIsRun(196, 262);
    OneIsRun(389, 403);
    OneIsRun(403, 417);
    OneIsRun(417, 431);
    OneIsRun(431, 445);
    OneIsRun(0, 127);
    OneIsRun(127, 254);
    OneIsRun(254, 381);
  }

  lemma Singles()
    ensures IsRun(One(262, 389).pack) && TierOf(One(262, 389).pack) == 18
    ensures IsRun(One(445, 509).pack) && TierOf(One(445, 509).pack) == 18
    ensures IsRun(One(381, 389).pack) && TierOf(One(381, 389).pack) == 15
    ensures IsRun(One(381, 445).pack) && TierOf(One(381, 445).pack) == 18
  {
    hide TierOf, PackBytes, IsRun, Run;
    OneIsRun(262, 389);
    OneIsRun(445, 509);
    OneIsRun(381, 389);
    OneIsRun(381, 445);
  }

  lemma CountOne(pl: Planned, t: nat)
    ensures CountTier([pl], t) == if TierOf(pl.pack) == t then 1 else 0
  {
    hide TierOf;
  }

  lemma Counts(t: nat)
    ensures CountTier(Current(), t) == if t == 18 || t == 15 then 4 else 0
    ensures CountTier(Start(), t) == if t == 18 then 6 else if t == 15 then 4 else 0
    ensures CountTier(Middle(), t) == if t == 15 then 5 else if t == 18 then 4 else 0
    ensures CountTier(End(), t) == if t == 18 then 5 else 0
  {
    hide TierOf, CountTier, One, Large, Small, Full, PackBytes, TotalBytes;
    Groups();
    Singles();
    OneTierCounts(Large(), 18, t);
    OneTierCounts(Small(), 15, t);
    OneTierCounts(Full(), 18, t);
    CountOne(One(262, 389), t);
    CountOne(One(445, 509), t);
    CountOne(One(381, 389), t);
    CountOne(One(381, 445), t);
    CountJoin(Large(), Small(), t);
    CountJoin([One(262, 389)], [One(445, 509)], t);
    CountJoin(Small(), [One(262, 389)] + [One(445, 509)], t);
    CountJoin(Large(), Small() + ([One(262, 389)] + [One(445, 509)]), t);
    CountJoin([One(381, 389)], [One(445, 509)], t);
    CountJoin(Full(), [One(381, 389)] + [One(445, 509)], t);
    CountJoin(Small(), Full() + ([One(381, 389)] + [One(445, 509)]), t);
    CountJoin(Full(), [One(381, 445)], t);
    CountJoin(Full() + [One(381, 445)], [One(445, 509)], t);
  }

  lemma CountJoin(a: seq<Planned>, b: seq<Planned>, t: nat)
    ensures CountTier(a + b, t) == CountTier(a, t) + CountTier(b, t)
  {
    SumsJoin(a, b, t);
  }

  /** The delta is cut into its two runs. */
  lemma DeltaIsCut()
    ensures Ascending(Delta()) && ValidEntries(Delta()) && Partition(Delta()) == [Run(262, 389), Run(445, 509)]
  {
    hide Key, Val, Less, Ascending, PackBytes, Partition, Join;
    RunAscends(262, 389);
    RunAscends(445, 509);
    KeysRise(388, 445);
    AscendingJoined(Run(262, 389), Run(445, 509));
    var parts := [Run(262, 389), Run(445, 509)];
    FullRun(262, 445);
    RunBytes(445, 509);
    JoinTwo(Run(262, 389), Run(445, 509));
    CutsTo(Delta(), parts);
  }

  lemma AscendingJoined(a: Pack, b: Pack)
    requires Ascending(a) && Ascending(b) && |a| > 0 && |b| > 0 && Less(a[|a| - 1].key, b[0].key)
    ensures Ascending(a + b)
  {
    hide Less;
  }

  lemma JoinTwo(a: Pack, b: Pack)
    ensures Join([a, b]) == a + b
  {
    assert [a, b][1..] == [b] && [b][1..] == [];
    assert Join([b]) == b + Join([]);
    assert b + [] == b;
  }

  /** The first carry cuts 389 entries into three full packs and a rest of eight. */
  lemma FirstCut()
    ensures Partition(Run(0, 389)) == [Run(0, 127), Run(127, 254), Run(254, 381), Run(381, 389)]
  {
    hide Key, Val, PackBytes, Partition, Join, Ascending, ValidEntries;
    var parts := [Run(0, 127), Run(127, 254), Run(254, 381), Run(381, 389)];
    RunAscends(0, 389);
    FullRun(0, 127);
    FullRun(127, 254);
    FullRun(254, 381);
    RunBytes(381, 389);
    JoinTwo(Run(254, 381), Run(381, 389));
    RunJoin(254, 381, 389);
    JoinMore(Run(127, 254), [Run(254, 381), Run(381, 389)]);
    RunJoin(127, 254, 389);
    JoinMore(Run(0, 127), [Run(127, 254), Run(254, 381), Run(381, 389)]);
    RunJoin(0, 127, 389);
    assert parts == [Run(0, 127)] + [Run(127, 254), Run(254, 381), Run(381, 389)];
    assert [Run(127, 254), Run(254, 381), Run(381, 389)] == [Run(127, 254)] + [Run(254, 381), Run(381, 389)];
    assert Greedy(parts);
    CutsTo(Run(0, 389), parts);
  }

  lemma JoinMore(a: Pack, rest: seq<Pack>)
    ensures Join([a] + rest) == a + Join(rest)
  {
    assert ([a] + rest)[1..] == rest;
  }

  lemma SecondCut()
    ensures Partition(Run(381, 445)) == [Run(381, 445)]
  {
    hide Key, Val, PackBytes, Ascending;
    RunAscends(381, 445);
    RunBytes(381, 445);
    FitsOnePack(Run(381, 445));
  }

  lemma HoldsRun(a: nat, b: nat, d: Bytes, v: Bytes)
    requires a <= b <= 1000
    ensures Holds([One(a, b)], d, v) <==> InRun(a, b, d, v)
  {
    hide RecMap, Run, InRun;
    HoldsOne(One(a, b), d, v);
    RunHas(a, b, d, v);
  }

  lemma HoldsFive(p: Planned, q: Planned, r: Planned, s: Planned, t: Planned, d: Bytes, v: Bytes)
    ensures Holds([p, q, r, s] + [t], d, v) <==>
      Holds([p], d, v) || Holds([q], d, v) || Holds([r], d, v) || Holds([s], d, v) || Holds([t], d, v)
  {
    hide Holds;
    HoldsSplit([p, q, r, s], [t], d, v);
    assert [p, q, r, s] == [p, q] + [r, s] && [p, q] == [p] + [q] && [r, s] == [r] + [s];
    HoldsSplit([p, q], [r, s], d, v);
    HoldsSplit([p], [q], d, v);
    HoldsSplit([r], [s], d, v);
  }

  lemma FirstMerge()
    ensures MergeFrom(Ok([]), Large() + [One(262, 389)]) == Ok(Run(0, 389))
  {
    hide Holds, InRun, Run, IsRun, TierOf, One, MergeFrom;
    Groups();
    Singles();
    var selected := Large() + [One(262, 389)];
    forall d, v ensures Holds(selected, d, v) <==> InRun(0, 389, d, v) {
      HoldsFive(One(0, 64), One(64, 130), One(130, 196), One(196, 262), One(262, 389), d, v);
      HoldsRun(0, 64, d, v);
      HoldsRun(64, 130, d, v);
      HoldsRun(130, 196, d, v);
      HoldsRun(196, 262, d, v);
      HoldsRun(262, 389, d, v);
      RunsJoin(0, 64, 130, d, v);
      RunsJoin(0, 130, 196, d, v);
      RunsJoin(0, 196, 262, d, v);
      RunsJoin(0, 262, 389, d, v);
    }
    MergesTo(selected, 0, 389);
  }

  lemma SecondMerge()
    ensures MergeFrom(Ok([]), Small() + [One(381, 389)]) == Ok(Run(381, 445))
  {
    hide Holds, InRun, Run, IsRun, TierOf, One, MergeFrom;
    Groups();
    Singles();
    var selected := Small() + [One(381, 389)];
    forall d, v ensures Holds(selected, d, v) <==> InRun(381, 445, d, v) {
      HoldsFive(One(389, 403), One(403, 417), One(417, 431), One(431, 445), One(381, 389), d, v);
      HoldsRun(389, 403, d, v);
      HoldsRun(403, 417, d, v);
      HoldsRun(417, 431, d, v);
      HoldsRun(431, 445, d, v);
      HoldsRun(381, 389, d, v);
      RunsJoin(381, 389, 403, d, v);
      RunsJoin(381, 403, 417, d, v);
      RunsJoin(381, 417, 431, d, v);
      RunsJoin(381, 431, 445, d, v);
    }
    MergesTo(selected, 381, 445);
  }

  lemma FirstCarry()
    ensures CarryTier(Start(), 18) == Ok(Middle())
  {
    hide TierOf, One, Large, Small, Run, IsRun, ExtractTier, MergeFrom, Partition, CarryTier;
    Groups();
    Singles();
    ExtractFive(Large(), Small(), One(262, 389), [One(445, 509)], 18);
    FirstMerge();
    FirstCut();
    var parts := [Run(0, 127), Run(127, 254), Run(254, 381), Run(381, 389)];
    CarryEvaluates(Start(), 18, Extract(Small(), Large() + [One(262, 389)], [One(445, 509)]), 0, 389, parts);
    PublishedFour(parts[0], parts[1], parts[2], parts[3]);
    assert Publications(parts) == Full() + [One(381, 389)] by { FullIs(); }
    assert Small() + (Full() + [One(381, 389)]) + [One(445, 509)] == Middle();
  }

  lemma FullIs()
    ensures Full() == [Publication(Run(0, 127)), Publication(Run(127, 254)), Publication(Run(254, 381))]
    ensures One(381, 389) == Publication(Run(381, 389)) && One(381, 445) == Publication(Run(381, 445))
    ensures One(262, 389) == Publication(Run(262, 389)) && One(445, 509) == Publication(Run(445, 509))
  {
    hide Run;
  }

  lemma PublishedFirst(p: Pack, rest: seq<Pack>)
    ensures Publications([p] + rest) == [Publication(p)] + Publications(rest)
  {
    assert ([p] + rest)[1..] == rest;
  }

  lemma PublishedOne(p: Pack)
    ensures Publications([p]) == [Publication(p)]
  {
    assert [p][1..] == [];
  }

  lemma PublishedTwo(p: Pack, q: Pack)
    ensures Publications([p, q]) == [Publication(p)] + [Publication(q)]
  {
    hide Publications;
    PublishedOne(q);
    PublishedFirst(p, [q]);
    assert [p, q] == [p] + [q];
  }

  lemma PublishedFour(p: Pack, q: Pack, r: Pack, s: Pack)
    ensures Publications([p, q, r, s]) == [Publication(p), Publication(q), Publication(r)] + [Publication(s)]
  {
    hide Publications;
    PublishedTwo(r, s);
    PublishedFirst(q, [r, s]);
    PublishedFirst(p, [q, r, s]);
    assert [p, q, r, s] == [p] + [q, r, s] && [q, r, s] == [q] + [r, s];
  }

  lemma SecondCarry()
    ensures CarryTier(Middle(), 15) == Ok(End())
  {
    hide TierOf, One, Small, Full, Run, IsRun, ExtractTier, MergeFrom, Partition, CarryTier;
    Groups();
    Singles();
    ExtractFive(Small(), Full(), One(381, 389), [One(445, 509)], 15);
    SecondMerge();
    SecondCut();
    var parts := [Run(381, 445)];
    CarryEvaluates(Middle(), 15, Extract(Full(), Small() + [One(381, 389)], [One(445, 509)]), 381, 445, parts);
    PublishedOne(parts[0]);
    FullIs();
    assert Full() + [One(381, 445)] + [One(445, 509)] == End();
  }

  /** Compaction fills tier 18 up again after carrying it. */
  lemma CompactionRefills()
    ensures Current() + Publications(Partition(Delta())) == Start()
    ensures Compact(Start(), NoneCarried()) == Ok(End())
  {
    hide TierOf, CountTier, Compact, CarryTier, Partition, Large, Small, Full, Run, One, Publications, TotalBytes;
    DeltaIsCut();
    PublishedTwo(Run(262, 389), Run(445, 509));
    FullIs();
    assert Large() + Small() + ([One(262, 389)] + [One(445, 509)]) == Start();
    forall t: nat ensures CountTier(Start(), t) == if t == 18 then 6 else if t == 15 then 4 else 0
                  ensures CountTier(Middle(), t) == if t == 15 then 5 else if t == 18 then 4 else 0
                  ensures CountTier(End(), t) == if t == 18 then 5 else 0 {
      Counts(t);
    }
    FirstCarry();
    CompactStep(Start(), NoneCarried(), 18, Middle());
    SecondCarry();
    CompactStep(Middle(), NoneCarried()[18 := true], 15, End());
    CompactEnd(End(), NoneCarried()[18 := true][15 := true]);
  }

  lemma TotalFirst(pl: Planned, rest: seq<Planned>)
    ensures TotalBytes([pl] + rest) == PackBytes(pl.pack) + TotalBytes(rest)
  {
    hide PackBytes;
    assert ([pl] + rest)[1..] == rest;
  }

  lemma EndTotal()
    ensures TotalBytes(End()) == 66736108 && |End()| == 5
  {
    hide PackBytes, TotalBytes, IsRun, TierOf, Run, One;
    OneIsRun(0, 127);
    OneIsRun(127, 254);
    OneIsRun(254, 381);
    OneIsRun(381, 445);
    OneIsRun(445, 509);
    var d, e := One(381, 445), One(445, 509);
    assert End() == [One(0, 127)] + ([One(127, 254)] + ([One(254, 381)] + ([d] + ([e] + []))));
    TotalFirst(e, []);
    TotalFirst(d, [e] + []);
    TotalFirst(One(254, 381), [d] + ([e] + []));
    TotalFirst(One(127, 254), [One(254, 381)] + ([d] + ([e] + [])));
    TotalFirst(One(0, 127), [One(127, 254)] + ([One(254, 381)] + ([d] + ([e] + []))));
    TotalNone();
  }

  lemma TotalNone()
    ensures TotalBytes([]) == 0
  {
  }

  /**
   The layout is tier-bounded and compaction ends within the limits of a catalog, yet the
   append is refused: tier 18, already carried, holds five packs in the end.
   */
  lemma GuardRefuses()
    ensures TiersBounded(Current()) && AllValid(Current()) && Consistent(Current())
    ensures Limited(Compact(Current() + Publications(Partition(Delta())), NoneCarried())).Ok?
    ensures Append(Current(), Delta()) == Err(PackTooLarge)
  {
    hide TierOf, CountTier, Compact, Partition, Large, Small, Full, Run, One, Publications, TotalBytes, IsRun, AllValid, Consistent;
    CompactionRefills();
    EndTotal();
    Groups();
    RunsAreProper(Current());
    forall t: nat ensures CountTier(Current(), t) <= 4 && CountTier(End(), t) == if t == 18 then 5 else 0 {
      Counts(t);
    }
    assert CountTier(End(), 18) > MAX_PACKS_PER_SIZE_TIER;
    assert !TiersBounded(End());
  }

  // ----- how the layout comes about -----

  /** An append that overfills no tier changes nothing that is there. */
  lemma QuietAppend(current: seq<Planned>, delta: Pack)
    requires ValidPack(delta) && AllValid(current) && TiersBounded(current + [Publication(delta)])
    requires TotalBytes(current + [Publication(delta)]) <= MAX_CATALOG_PACK_BYTES
    ensures Append(current, delta) == Ok(current + [Publication(delta)])
  {
    hide TierOf, CountTier, Compact, ValidPack, PackBytes, Partition, TotalBytes;
    var next := current + [Publication(delta)];
    PackIsWhole(delta);
    CompactEnd(next, NoneCarried());
    forall pl | pl in next ensures ValidPack(pl.pack) { }
    WithinLimits(next);
  }

  /** A history of packs that never overfill a tier is just those packs. */
  lemma {:induction false} QuietHistory(deltas: seq<Pack>)
    requires (forall p :: p in deltas ==> ValidPack(p)) && TiersBounded(Publications(deltas))
    requires TotalBytes(Publications(deltas)) <= MAX_CATALOG_PACK_BYTES
    ensures History(deltas) == Ok(Publications(deltas))
    decreases |deltas|
  {
    hide TierOf, CountTier, ValidPack, PackBytes, TotalBytes, Append;
    if |deltas| > 0 {
      var n := |deltas| - 1;
      var before := deltas[..n];
      assert deltas == before + [deltas[n]];
      PublicationsAppend(before, deltas[n]);
      forall t | 0 <= t < PACK_SIZE_TIER_COUNT ensures CountTier(Publications(before), t) <= MAX_PACKS_PER_SIZE_TIER {
        SumsJoin(Publications(before), [Publication(deltas[n])], t);
      }
      SumsJoin(Publications(before), [Publication(deltas[n])], 0);
      QuietHistory(before);
      PublicationsValid(before);
      QuietAppend(Publications(before), deltas[n]);
    }
  }

  function Deltas(): (deltas: seq<Pack>)
    ensures |deltas| == 8
  {
    [Run(0, 64), Run(64, 130), Run(130, 196), Run(196, 262), Run(389, 403), Run(403, 417), Run(417, 431), Run(431, 445)]
  }

  lemma DeltasPublished()
    ensures Publications(Deltas()) == Current()
  {
    hide Run, Publications;
    var d := Deltas();
    PublishedFour(d[4], d[5], d[6], d[7]);
    PublishedFirst(d[3], d[4..]);
    PublishedFirst(d[2], d[3..]);
    PublishedFirst(d[1], d[2..]);
    PublishedFirst(d[0], d[1..]);
    assert d == [d[0]] + d[1..] && d[1..] == [d[1]] + d[2..] && d[2..] == [d[2]] + d[3..] && d[3..] == [d[3]] + d[4..];
    assert d[4..] == [d[4], d[5], d[6], d[7]];
  }

  lemma {:induction false} TotalAtMost(planned: seq<Planned>, n: nat)
    requires forall pl :: pl in planned ==> PackBytes(pl.pack) <= n
    ensures TotalBytes(planned) <= |planned| * n
  {
    hide PackBytes;
    if |planned| > 0 {
      assert planned[0] in planned;
      TotalAtMost(planned[1..], n);
      OneMore(|planned|, n);
    }
  }

  lemma CurrentTotal()
    ensures TotalBytes(Current()) <= MAX_CATALOG_PACK_BYTES
  {
    hide PackBytes, TotalBytes, IsRun, TierOf, Run;
    OneIsRun(0, 64);
    OneIsRun(64, 130);
    OneIsRun(130, 196);
    OneIsRun(196, 262);
    OneIsRun(389, 403);
    OneIsRun(403, 417);
    OneIsRun(417, 431);
    OneIsRun(431, 445);
    TotalAtMost(Large(), 8653412);
    TotalAtMost(Small(), 1835588);
    SumsJoin(Large(), Small(), 0);
  }

  /**
   The refused append ends a history of nine from the empty catalog: eight of one pack
   each that are all admitted, and one whose entries fill two.
   */
  lemma HistoryEndsRefused()
    ensures History(Deltas()) == Ok(Current()) && History(Deltas() + [Delta()]) == Err(PackTooLarge)
  {
    hide Run, Publications, Append, TierOf, CountTier, PackBytes, TotalBytes, ValidPack, IsRun, Large, Small;
    Groups();
    DeltasPublished();
    CurrentTotal();
    forall p | p in Deltas() ensures ValidPack(p) {
      RunIsValid(p) by { DeltaIsRun(p); }
    }
    GuardRefuses();
    QuietHistory(Deltas());
    assert (Deltas() + [Delta()])[..8] == Deltas();
  }

  lemma DeltaIsRun(p: Pack)
    requires p in Deltas()
    ensures IsRun(p)
  {
    hide Run, Val, Key;
  }

  // ----- the same with digests checked -----

  /** A hash under which each value belongs to its key. */
  function FirstTwo(v: Bytes): Bytes {
    if |v| < 2 then [] else v[..2]
  }

  lemma OwnKeys(a: nat, b: nat)
    requires a <= b <= 1000
    ensures forall e :: e in Run(a, b) ==> FirstTwo(e.value) == e.key && 0 < |e.value| <= MAX_PACK_ENTRY_BYTES
  {
    forall k | 0 <= k < b - a ensures FirstTwo(Run(a, b)[k].value) == Run(a, b)[k].key {
      assert Val(a + k)[..2] == Key(a + k);
    }
  }

  lemma HoldsFour(p: Planned, q: Planned, r: Planned, s: Planned, d: Bytes, v: Bytes)
    ensures Holds([p, q, r, s], d, v) <==> Holds([p], d, v) || Holds([q], d, v) || Holds([r], d, v) || Holds([s], d, v)
  {
    hide Holds;
    assert [p, q, r, s] == [p, q] + [r, s] && [p, q] == [p] + [q] && [r, s] == [r] + [s];
    HoldsSplit([p, q], [r, s], d, v);
    HoldsSplit([p], [q], d, v);
    HoldsSplit([r], [s], d, v);
  }

  lemma CurrentHolds(d: Bytes, v: Bytes)
    ensures Holds(Current(), d, v) <==> InRun(0, 262, d, v) || InRun(389, 445, d, v)
  {
    hide Holds, InRun, Run, One;
    HoldsSplit(Large(), Small(), d, v);
    HoldsFour(One(0, 64), One(64, 130), One(130, 196), One(196, 262), d, v);
    HoldsFour(One(389, 403), One(403, 417), One(417, 431), One(431, 445), d, v);
    HoldsRun(0, 64, d, v);
    HoldsRun(64, 130, d, v);
    HoldsRun(130, 196, d, v);
    HoldsRun(196, 262, d, v);
    HoldsRun(389, 403, d, v);
    HoldsRun(403, 417, d, v);
    HoldsRun(417, 431, d, v);
    HoldsRun(431, 445, d, v);
    RunsJoin(0, 64, 130, d, v);
    RunsJoin(0, 130, 196, d, v);
    RunsJoin(0, 196, 262, d, v);
    RunsJoin(389, 403, 417, d, v);
    RunsJoin(389, 417, 431, d, v);
    RunsJoin(389, 431, 445, d, v);
  }

  lemma NotInRun(i: nat, a: nat, b: nat, v: Bytes)
    requires a <= b <= 1000 && i < 1000 && !(a <= i < b)
    ensures !InRun(a, b, Key(i), v)
  {
    hide Key, Val;
    forall j | a <= j < b ensures Key(j) != Key(i) {
      if j < i { KeysRise(j, i); } else { KeysRise(i, j); }
    }
  }

  lemma AllNew(e: Entry)
    requires e in Delta()
    ensures Get(Current(), e.key).None? && FirstTwo(e.value) == e.key && 0 < |e.value| <= MAX_PACK_ENTRY_BYTES
  {
    hide Key, Val, Holds, InRun, Large, Small, Get, FirstTwo, AllValid;
    Groups();
    RunsAreProper(Current());
    OwnKeys(262, 389);
    OwnKeys(445, 509);
    GetFinds(Current(), e.key);
    if Get(Current(), e.key).Some? {
      var v := Get(Current(), e.key).value;
      CurrentHolds(e.key, v);
      var i: nat :| (262 <= i < 389 || 445 <= i < 509) && e.key == Key(i);
      NotInRun(i, 0, 262, v);
      NotInRun(i, 389, 445, v);
    }
  }

  lemma {:induction false} WholeDelta(of: Bytes -> Bytes, current: seq<Planned>, es: Pack)
    requires forall e :: e in es ==> Get(current, e.key).None? && of(e.value) == e.key && 0 < |e.value| <= MAX_PACK_ENTRY_BYTES
    ensures PackAppend.DeltaOf(of, current, es) == Ok(es)
  {
    hide Get;
    if |es| > 0 {
      assert es[0] in es;
      WholeDelta(of, current, es[1..]);
      assert [es[0]] + es[1..] == es;
    }
  }

  /** The refusal is that of an append of new entries under their own digests. */
  lemma AppendEntriesRefused()
    ensures PackAppend.AppendEntries(FirstTwo, Current(), Delta()) == Err(PackTooLarge)
  {
    hide Append, Get, Key, Val, Large, Small, FirstTwo, PackAppend.DeltaOf;
    forall e | e in Delta() ensures Get(Current(), e.key).None? && FirstTwo(e.value) == e.key && 0 < |e.value| <= MAX_PACK_ENTRY_BYTES {
      AllNew(e);
    }
    WholeDelta(FirstTwo, Current(), Delta());
    GuardRefuses();
  }
}
