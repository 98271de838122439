/**
 Appending entries to a catalog's layout: what is there already is compared and
 skipped, the rest becomes new packs, and lookups answer for both afterwards.
 */
module PackAppend {
  import opened Wrappers
  import opened KeyBits
  import opened SortedRecords
  import opened PackLimits
  import opened PackTiers
  import opened PackGrowth

  /** The entries that no layer holds yet; a digest held with other bytes is refused. */
  function DeltaOf(of: Bytes -> Bytes, current: seq<Planned>, entries: Pack): Result<Pack, PackError>
    decreases |entries|
  {
    if |entries| == 0 then Ok([])
    else
      var e := entries[0];
      if |e.value| == 0 || |e.value| > MAX_PACK_ENTRY_BYTES then Err(EntryTooLarge(e.key))
      else if of(e.value) != e.key then Err(PathMismatch(e.key))
      else
        var held := Get(current, e.key);
        if held.Some? && held.value != e.value then Err(PathMismatch(e.key))
        else match DeltaOf(of, current, entries[1..])
          case Err(x) => Err(x)
          case Ok(delta) => Ok(if held.Some? then delta else [e] + delta)
  }

  /** The layout to publish, or none when nothing is new. */
  function AppendEntries(of: Bytes -> Bytes, current: seq<Planned>, entries: Pack): Result<Option<seq<Planned>>, PackError> {
    if |entries| == 0 then Err(Empty)
    else match DeltaOf(of, current, entries)
      case Err(e) => Err(e)
      case Ok(delta) =>
        if |delta| == 0 then Ok(None)
        else match Append(current, delta)
          case Err(e) => Err(e)
          case Ok(next) => Ok(Some(next))
  }

  /** What a delta has to do with the entries it came from. */
  ghost predicate NewOf(current: seq<Planned>, entries: Pack, delta: Pack) {
    && Ascending(delta) && ValidEntries(delta)
    && (|delta| > 0 ==> |entries| > 0 && (delta[0].key == entries[0].key || KeyBits.Less(entries[0].key, delta[0].key)))
    && (forall d :: d in RecMap(delta) <==> d in RecMap(entries) && Get(current, d).None?)
    && (forall d :: d in RecMap(delta) ==> RecMap(delta)[d] == RecMap(entries)[d])
    && (forall d :: d in RecMap(entries) && Get(current, d).Some? ==> Get(current, d).value == RecMap(entries)[d])
  }

  lemma {:induction false} DeltaIsNew(of: Bytes -> Bytes, current: seq<Planned>, entries: Pack)
    requires Ascending(entries) && DeltaOf(of, current, entries).Ok?
    ensures NewOf(current, entries, DeltaOf(of, current, entries).value)
    decreases |entries|
  {
    hide Less, Ascending, Get;
    if |entries| == 0 {
      NothingNew(current);
    } else {
      AscendingTail(entries);
      FirstNotLater(entries);
      DeltaIsNew(of, current, entries[1..]);
      var e, delta := entries[0], DeltaOf(of, current, entries[1..]).value;
      if |delta| > 0 && KeyBits.Less(entries[1].key, delta[0].key) {
        KeyOrder.Transitive(e.key, entries[1].key, delta[0].key);
      }
      if Get(current, e.key).None? {
        AscendingCons(e, delta);
        assert ([e] + delta)[1..] == delta;
        assert RecMap([e] + delta) == RecMap(delta)[e.key := e.value];
        forall x | x in [e] + delta ensures ValidEntry(x) {
        }
      }
    }
  }

  lemma NothingNew(current: seq<Planned>)
    ensures NewOf(current, [], [])
  {
  }

  /** New packs beside the current ones: consistent, and holding both. */
  lemma BesideCurrent(current: seq<Planned>, entries: Pack, delta: Pack)
    requires AllValid(current) && Consistent(current) && NewOf(current, entries, delta)
    ensures var start := current + Publications(Partition(delta));
      && AllValid(start) && Consistent(start)
      && forall d, v :: Holds(start, d, v) <==> Holds(current, d, v) || (d in RecMap(delta) && RecMap(delta)[d] == v)
  {
    hide Less, Ascending, Get, Holds, ValidPack, RecMap, Partition, Publications;
    var parts := Partition(delta);
    PartitionSpec(delta);
    PublicationsValid(parts);
    var start := current + Publications(parts);
    forall d, v ensures Holds(start, d, v) <==> Holds(current, d, v) || (d in RecMap(delta) && RecMap(delta)[d] == v) {
      HoldsSplit(current, Publications(parts), d, v);
      PublicationsHold(parts, d, v);
    }
    forall d, v, w | Holds(start, d, v) && Holds(start, d, w) ensures v == w {
      GetFinds(current, d);
    }
  }

  /**
   Appending to any consistent catalog: afterwards lookups give the appended bytes for
   the appended digests and, for every other digest, what they gave before.
   */
  lemma AppendAnswers(of: Bytes -> Bytes, current: seq<Planned>, entries: Pack)
    requires AllValid(current) && Consistent(current) && Ascending(entries)
    ensures var r := AppendEntries(of, current, entries);
      && (r == Ok(None) ==> forall d :: d in RecMap(entries) ==> Get(current, d) == Some(RecMap(entries)[d]))
      && (r.Ok? && r.value.Some? ==>
          && AllValid(r.value.value) && Consistent(r.value.value)
          && forall d :: Get(r.value.value, d) == if d in RecMap(entries) then Some(RecMap(entries)[d]) else Get(current, d))
  {
    hide Less, Ascending, Get, Holds, ValidPack, RecMap, Partition, Publications, Compact, TiersBounded, Consistent, AllValid, SameMeaning;
    if |entries| > 0 && DeltaOf(of, current, entries).Ok? {
      var delta := DeltaOf(of, current, entries).value;
      DeltaIsNew(of, current, entries);
      if |delta| == 0 {
        NoneMapped(current, entries, delta);
      } else {
        var start := current + Publications(Partition(delta));
        BesideCurrent(current, entries, delta);
        CompactMeansTheSame(start, NoneCarried());
        var r := AppendEntries(of, current, entries);
        if r.Ok? {
          var next := r.value.value;
          forall d ensures Get(next, d) == if d in RecMap(entries) then Some(RecMap(entries)[d]) else Get(current, d) {
            assert Get(next, d) == Get(start, d);
            StartAnswers(current, entries, delta, d);
          }
        }
      }
    }
  }

  lemma NoneMapped(current: seq<Planned>, entries: Pack, delta: Pack)
    requires NewOf(current, entries, delta) && |delta| == 0
    ensures forall d :: d in RecMap(entries) ==> Get(current, d) == Some(RecMap(entries)[d])
  {
  }

  lemma StartAnswers(current: seq<Planned>, entries: Pack, delta: Pack, d: Bytes)
    requires AllValid(current) && Consistent(current) && NewOf(current, entries, delta)
    ensures Get(current + Publications(Partition(delta)), d) == if d in RecMap(entries) then Some(RecMap(entries)[d]) else Get(current, d)
  {
    hide Less, Ascending, Get, Holds, ValidPack, RecMap, Partition, Publications;
    var start := current + Publications(Partition(delta));
    BesideCurrent(current, entries, delta);
    GetFinds(current, d);
    GetFinds(start, d);
    if Get(current, d).Some? {
      assert Holds(start, d, Get(current, d).value);
    }
    if d in RecMap(delta) {
      assert Holds(start, d, RecMap(delta)[d]);
    }
  }

  // ----- when an append succeeds -----

  predicate BadSize(e: Entry) {
    |e.value| == 0 || |e.value| > MAX_PACK_ENTRY_BYTES
  }

  /** An entry that no catalog like this one may take: of a bad size, not under its digest, or held with other bytes. */
  ghost predicate Offends(of: Bytes -> Bytes, current: seq<Planned>, e: Entry) {
    BadSize(e) || of(e.value) != e.key || exists v :: Holds(current, e.key, v) && v != e.value
  }

  /** `novel` lists in order the entries whose digest no layer holds. */
  ghost predicate AreNew(current: seq<Planned>, entries: Pack, novel: Pack) {
    Ascending(novel) && forall e :: e in novel <==> e in entries && forall v :: !Holds(current, e.key, v)
  }

  lemma OffendsByGet(of: Bytes -> Bytes, current: seq<Planned>, e: Entry)
    requires AllValid(current) && Consistent(current)
    ensures Offends(of, current, e) <==> BadSize(e) || of(e.value) != e.key || (Get(current, e.key).Some? && Get(current, e.key).value != e.value)
    ensures Get(current, e.key).None? <==> forall v :: !Holds(current, e.key, v)
  {
    hide Get, Holds;
    GetFinds(current, e.key);
  }

  /**
   An append of no entries is refused. Otherwise the first entry that may not be
   appended decides the error: by its size first, and else by its digest.
   */
  lemma {:induction false} FirstOffenceDecides(of: Bytes -> Bytes, current: seq<Planned>, entries: Pack, n: nat)
    requires AllValid(current) && Consistent(current) && n < |entries|
    requires Offends(of, current, entries[n]) && forall k :: 0 <= k < n ==> !Offends(of, current, entries[k])
    ensures var e := if BadSize(entries[n]) then EntryTooLarge(entries[n].key) else PathMismatch(entries[n].key);
      DeltaOf(of, current, entries) == Err(e) && AppendEntries(of, current, entries) == Err(e)
    decreases n
  {
    hide Get, Holds, Offends, Append, BadSize;
    OffendsByGet(of, current, entries[0]);
    if n > 0 {
      FirstOffenceDecides(of, current, entries[1..], n - 1);
    }
    DeltaFirst(of, current, entries);
  }

  lemma DeltaFirst(of: Bytes -> Bytes, current: seq<Planned>, entries: Pack)
    requires |entries| > 0
    ensures var e, held := entries[0], Get(current, entries[0].key);
      && (BadSize(e) ==> DeltaOf(of, current, entries) == Err(EntryTooLarge(e.key)))
      && (!BadSize(e) && (of(e.value) != e.key || (held.Some? && held.value != e.value)) ==> DeltaOf(of, current, entries) == Err(PathMismatch(e.key)))
      && (!BadSize(e) && of(e.value) == e.key && (held.Some? ==> held.value == e.value) ==>
            DeltaOf(of, current, entries) == match DeltaOf(of, current, entries[1..])
              case Err(x) => Err(x)
              case Ok(delta) => Ok(if held.Some? then delta else [e] + delta))
  {
    hide Get;
  }

  lemma {:induction false} DeltaSucceeds(of: Bytes -> Bytes, current: seq<Planned>, entries: Pack)
    requires AllValid(current) && Consistent(current) && forall e :: e in entries ==> !Offends(of, current, e)
    ensures DeltaOf(of, current, entries).Ok?
    decreases |entries|
  {
    hide Get, Holds, Offends, BadSize;
    if |entries| > 0 {
      assert entries[0] in entries;
      OffendsByGet(of, current, entries[0]);
      DeltaSucceeds(of, current, entries[1..]);
      DeltaFirst(of, current, entries);
    }
  }

  lemma DeltaIs(of: Bytes -> Bytes, current: seq<Planned>, entries: Pack, novel: Pack)
    requires AllValid(current) && Consistent(current) && Ascending(entries)
    requires (forall e :: e in entries ==> !Offends(of, current, e)) && AreNew(current, entries, novel)
    ensures DeltaOf(of, current, entries) == Ok(novel) && NewOf(current, entries, novel)
  {
    hide Get, Holds, Offends, Ascending, AllValid, Consistent, RecMap;
    DeltaSucceeds(of, current, entries);
    DeltaIsNew(of, current, entries);
    var delta := DeltaOf(of, current, entries).value;
    forall d ensures d in RecMap(delta) <==> d in RecMap(novel)
             ensures d in RecMap(delta) ==> RecMap(delta)[d] == RecMap(novel)[d] {
      if d in RecMap(delta) {
        var i := RecMapKey(entries, d);
        RecMapAt(entries, i);
        OffendsByGet(of, current, entries[i]);
        assert entries[i] in novel;
        var k :| 0 <= k < |novel| && novel[k] == entries[i];
        RecMapAt(novel, k);
      }
      if d in RecMap(novel) {
        var k := RecMapKey(novel, d);
        RecMapAt(novel, k);
        assert novel[k] in entries;
        var i :| 0 <= i < |entries| && entries[i] == novel[k];
        RecMapAt(entries, i);
        OffendsByGet(of, current, entries[i]);
      }
    }
    assert RecMap(delta) == RecMap(novel);
    AscendingUnique(delta, novel);
  }

  /**
   Where no entry offends, an append answers that nothing is new exactly when no
   layer lacks a digest, and otherwise gives up on size or publishes.
   */
  lemma AppendOutcome(of: Bytes -> Bytes, current: seq<Planned>, entries: Pack, novel: Pack)
    requires AllValid(current) && Consistent(current) && Ascending(entries)
    requires (forall e :: e in entries ==> !Offends(of, current, e)) && AreNew(current, entries, novel)
    ensures var r := AppendEntries(of, current, entries);
      && (|entries| == 0 <==> r == Err(Empty))
      && (|entries| > 0 && |novel| == 0 <==> r == Ok(None))
      && (|novel| > 0 && r.Err? ==> r == Err(PackTooLarge))
  {
    hide Get, Holds, Offends, Ascending, AllValid, Consistent, RecMap, Compact, TiersBounded, Partition, NewOf, AreNew;
    DeltaIs(of, current, entries, novel);
    if |novel| > 0 {
      SomeNovel(current, entries, novel);
    }
    if |entries| > 0 {
      BesideCurrent(current, entries, novel);
      CompactMeansTheSame(current + Publications(Partition(novel)), NoneCarried());
    }
  }

  lemma SomeNovel(current: seq<Planned>, entries: Pack, novel: Pack)
    requires AreNew(current, entries, novel) && |novel| > 0
    ensures |entries| > 0
  {
    assert novel[0] in novel;
  }

  lemma {:induction false} OccursIsHeld(planned: seq<Planned>, d: Bytes) returns (v: Bytes)
    requires Occurrences(planned, d) > 0
    ensures Holds(planned, d, v)
  {
    hide RecMap;
    if d in RecMap(planned[0].pack) {
      v := RecMap(planned[0].pack)[d];
    } else {
      v := OccursIsHeld(planned[1..], d);
      var i :| 0 <= i < |planned| - 1 && d in RecMap(planned[1..][i].pack) && RecMap(planned[1..][i].pack)[d] == v;
      assert planned[i + 1] == planned[1..][i];
    }
  }

  /** New entries that fit one pack repeat no digest of the catalog. */
  lemma NovelIsProper(of: Bytes -> Bytes, current: seq<Planned>, entries: Pack, novel: Pack)
    requires Proper(current) && Ascending(entries)
    requires (forall e :: e in entries ==> !Offends(of, current, e)) && AreNew(current, entries, novel)
    requires |novel| > 0 && PackBytes(novel) <= MAX_PACK_BYTES
    ensures Proper(current + [Publication(novel)])
  {
    hide Holds, Ascending, RecMap, Occurrences, PackBytes, Offends, AreNew, Get;
    DuplicateFreeIsConsistent(current);
    DeltaIs(of, current, entries, novel);
    var start := current + [Publication(novel)];
    forall d ensures Occurrences(start, d) <= 1 {
      OccurrencesJoin(current, [Publication(novel)], d);
      OnceInOne(novel, d);
      if d in RecMap(novel) && Occurrences(current, d) > 0 {
        GetFinds(current, d);
        var v := OccursIsHeld(current, d);
        assert false;
      }
      assert Occurrences(current, d) <= 1;
    }
  }

  lemma OnceInOne(p: Pack, d: Bytes)
    ensures Occurrences([Publication(p)], d) == if d in RecMap(p) then 1 else 0
  {
    hide RecMap;
  }

  /**
   Entries that do not offend and are new are published: if they fit into one pack with
   the full tiers from their own tier up, or if everything fits into one pack.
   */
  lemma AppendSucceeds(of: Bytes -> Bytes, current: seq<Planned>, entries: Pack, novel: Pack)
    requires Proper(current) && TiersBounded(current) && Ascending(entries)
    requires (forall e :: e in entries ==> !Offends(of, current, e)) && AreNew(current, entries, novel) && |novel| > 0
    requires || TotalBytes(current) + PackBytes(novel) <= MAX_PACK_BYTES
             || (&& FullBytes(current, TierOf(novel)) + PackBytes(novel) <= MAX_PACK_BYTES
                 && TotalBytes(current) + PackBytes(novel) <= MAX_CATALOG_PACK_BYTES)
    ensures var r := AppendEntries(of, current, entries);
      && r.Ok? && r.value.Some? && Proper(r.value.value) && TiersBounded(r.value.value)
      && SameMeaning(current + [Publication(novel)], r.value.value)
  {
    hide Holds, Ascending, PackBytes, Offends, AreNew, TotalBytes, FullBytes, TierOf, CountTier, DuplicateFree, AllValid, TiersBounded, Append, Potential, Compact, SameMeaning;
    DuplicateFreeIsConsistent(current);
    DeltaIs(of, current, entries, novel);
    NovelIsProper(of, current, entries, novel);
    FullIsPart(current, TierOf(novel));
    AppendWithRoom(current, novel);
    SomeNovel(current, entries, novel);
  }

  /** New entries whose packs overfill no tier are published as they are cut, beside what was there. */
  lemma AppendBeside(of: Bytes -> Bytes, current: seq<Planned>, entries: Pack, novel: Pack, parts: seq<Pack>)
    requires AllValid(current) && Consistent(current) && Ascending(entries)
    requires (forall e :: e in entries ==> !Offends(of, current, e)) && AreNew(current, entries, novel) && |novel| > 0
    requires Greedy(parts) && Join(parts) == novel
    requires TiersBounded(current + Publications(parts)) && TotalBytes(current + Publications(parts)) <= MAX_CATALOG_PACK_BYTES
    ensures AppendEntries(of, current, entries) == Ok(Some(current + Publications(parts)))
  {
    hide Holds, Ascending, Offends, AreNew, TotalBytes, CountTier, AllValid, Greedy, Join, Partition, Consistent, Get, RecMap, PackBytes;
    DeltaIs(of, current, entries, novel);
    PartitionSpec(novel);
    GreedyIsUnique(Partition(novel), parts);
    BesideCurrent(current, entries, novel);
    WithinLimits(current + Publications(parts));
    OverfullIs(current + Publications(parts), NoneCarried(), 0);
    SomeNovel(current, entries, novel);
  }
}
