/**
 A lookup session: decoded segments of one root kept in 32 slots under a byte
 budget, the least recently used going first. Lookups cannot tell it is there.

 The number of slots is the number of levels, and no segment is cached twice, so a
 segment that is missing always finds a free slot; only the byte budget evicts.
 The charge of a segment is any function of it.
 */
module ScratchSession {
  import opened Wrappers
  import opened KeyBits
  import opened SortedRecords
  import opened ScratchLsm
  import opened ScratchRead
  import opened ScratchRun

  datatype Cached = Cached(at: SegmentRef, segment: Segment, charge: nat, lastAccess: nat)

  type Slots = seq<Option<Cached>>

  function ChargeOf(slot: Option<Cached>): nat {
    if slot.Some? then slot.value.charge else 0
  }

  /** The bytes all slots are charged with. */
  function Resident(slots: Slots): nat {
    if |slots| == 0 then 0 else ChargeOf(slots[0]) + Resident(slots[1..])
  }

  lemma {:induction false} ResidentUpdate(slots: Slots, i: nat, slot: Option<Cached>)
    requires i < |slots|
    ensures Resident(slots[i := slot]) + ChargeOf(slots[i]) == Resident(slots) + ChargeOf(slot)
  {
    if i == 0 {
      assert slots[0 := slot][1..] == slots[1..];
    } else {
      ResidentUpdate(slots[1..], i - 1, slot);
      assert slots[i := slot][1..] == slots[1..][i - 1 := slot];
    }
  }

  predicate Vacant(slots: Slots) {
    forall i :: 0 <= i < |slots| ==> slots[i].None?
  }

  lemma VacantHoldsNothing(slots: Slots)
    requires Vacant(slots)
    ensures Resident(slots) == 0
  {
  }

  /** How many slots are taken. */
  function Taken(slots: Slots): nat {
    if |slots| == 0 then 0 else (if slots[0].Some? then 1 else 0) + Taken(slots[1..])
  }

  lemma {:induction false} TakenLess(slots: Slots, i: nat)
    requires i < |slots| && slots[i].Some?
    ensures Taken(slots[i := None]) < Taken(slots)
  {
    if i == 0 {
      assert slots[0 := None][1..] == slots[1..];
    } else {
      TakenLess(slots[1..], i - 1);
      assert slots[i := None][1..] == slots[1..][i - 1 := None];
    }
  }

  /** Cached segments are what reading would give, each of the root, none twice. */
  ghost predicate Genuine(c: Codec, log: Bytes, kind: nat, root: Root, slots: Slots) {
    && |slots| == LEVELS
    && (forall i :: 0 <= i < |slots| && slots[i].Some? ==>
        ReadSegment(c, log, kind, slots[i].value.at) == Ok(slots[i].value.segment) && Some(slots[i].value.at) in root.levels)
    && (forall i, j :: 0 <= i < j < |slots| && slots[i].Some? && slots[j].Some? ==> slots[i].value.at != slots[j].value.at)
  }

  /** A segment's slot, with its last access. */
  predicate CachedAt(slots: Slots, r: SegmentRef, i: nat) {
    i < |slots| && slots[i].Some? && slots[i].value.at == r
  }

  ghost predicate IsCached(slots: Slots, r: SegmentRef) {
    exists i: nat :: CachedAt(slots, r, i)
  }

  ghost function RefSet(levels: seq<Option<SegmentRef>>): set<SegmentRef> {
    set l | l in levels && l.Some? :: l.value
  }

  lemma {:induction false} FewRefs(levels: seq<Option<SegmentRef>>)
    ensures |RefSet(levels)| <= |levels|
  {
    if |levels| > 0 {
      FewRefs(levels[1..]);
      assert levels == [levels[0]] + levels[1..];
      if levels[0].Some? {
        assert RefSet(levels) == RefSet(levels[1..]) + {levels[0].value};
      } else {
        assert RefSet(levels) == RefSet(levels[1..]);
      }
    }
  }

  lemma {:induction false} DistinctRefs(slots: Slots, refs: set<SegmentRef>)
    requires forall i :: 0 <= i < |slots| ==> slots[i].Some? && slots[i].value.at in refs
    requires forall i, j :: 0 <= i < j < |slots| ==> slots[i].value.at != slots[j].value.at
    ensures |slots| <= |refs|
  {
    if |slots| > 0 {
      DistinctRefs(slots[1..], refs - {slots[0].value.at});
    }
  }

  /** When a segment of the root is not cached, some slot is free: nothing need be evicted for want of slots. */
  lemma SlotIsFree(c: Codec, log: Bytes, kind: nat, root: Root, slots: Slots, r: SegmentRef)
    requires Genuine(c, log, kind, root, slots) && |root.levels| == LEVELS && Some(r) in root.levels
    requires forall i :: 0 <= i < |slots| && slots[i].Some? ==> slots[i].value.at != r
    ensures exists i :: 0 <= i < |slots| && slots[i].None?
  {
    hide ReadSegment;
    if forall i :: 0 <= i < |slots| ==> slots[i].Some? {
      FewRefs(root.levels);
      assert r in RefSet(root.levels);
      DistinctRefs(slots, RefSet(root.levels) - {r});
    }
  }

  /** Slots that stay with their segments keep them cached. */
  lemma StillCached(before: Slots, after: Slots)
    requires |before| == |after|
    requires forall i :: 0 <= i < |before| && before[i].Some? ==> after[i].Some? && after[i].value.at == before[i].value.at
    ensures forall q :: IsCached(before, q) ==> IsCached(after, q)
  {
    forall q | IsCached(before, q) ensures IsCached(after, q) {
      var i: nat :| CachedAt(before, q, i);
      assert CachedAt(after, q, i);
    }
  }

  class Session {
    const run: Run
    const root: Root
    const kind: nat
    const budget: nat
    const cost: (SegmentRef, Segment) -> nat
    var slots: Slots
    var clock: nat
    var resident: nat

    constructor (run: Run, root: Root, kind: nat, budget: nat, cost: (SegmentRef, Segment) -> nat)
      ensures this.run == run && this.root == root && this.kind == kind && this.budget == budget && this.cost == cost
      ensures Vacant(slots) && |slots| == LEVELS && resident == 0
    {
      this.run, this.root, this.kind, this.budget, this.cost := run, root, kind, budget, cost;
      slots, clock, resident := seq(LEVELS, _ => None), 0, 0;
    }

    /** Genuine contents, and the resident bytes are the charges' sum, within the budget. */
    ghost predicate Valid(c: Codec, log: Bytes)
      reads this
    {
      && Genuine(c, log, kind, root, slots) && |root.levels| == LEVELS
      && resident == Resident(slots) <= budget
    }

    /** Empties the slot used longest ago, if any is taken. */
    method EvictLru()
      requires resident == Resident(slots)
      modifies this`slots, this`resident
      ensures Vacant(old(slots)) ==> slots == old(slots) && resident == old(resident)
      ensures !Vacant(old(slots)) ==>
        exists i :: 0 <= i < |old(slots)| && old(slots)[i].Some? && slots == old(slots)[i := None]
          && forall j :: 0 <= j < |old(slots)| && old(slots)[j].Some? ==> old(slots)[i].value.lastAccess <= old(slots)[j].value.lastAccess
      ensures resident == Resident(slots) <= old(resident)
    {
      var oldest: Option<nat> := None;
      for i := 0 to |slots|
        invariant oldest.None? ==> forall j :: 0 <= j < i ==> slots[j].None?
        invariant oldest.Some? ==> oldest.value < i && slots[oldest.value].Some?
        invariant oldest.Some? ==> forall j :: 0 <= j < i && slots[j].Some? ==> slots[oldest.value].value.lastAccess <= slots[j].value.lastAccess
      {
        if slots[i].Some? && (oldest.None? || slots[i].value.lastAccess < slots[oldest.value].value.lastAccess) {
          oldest := Some(i);
        }
      }
      if oldest.None? {
        return;
      }
      ResidentUpdate(slots, oldest.value, None);
      resident := resident - slots[oldest.value].value.charge;
      slots := slots[oldest.value := None];
    }

    /** Evicts until a charge fits the budget. */
    method MakeRoom(ghost c: Codec, ghost log: Bytes, charge: nat)
      requires Valid(c, log) && charge <= budget
      modifies this`slots, this`resident
      ensures Valid(c, log) && resident + charge <= budget
      ensures forall i :: 0 <= i < |slots| && slots[i].Some? ==> slots[i] == old(slots)[i]
      ensures old(resident) + charge <= budget ==> slots == old(slots)
    {
      hide ReadSegment, Resident, Taken;
      while resident + charge > budget
        invariant Valid(c, log)
        invariant forall i :: 0 <= i < |slots| && slots[i].Some? ==> slots[i] == old(slots)[i]
        invariant old(resident) + charge <= budget ==> slots == old(slots) && resident == old(resident)
        decreases Taken(slots)
      {
        ghost var before := slots;
        if Vacant(slots) {
          VacantHoldsNothing(slots);
        }
        EvictLru();
        ghost var i :| 0 <= i < |before| && before[i].Some? && slots == before[i := None];
        TakenLess(before, i);
      }
    }

    /** The first free slot, after evicting if all are taken. */
    method FreeSlot() returns (free: nat)
      requires |slots| > 0 && resident == Resident(slots)
      modifies this`slots, this`resident
      ensures free < |slots| == |old(slots)| && slots[free].None? && resident == Resident(slots)
      ensures (exists i :: 0 <= i < |old(slots)| && old(slots)[i].None?) ==> slots == old(slots)
    {
      ghost var k := 0;
      if forall i :: 0 <= i < |slots| ==> slots[i].Some? {
        assert slots[0].Some?;
        ghost var before := slots;
        EvictLru();
        k :| 0 <= k < |before| && slots == before[k := None];
      } else {
        k :| 0 <= k < |slots| && slots[k].None?;
      }
      free := 0;
      while slots[free].Some?
        invariant free <= k < |slots| && slots[k].None?
        decreases k - free
      {
        free := free + 1;
      }
    }

    /**
     Reads a segment of the root, from a slot and without touching the log if it is cached. Afterwards
     it is cached as the last one used, unless its charge alone exceeds the budget; nothing is
     evicted while the budget has room. `spare` tells that a slot was free without evicting for it.
     */
    method Read(c: Codec, run: Run, r: SegmentRef) returns (s: Result<Segment, ScratchError>, ghost spare: bool)
      requires run.pages.Valid() && Valid(c, run.pages.Contents()) && Some(r) in root.levels
      modifies this, run.pages
      ensures s != Err(Io) ==>
        && run.pages.Valid() && run.pages.Contents() == old(run.pages.Contents())
        && Valid(c, run.pages.Contents()) && s == ReadSegment(c, run.pages.Contents(), kind, r)
      ensures run.pages.faults == old(run.pages.faults) + if s == Err(Io) then 1 else 0
      ensures resident == Resident(slots) <= budget && |slots| == LEVELS
      ensures spare
      ensures IsCached(old(slots), r) ==>
        s.Ok? && run.pages.file == old(run.pages.file) && run.pages.pending == old(run.pages.pending)
      ensures s.Ok? && (IsCached(old(slots), r) || cost(r, s.value) <= budget) ==>
        clock == old(clock) + 1 && exists i: nat :: CachedAt(slots, r, i) && slots[i].value.lastAccess == clock
      ensures IsCached(old(slots), r) || (s.Ok? && old(resident) + cost(r, s.value) <= budget) ==>
        forall q :: IsCached(old(slots), q) ==> IsCached(slots, q)
    {
      hide ReadSegment, Resident;
      spare := true;
      ghost var log := run.pages.Contents();
      for i := 0 to |slots|
        invariant slots == old(slots) && resident == old(resident)
        invariant forall j :: 0 <= j < i && slots[j].Some? ==> slots[j].value.at != r
      {
        if slots[i].Some? && slots[i].value.at == r {
          clock := clock + 1;
          ResidentUpdate(slots, i, Some(slots[i].value.(lastAccess := clock)));
          slots := slots[i := Some(slots[i].value.(lastAccess := clock))];
          StillCached(old(slots), slots);
          assert CachedAt(slots, r, i);
          return Ok(slots[i].value.segment), true;
        }
      }
      assert !IsCached(slots, r);
      s := run.ReadSegmentAt(c, kind, r);
      if s.Err? {
        return;
      }
      var charge := cost(r, s.value);
      if charge > budget {
        return;
      }
      MakeRoom(c, log, charge);
      SlotIsFree(c, log, kind, root, slots, r);
      spare := exists i :: 0 <= i < |slots| && slots[i].None?;
      var free := FreeSlot();
      clock := clock + 1;
      ResidentUpdate(slots, free, Some(Cached(r, s.value, charge, clock)));
      ghost var kept := slots;
      slots := slots[free := Some(Cached(r, s.value, charge, clock))];
      resident := resident + charge;
      assert CachedAt(slots, r, free);
      StillCached(kept, slots);
    }

    /** The run, root and kind that the session was made for. */
    predicate Bound(run: Run, root: Root, kind: nat) {
      run == this.run && root == this.root && kind == this.kind
    }

    /** Batched lookup through the session: the same answers as without it, and none for another run, root or kind. */
    method LookupBatch(c: Codec, run: Run, root: Root, kind: nat, keys: seq<Bytes>, absent: seq<bool>)
      returns (r: Result<seq<Option<Bytes>>, ScratchError>)
      requires run.pages.Valid() && (run == this.run ==> Valid(c, run.pages.Contents()))
      modifies this, run.pages
      ensures !ValidRoot(root) ==> r == Err(MalformedPage)
      ensures ValidRoot(root) && !Bound(run, root, kind) ==> r == Err(BindingMismatch)
      ensures !ValidRoot(root) || !Bound(run, root, kind) ==>
        run.pages.Contents() == old(run.pages.Contents()) && slots == old(slots) && resident == old(resident)
      ensures Bound(run, root, kind) ==> resident == Resident(slots) <= budget
      ensures Bound(run, root, kind) && r != Err(Io) ==>
        && run.pages.Valid() && run.pages.Contents() == old(run.pages.Contents()) && Valid(c, run.pages.Contents())
        && r == LookupMany(c, run.pages.Contents(), kind, root, keys, absent)
      ensures run.pages.faults == old(run.pages.faults) + if r == Err(Io) then 1 else 0
    {
      hide ReadSegment, ValidRoot, InRange, RecMap, Occupied, NewestFirst, Settle, Ascending, Genuine, Resident;
      if !ValidRoot(root) {
        return Err(MalformedPage);
      }
      if !Bound(run, root, kind) {
        return Err(BindingMismatch);
      }
      if |keys| == 0 {
        return Ok([]);
      }
      if |absent| != |keys| {
        return Err(MalformedPage);
      }
      ghost var log := run.pages.Contents();
      var refs, b := NewestFirst(Occupied(root.levels)), Unresolved(absent);
      assert refs[0..] == refs;
      for n := 0 to |refs|
        invariant run.pages.faults == old(run.pages.faults) && run.pages.Valid() && run.pages.Contents() == log && Valid(c, log) && Fits(b, keys)
        invariant LookupManyIn(c, log, kind, refs, keys, Unresolved(absent)) == LookupManyIn(c, log, kind, refs[n..], keys, b)
      {
        assert refs[n..][1..] == refs[n + 1..];
        var selected := Select(b, keys, refs[n]);
        assert selected != [] ==> selected[0] in selected;
        if selected != [] {
          SortedFrom(root.levels, refs[n]);
          var s, _ := Read(c, run, refs[n]);
          if s.Err? {
            return Err(s.error);
          }
          ReadAscends(c, log, kind, refs[n]);
          b := SettleSelected(b, keys, refs[n], s.value, selected);
        }
      }
      return Ok(b.values);
    }
  }

  lemma SessionSurvives(x: Session, c: Codec, log: Bytes, longer: Bytes)
    requires x.Valid(c, log) && log <= longer
    ensures x.Valid(c, longer)
  {
    hide ReadSegment;
    forall i | 0 <= i < |x.slots| && x.slots[i].Some?
      ensures ReadSegment(c, longer, x.kind, x.slots[i].value.at) == Ok(x.slots[i].value.segment)
    {
      ReadStable(c, log, longer, x.kind, x.slots[i].value.at);
    }
  }

  /** An insertion into the run between two lookups, of any kind and into any root, leaves the session valid. */
  lemma ValidAfterInsert(x: Session, c: Codec, log: Bytes, kind: nat, root: Root, records: seq<Record>)
    requires x.Valid(c, log) && InsertMany(c, log, kind, root, records).Ok?
    ensures x.Valid(c, InsertMany(c, log, kind, root, records).value.log)
  {
    hide InsertMany;
    InsertOnlyAppends(c, log, kind, root, records);
    SessionSurvives(x, c, log, InsertMany(c, log, kind, root, records).value.log);
  }

  lemma InsertByAgeKeeps(r: SegmentRef, sorted: seq<SegmentRef>, x: SegmentRef)
    ensures x in InsertByAge(r, sorted) <==> x == r || x in sorted
  {
  }

  lemma {:induction false} NewestFirstKeeps(refs: seq<SegmentRef>, x: SegmentRef)
    ensures x in NewestFirst(refs) <==> x in refs
  {
    if |refs| > 0 {
      NewestFirstKeeps(refs[1..], x);
      InsertByAgeKeeps(refs[0], NewestFirst(refs[1..]), x);
      assert refs == [refs[0]] + refs[1..];
    }
  }

  lemma SortedFrom(levels: seq<Option<SegmentRef>>, r: SegmentRef)
    requires r in NewestFirst(Occupied(levels))
    ensures Some(r) in levels
  {
    NewestFirstKeeps(Occupied(levels), r);
    var i := OccupiedFrom(levels, r);
  }
}
