/**
 A scratch run: the loops of insertion, lookup and scan over the page log.

 Each method ends with what the functions of `ScratchLsm` and `ScratchRead` say of
 the flat log, or with an I/O error if and only if a file operation failed. A read
 flushes the buffer first, which leaves the flat log as it is, so only an insertion
 changes what the log contains, and it only appends.
 */
module ScratchRun {
  import opened Wrappers
  import opened KeyBits
  import opened KeyOrder
  import opened SortedRecords
  import opened ScratchLog
  import opened ScratchLsm
  import opened ScratchRead

  /** The keys a segment has to be read for. */
  method Select(b: Batch, keys: seq<Bytes>, r: SegmentRef) returns (selected: seq<nat>)
    requires Fits(b, keys)
    ensures forall i: nat :: i in selected <==> i < |keys| && Selected(b, keys, r, i)
  {
    hide InRange;
    selected := [];
    for i := 0 to |keys|
      invariant forall k: nat :: k in selected <==> k < i && Selected(b, keys, r, k)
    {
      if !b.resolved[i] && InRange(r, keys[i]) {
        selected := selected + [i];
      }
    }
  }

  /** Looks each selected key up in a segment's records by binary search. */
  method SettleSelected(b: Batch, keys: seq<Bytes>, r: SegmentRef, s: Segment, selected: seq<nat>) returns (n: Batch)
    requires Fits(b, keys) && Ascending(s.entries)
    requires forall i: nat :: i in selected <==> i < |keys| && Selected(b, keys, r, i)
    ensures n == Settle(b, keys, r, s)
  {
    hide InRange, Ascending, RecMap;
    KeysOrdered(s.entries);
    var sorted := KeysOf(s.entries);
    var resolved, values := b.resolved, b.values;
    for k := 0 to |selected|
      invariant |resolved| == |keys| && |values| == |keys|
      invariant forall i: nat :: i < |keys| && i in selected[..k] ==>
        resolved[i] == (keys[i] in RecMap(s.entries)) && values[i] == if keys[i] in RecMap(s.entries) then RecMap(s.entries)[keys[i]] else b.values[i]
      invariant forall i: nat :: i < |keys| && i !in selected[..k] ==> resolved[i] == b.resolved[i] && values[i] == b.values[i]
    {
      var index := selected[k];
      assert index in selected && Selected(b, keys, r, index);
      var at := Search(sorted, keys[index]);
      SearchIs(s.entries, sorted, keys[index], at);
      if at.Some? {
        values := values[index := s.entries[at.value].value];
        resolved := resolved[index := true];
      }
      assert selected[..k + 1] == selected[..k] + [index];
    }
    assert selected[..|selected|] == selected;
    n := Batch(resolved, values);
    forall i: nat | i < |keys|
      ensures n.resolved[i] == Settle(b, keys, r, s).resolved[i] && n.values[i] == Settle(b, keys, r, s).values[i]
    {
      assert i in selected <==> Selected(b, keys, r, i);
    }
    assert n.resolved == Settle(b, keys, r, s).resolved && n.values == Settle(b, keys, r, s).values;
  }

  lemma SearchIs(es: seq<Record>, sorted: seq<Bytes>, key: Bytes, at: Option<nat>)
    requires Ascending(es) && |sorted| == |es| && forall i :: 0 <= i < |es| ==> sorted[i] == es[i].key
    requires at.Some? ==> at.value < |sorted| && sorted[at.value] == key
    requires at.None? ==> key !in sorted
    ensures at.Some? <==> key in RecMap(es)
    ensures at.Some? ==> RecMap(es)[key] == es[at.value].value
  {
    hide Ascending, RecMap;
    forall i | 0 <= i < |es| ensures es[i].key in sorted {
      assert sorted[i] == es[i].key;
    }
    if at.Some? {
      RecMapAt(es, at.value);
    }
    if key in RecMap(es) {
      var i := RecMapKey(es, key);
    }
  }

  function Padded(n: nat, r: Result<Carried, ScratchError>): Result<Carried, ScratchError> {
    match r
    case Err(e) => Err(e)
    case Ok(x) => Ok(Carried(EmptyLevels(n) + x.levels, x.log))
  }

  lemma PaddedOnce(n: nat, r: Result<Carried, ScratchError>)
    ensures Padded(n, Freed(r)) == Padded(n + 1, r)
  {
    if r.Ok? {
      assert EmptyLevels(n + 1) == EmptyLevels(n) + [None];
      assert EmptyLevels(n) + ([None] + r.value.levels) == EmptyLevels(n + 1) + r.value.levels;
    }
  }

  lemma PaddedNone(r: Result<Carried, ScratchError>)
    ensures Padded(0, r) == r
  {
    if r.Ok? {
      assert EmptyLevels(0) + r.value.levels == r.value.levels;
    }
  }

  class Run {
    const pages: AppendLog

    constructor ()
      ensures fresh(pages) && pages.Valid() && pages.Contents() == []
    {
      pages := new AppendLog();
    }

    /** Reads one segment; apart from failed I/O, what `ReadSegment` says of the flat log. */
    method ReadSegmentAt(c: Codec, kind: nat, r: SegmentRef) returns (s: Result<Segment, ScratchError>)
      requires pages.Valid()
      modifies pages
      ensures s != Err(Io) ==>
        pages.Valid() && pages.Contents() == old(pages.Contents()) && s == ReadSegment(c, pages.Contents(), kind, r)
      ensures pages.faults == old(pages.faults) + if s == Err(Io) then 1 else 0
    {
      hide ValidSegment;
      var p := r.page;
      if p.kind != kind {
        return Err(BindingMismatch);
      }
      if p.length == 0 || p.length > MAX_PAGE_BYTES {
        return Err(MalformedPage);
      }
      var read, bytes := pages.ReadExact(p.offset, p.length);
      if !read {
        return Err(Io);
      }
      if bytes.None? {
        return Err(MalformedPage);
      }
      if c.of(bytes.value) != p.digest {
        return Err(DigestMismatch);
      }
      var page := c.decode(bytes.value);
      if page.None? || c.encode(page.value) != bytes.value {
        return Err(MalformedPage);
      }
      if page.value.version != SCHEMA_VERSION || page.value.kind != kind || page.value.keyMin != p.keyMin || page.value.keyMax != p.keyMax {
        return Err(BindingMismatch);
      }
      var found := page.value.segment;
      if !ValidSegment(found) {
        return Err(MalformedPage);
      }
      assert found.entries != [] by {
        SegmentNotEmpty(found);
      }
      if found.kind != kind || found.generation != r.generation || |found.entries| != r.count
         || found.entries[0].key != p.keyMin || found.entries[|found.entries| - 1].key != p.keyMax {
        return Err(BindingMismatch);
      }
      return Ok(found);
    }

    /** The insertion loop: empty full levels into the merge until a free one takes it. */
    method Insert(c: Codec, kind: nat, root: Root, records: seq<Record>) returns (r: Result<Root, ScratchError>, fetched: nat)
      requires pages.Valid()
      modifies pages
      ensures var spec := InsertMany(c, old(pages.Contents()), kind, root, records);
        r == Err(Io) ||
        (pages.Valid() && if spec.Ok? then r == Ok(spec.value.root) && pages.Contents() == spec.value.log
                          else r == Err(spec.error) && pages.Contents() == old(pages.Contents()))
      ensures pages.faults == old(pages.faults) + if r == Err(Io) then 1 else 0
      ensures r.Ok? && |records| > 0 ==> fetched == CarryReads(root.levels)
    {
      hide ReadSegment, ValidSegment, ValidRoot, OrInsertAll;
      fetched := 0;
      if |records| == 0 {
        return Ok(root), fetched;
      }
      if !ValidRoot(root) || root.next + 1 >= GENERATIONS {
        return Err(MalformedPage), fetched;
      }
      ghost var log := pages.Contents();
      var generation, merged, level := root.next + 1, records, 0;
      RootLevels(root);
      PaddedNone(Carry(c, log, kind, root.levels, records, generation));
      assert root.levels[0..] == root.levels;
      while level < LEVELS
        invariant 0 <= level <= LEVELS == |root.levels|
        invariant pages.faults == old(pages.faults) && pages.Valid() && pages.Contents() == log
        invariant Carry(c, log, kind, root.levels, records, generation)
               == Padded(level, Carry(c, log, kind, root.levels[level..], merged, generation))
        invariant fetched + CarryReads(root.levels[level..]) == CarryReads(root.levels)
      {
        assert root.levels[level..][1..] == root.levels[level + 1..];
        if root.levels[level].None? {
          r := PlaceAt(c, kind, root, level, Segment(SCHEMA_VERSION, kind, generation, merged));
          return;
        }
        var existing := ReadSegmentAt(c, kind, root.levels[level].value);
        if existing.Err? {
          return Err(existing.error), fetched;
        }
        fetched := fetched + 1;
        merged := OrInsertAll(merged, existing.value.entries);
        PaddedOnce(level, Carry(c, log, kind, root.levels[level + 1..], merged, generation));
        level := level + 1;
      }
      assert root.levels[LEVELS..] == [];
      return Err(IndexCapacity), fetched;
    }

    /** Writes the merged segment's page and names it at the free level. */
    method PlaceAt(c: Codec, kind: nat, root: Root, level: nat, s: Segment) returns (r: Result<Root, ScratchError>)
      requires pages.Valid() && level < LEVELS == |root.levels|
      modifies pages
      ensures var spec := Padded(level, Place(c, old(pages.Contents()), kind, root.levels[level + 1..], s));
        r == Err(Io) ||
        (pages.Valid() && if spec.Ok? then r == Ok(Root(s.generation, spec.value.levels)) && pages.Contents() == spec.value.log
                          else r == Err(spec.error) && pages.Contents() == old(pages.Contents()))
      ensures pages.faults == old(pages.faults) + if r == Err(Io) then 1 else 0
    {
      hide Ascending;
      if !ValidSegment(s) {
        return Err(MalformedPage);
      }
      var bytes := c.encode(PageOf(s));
      if |bytes| > MAX_PAGE_BYTES {
        return Err(PageTooLarge);
      }
      var ok, offset := pages.Append(bytes);
      if !ok {
        return Err(Io);
      }
      return Ok(Root(s.generation, EmptyLevels(level) + ([Some(RefOf(c, s, offset))] + root.levels[level + 1..])));
    }

    /** Point lookup, newest segment first. */
    method LookupOne(c: Codec, kind: nat, root: Root, key: Bytes, knownAbsent: bool) returns (r: Result<Option<Bytes>, ScratchError>)
      requires pages.Valid()
      modifies pages
      ensures r == Err(Io) ||
        (pages.Valid() && pages.Contents() == old(pages.Contents()) && r == Lookup(c, pages.Contents(), kind, root, key, knownAbsent))
      ensures pages.faults == old(pages.faults) + if r == Err(Io) then 1 else 0
    {
      hide ReadSegment, ValidRoot, InRange, RecMap, Occupied, NewestFirst;
      if !ValidRoot(root) {
        return Err(MalformedPage);
      }
      if knownAbsent {
        return Ok(None);
      }
      ghost var log := pages.Contents();
      var refs := NewestFirst(Occupied(root.levels));
      assert refs[0..] == refs;
      for n := 0 to |refs|
        invariant pages.faults == old(pages.faults) && pages.Valid() && pages.Contents() == log
        invariant LookupIn(c, log, kind, refs, key) == LookupIn(c, log, kind, refs[n..], key)
      {
        assert refs[n..][1..] == refs[n + 1..];
        if InRange(refs[n], key) {
          var s := ReadSegmentAt(c, kind, refs[n]);
          if s.Err? {
            return Err(s.error);
          }
          ReadAscends(c, log, kind, refs[n]);
          KeysOrdered(s.value.entries);
          var sorted := KeysOf(s.value.entries);
          var at := Search(sorted, key);
          SearchIs(s.value.entries, sorted, key, at);
          if at.Some? {
            return Ok(s.value.entries[at.value].value);
          }
        }
      }
      return Ok(None);
    }

    /** Batched lookup: each segment is read at most once, and only if some key needs it. */
    method LookupBatch(c: Codec, kind: nat, root: Root, keys: seq<Bytes>, absent: seq<bool>) returns (r: Result<seq<Option<Bytes>>, ScratchError>)
      requires pages.Valid()
      modifies pages
      ensures r == Err(Io) ||
        (pages.Valid() && pages.Contents() == old(pages.Contents()) && r == LookupMany(c, pages.Contents(), kind, root, keys, absent))
      ensures pages.faults == old(pages.faults) + if r == Err(Io) then 1 else 0
    {
      hide ReadSegment, ValidRoot, InRange, RecMap, Occupied, NewestFirst, Settle, Ascending;
      if !ValidRoot(root) {
        return Err(MalformedPage);
      }
      if |keys| == 0 {
        return Ok([]);
      }
      if |absent| != |keys| {
        return Err(MalformedPage);
      }
      ghost var log := pages.Contents();
      var refs, b := NewestFirst(Occupied(root.levels)), Unresolved(absent);
      assert refs[0..] == refs;
      for n := 0 to |refs|
        invariant pages.faults == old(pages.faults) && pages.Valid() && pages.Contents() == log && Fits(b, keys)
        invariant LookupManyIn(c, log, kind, refs, keys, Unresolved(absent)) == LookupManyIn(c, log, kind, refs[n..], keys, b)
      {
        assert refs[n..][1..] == refs[n + 1..];
        var selected := Select(b, keys, refs[n]);
        assert selected != [] ==> selected[0] in selected;
        if selected != [] {
          var s := ReadSegmentAt(c, kind, refs[n]);
          if s.Err? {
            return Err(s.error);
          }
          ReadAscends(c, log, kind, refs[n]);
          b := SettleSelected(b, keys, refs[n], s.value, selected);
        }
      }
      return Ok(b.values);
    }

    /** Prefix scan, oldest segment first, later records replacing earlier ones. */
    method Scan(c: Codec, kind: nat, root: Root, prefix: Bytes) returns (r: Result<seq<(Bytes, Bytes)>, ScratchError>)
      requires pages.Valid()
      modifies pages
      ensures r == Err(Io) ||
        (pages.Valid() && pages.Contents() == old(pages.Contents()) && r == ScanPrefix(c, pages.Contents(), kind, root, prefix))
      ensures pages.faults == old(pages.faults) + if r == Err(Io) then 1 else 0
    {
      hide ReadSegment, ValidRoot, Occupied, NewestFirst, Reversed, Put;
      if !ValidRoot(root) {
        return Err(MalformedPage);
      }
      ghost var log := pages.Contents();
      var refs, merged := Reversed(NewestFirst(Occupied(root.levels))), [];
      assert refs[0..] == refs;
      for n := 0 to |refs|
        invariant pages.faults == old(pages.faults) && pages.Valid() && pages.Contents() == log
        invariant ScanIn(c, log, kind, refs, prefix, []) == ScanIn(c, log, kind, refs[n..], prefix, merged)
      {
        assert refs[n..][1..] == refs[n + 1..];
        var s := ReadSegmentAt(c, kind, refs[n]);
        if s.Err? {
          return Err(s.error);
        }
        var es := s.value.entries;
        ghost var before := merged;
        assert es[0..] == es;
        for i := 0 to |es|
          invariant PutMatching(before, es, prefix) == PutMatching(merged, es[i..], prefix)
        {
          assert es[i..][1..] == es[i + 1..];
          if prefix <= es[i].key {
            merged := Put(merged, es[i]);
          }
        }
      }
      return Ok(Live(merged));
    }
  }

  lemma SegmentNotEmpty(s: Segment)
    requires ValidSegment(s)
    ensures s.entries != []
  {
  }

  lemma RootLevels(root: Root)
    requires ValidRoot(root)
    ensures |root.levels| == LEVELS
  {
  }
}
