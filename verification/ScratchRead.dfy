/**
 The read paths of the scratch index: point and batched lookup, prefix scan, and
 materialisation. All of them answer as the folded batches do.
 */
module ScratchRead {
  import opened Wrappers
  import opened KeyBits
  import opened KeyOrder
  import opened SortedRecords
  import opened ScratchLsm

  function Occupied(levels: seq<Option<SegmentRef>>): seq<SegmentRef> {
    if |levels| == 0 then []
    else (if levels[0].Some? then [levels[0].value] else []) + Occupied(levels[1..])
  }

  function InsertByAge(r: SegmentRef, sorted: seq<SegmentRef>): seq<SegmentRef> {
    if |sorted| == 0 || r.generation >= sorted[0].generation then [r] + sorted
    else [sorted[0]] + InsertByAge(r, sorted[1..])
  }

  /** The segments by falling generation. */
  function NewestFirst(refs: seq<SegmentRef>): seq<SegmentRef> {
    if |refs| == 0 then [] else InsertByAge(refs[0], NewestFirst(refs[1..]))
  }

  function Reversed(refs: seq<SegmentRef>): seq<SegmentRef> {
    if |refs| == 0 then [] else Reversed(refs[1..]) + [refs[0]]
  }

  function Answer(m: map<Bytes, Option<Bytes>>, key: Bytes): Option<Bytes> {
    if key in m then m[key] else None
  }

  function Answers(m: map<Bytes, Option<Bytes>>, keys: seq<Bytes>, absent: seq<bool>): seq<Option<Bytes>>
    requires |absent| == |keys|
  {
    seq(|keys|, i requires 0 <= i < |keys| => if absent[i] then None else Answer(m, keys[i]))
  }

  predicate InRange(r: SegmentRef, key: Bytes) {
    !Less(key, r.page.keyMin) && !Less(r.page.keyMax, key)
  }

  /** The first segment that holds the key answers, with its value or its tombstone. */
  function LookupIn(c: Codec, log: Bytes, kind: nat, refs: seq<SegmentRef>, key: Bytes): Result<Option<Bytes>, ScratchError> {
    if |refs| == 0 then Ok(None)
    else if !InRange(refs[0], key) then LookupIn(c, log, kind, refs[1..], key)
    else match ReadSegment(c, log, kind, refs[0])
      case Err(e) => Err(e)
      case Ok(s) => if key in RecMap(s.entries) then Ok(RecMap(s.entries)[key]) else LookupIn(c, log, kind, refs[1..], key)
  }

  function Lookup(c: Codec, log: Bytes, kind: nat, root: Root, key: Bytes, knownAbsent: bool): Result<Option<Bytes>, ScratchError> {
    if !ValidRoot(root) then Err(MalformedPage)
    else if knownAbsent then Ok(None)
    else LookupIn(c, log, kind, NewestFirst(Occupied(root.levels)), key)
  }

  // ----- batched lookup -----

  /** What is known of the keys so far: which are settled, and the values found. */
  datatype Batch = Batch(resolved: seq<bool>, values: seq<Option<Bytes>>)

  predicate Fits(b: Batch, keys: seq<Bytes>) {
    |b.resolved| == |keys| && |b.values| == |keys|
  }

  predicate Selected(b: Batch, keys: seq<Bytes>, r: SegmentRef, i: nat)
    requires Fits(b, keys) && i < |keys|
  {
    !b.resolved[i] && InRange(r, keys[i])
  }

  predicate AnySelected(b: Batch, keys: seq<Bytes>, r: SegmentRef)
    requires Fits(b, keys)
  {
    exists i :: 0 <= i < |keys| && Selected(b, keys, r, i)
  }

  /** Settles every selected key that the segment holds. */
  function Settle(b: Batch, keys: seq<Bytes>, r: SegmentRef, s: Segment): (n: Batch)
    requires Fits(b, keys)
    ensures Fits(n, keys)
  {
    Batch(seq(|keys|, i requires 0 <= i < |keys| => b.resolved[i] || (Selected(b, keys, r, i) && keys[i] in RecMap(s.entries))),
          seq(|keys|, i requires 0 <= i < |keys| =>
              if Selected(b, keys, r, i) && keys[i] in RecMap(s.entries) then RecMap(s.entries)[keys[i]] else b.values[i]))
  }

  function LookupManyIn(c: Codec, log: Bytes, kind: nat, refs: seq<SegmentRef>, keys: seq<Bytes>, b: Batch): Result<seq<Option<Bytes>>, ScratchError>
    requires Fits(b, keys)
    decreases |refs|
  {
    if |refs| == 0 then Ok(b.values)
    else if !AnySelected(b, keys, refs[0]) then LookupManyIn(c, log, kind, refs[1..], keys, b)
    else match ReadSegment(c, log, kind, refs[0])
      case Err(e) => Err(e)
      case Ok(s) => LookupManyIn(c, log, kind, refs[1..], keys, Settle(b, keys, refs[0], s))
  }

  function Unresolved(absent: seq<bool>): (b: Batch)
    ensures |b.resolved| == |absent| && |b.values| == |absent|
  {
    Batch(absent, seq(|absent|, _ => None))
  }

  function LookupMany(c: Codec, log: Bytes, kind: nat, root: Root, keys: seq<Bytes>, absent: seq<bool>): Result<seq<Option<Bytes>>, ScratchError> {
    if !ValidRoot(root) then Err(MalformedPage)
    else if |keys| == 0 then Ok([])
    else if |absent| != |keys| then Err(MalformedPage)
    else LookupManyIn(c, log, kind, NewestFirst(Occupied(root.levels)), keys, Unresolved(absent))
  }

  // ----- prefix scan -----

  function PutMatching(merged: seq<Record>, es: seq<Record>, prefix: Bytes): seq<Record>
    decreases |es|
  {
    if |es| == 0 then merged
    else PutMatching(if prefix <= es[0].key then Put(merged, es[0]) else merged, es[1..], prefix)
  }

  function ScanIn(c: Codec, log: Bytes, kind: nat, refs: seq<SegmentRef>, prefix: Bytes, merged: seq<Record>): Result<seq<Record>, ScratchError>
    decreases |refs|
  {
    if |refs| == 0 then Ok(merged)
    else match ReadSegment(c, log, kind, refs[0])
      case Err(e) => Err(e)
      case Ok(s) => ScanIn(c, log, kind, refs[1..], prefix, PutMatching(merged, s.entries, prefix))
  }

  /** The records that are not tombstones. */
  function Live(es: seq<Record>): seq<(Bytes, Bytes)> {
    if |es| == 0 then []
    else (if es[0].value.Some? then [(es[0].key, es[0].value.value)] else []) + Live(es[1..])
  }

  function ScanPrefix(c: Codec, log: Bytes, kind: nat, root: Root, prefix: Bytes): Result<seq<(Bytes, Bytes)>, ScratchError> {
    if !ValidRoot(root) then Err(MalformedPage)
    else match ScanIn(c, log, kind, Reversed(NewestFirst(Occupied(root.levels))), prefix, [])
      case Err(e) => Err(e)
      case Ok(es) => Ok(Live(es))
  }

  // ----- what a list of segments amounts to -----

  ghost predicate AllRead(c: Codec, log: Bytes, kind: nat, refs: seq<SegmentRef>) {
    forall r :: r in refs ==> ReadSegment(c, log, kind, r).Ok?
  }

  function EntriesAt(c: Codec, log: Bytes, kind: nat, r: SegmentRef): seq<Record> {
    if ReadSegment(c, log, kind, r).Ok? then ReadSegment(c, log, kind, r).value.entries else []
  }

  /** Newest first: what comes first overrides. */
  function StackMap(c: Codec, log: Bytes, kind: nat, refs: seq<SegmentRef>): map<Bytes, Option<Bytes>> {
    if |refs| == 0 then map[] else StackMap(c, log, kind, refs[1..]) + RecMap(EntriesAt(c, log, kind, refs[0]))
  }

  lemma {:induction false} LevelsAmountTo(c: Codec, log: Bytes, kind: nat, levels: seq<Option<SegmentRef>>, size: nat, m: nat, batches: seq<seq<Record>>)
    requires Counts(c, log, kind, levels, size, m, batches) && m * size <= |batches|
    ensures AllRead(c, log, kind, Occupied(levels))
    ensures StackMap(c, log, kind, Occupied(levels)) == Fold(batches[..m * size])
    decreases |levels|
  {
    hide ReadSegment, Fold, RecMap;
    if |levels| == 0 {
      assert m * size == 0;
      assert batches[..0] == [];
      NothingFolds();
    } else {
      Halve(m, size);
      LevelsAmountTo(c, log, kind, levels[1..], 2 * size, m / 2, batches);
      if m % 2 == 1 {
        var all := batches[..m * size];
        FoldSplit(all, m * size - size);
        assert all[..m * size - size] == batches[..m * size - size] && all[m * size - size..] == batches[m * size - size..m * size];
        assert Occupied(levels)[1..] == Occupied(levels[1..]);
      } else {
        assert Occupied(levels) == Occupied(levels[1..]);
      }
    }
  }

  lemma NothingFolds()
    ensures Fold([]) == map[]
  {
  }

  predicate Falling(refs: seq<SegmentRef>) {
    forall i, j :: 0 <= i < j < |refs| ==> refs[i].generation > refs[j].generation
  }

  lemma {:induction false} AlreadyNewestFirst(refs: seq<SegmentRef>)
    requires Falling(refs)
    ensures NewestFirst(refs) == refs
  {
    if |refs| > 0 {
      AlreadyNewestFirst(refs[1..]);
    }
  }

  lemma OccupiedFrom(levels: seq<Option<SegmentRef>>, r: SegmentRef) returns (i: nat)
    requires r in Occupied(levels)
    ensures i < |levels| && levels[i] == Some(r)
  {
    if levels[0] == Some(r) {
      i := 0;
    } else {
      i := OccupiedFrom(levels[1..], r);
      i := i + 1;
    }
  }

  lemma {:induction false} OccupiedFalls(levels: seq<Option<SegmentRef>>)
    requires forall i, j :: 0 <= i < j < |levels| && levels[i].Some? && levels[j].Some? ==> levels[i].value.generation > levels[j].value.generation
    ensures Falling(Occupied(levels))
  {
    if |levels| > 0 {
      OccupiedFalls(levels[1..]);
      if levels[0].Some? {
        forall r | r in Occupied(levels[1..]) ensures levels[0].value.generation > r.generation {
          var i := OccupiedFrom(levels[1..], r);
          assert levels[i + 1] == Some(r);
        }
      }
    }
  }

  /** The segments of a reachable root, newest first: readable, and amounting to all batches. */
  lemma RootAmountsTo(c: Codec, log: Bytes, kind: nat, root: Root, batches: seq<seq<Record>>)
    requires Represents(c, log, kind, root, batches)
    ensures ValidRoot(root)
    ensures var refs := NewestFirst(Occupied(root.levels));
      && refs == Occupied(root.levels)
      && AllRead(c, log, kind, refs) && StackMap(c, log, kind, refs) == Fold(batches)
  {
    hide Counts, ReadSegment, StackMap, Fold;
    RepresentedIsValid(c, log, kind, root, batches);
    LevelsAmountTo(c, log, kind, root.levels, 1, |batches|, batches);
    assert batches[..|batches| * 1] == batches;
    forall i, j | 0 <= i < j < |root.levels| && root.levels[i].Some? && root.levels[j].Some?
      ensures root.levels[i].value.generation > root.levels[j].value.generation
    {
      GenerationsFall(c, log, kind, root, batches, i, j);
    }
    OccupiedFalls(root.levels);
    AlreadyNewestFirst(Occupied(root.levels));
  }

  /** A key outside a segment's bounds is not in it. */
  lemma OutOfRange(c: Codec, log: Bytes, kind: nat, r: SegmentRef, key: Bytes)
    requires ReadSegment(c, log, kind, r).Ok? && !InRange(r, key)
    ensures key !in RecMap(EntriesAt(c, log, kind, r))
  {
    hide Less, ReadPage;
    var es := EntriesAt(c, log, kind, r);
    if key in RecMap(es) {
      var i := RecMapKey(es, key);
      Irreflexive(key);
      if i > 0 {
        FirstIsLeast(es, i);
        Trichotomy(es[0].key, key);
      }
      if i < |es| - 1 {
        FirstIsLeast(es[i..], |es| - 1 - i);
        Trichotomy(key, es[|es| - 1].key);
      }
    }
  }

  lemma {:induction false} LookupInAnswers(c: Codec, log: Bytes, kind: nat, refs: seq<SegmentRef>, key: Bytes)
    requires AllRead(c, log, kind, refs)
    ensures LookupIn(c, log, kind, refs, key) == Ok(Answer(StackMap(c, log, kind, refs), key))
  {
    hide ReadSegment, RecMap, InRange;
    if |refs| > 0 {
      if !InRange(refs[0], key) {
        OutOfRange(c, log, kind, refs[0], key);
      }
      LookupInAnswers(c, log, kind, refs[1..], key);
    }
  }

  /** Point lookup in a reachable root answers as the folded batches do. */
  lemma LookupAnswers(c: Codec, log: Bytes, kind: nat, root: Root, batches: seq<seq<Record>>, key: Bytes)
    requires Represents(c, log, kind, root, batches)
    ensures Lookup(c, log, kind, root, key, false) == Ok(Answer(Fold(batches), key))
  {
    hide ReadSegment, Fold, LookupIn;
    RootAmountsTo(c, log, kind, root, batches);
    LookupInAnswers(c, log, kind, NewestFirst(Occupied(root.levels)), key);
  }

  /** What the remaining segments make of a batch. */
  function Finished(m: map<Bytes, Option<Bytes>>, keys: seq<Bytes>, b: Batch): seq<Option<Bytes>>
    requires Fits(b, keys)
  {
    seq(|keys|, i requires 0 <= i < |keys| => if b.resolved[i] || keys[i] !in m then b.values[i] else m[keys[i]])
  }

  lemma SettleStep(c: Codec, log: Bytes, kind: nat, refs: seq<SegmentRef>, keys: seq<Bytes>, b: Batch, n: Batch)
    requires Fits(b, keys) && |refs| > 0 && ReadSegment(c, log, kind, refs[0]).Ok?
    requires n == if AnySelected(b, keys, refs[0]) then Settle(b, keys, refs[0], ReadSegment(c, log, kind, refs[0]).value) else b
    ensures Fits(n, keys)
    ensures Finished(StackMap(c, log, kind, refs), keys, b) == Finished(StackMap(c, log, kind, refs[1..]), keys, n)
  {
    hide ReadSegment, RecMap, InRange, StackMap;
    var es := EntriesAt(c, log, kind, refs[0]);
    var m, rest := StackMap(c, log, kind, refs), StackMap(c, log, kind, refs[1..]);
    StackMapIs(c, log, kind, refs);
    forall i | 0 <= i < |keys|
      ensures Finished(m, keys, b)[i] == Finished(rest, keys, n)[i]
    {
      assert Selected(b, keys, refs[0], i) ==> AnySelected(b, keys, refs[0]);
      if !InRange(refs[0], keys[i]) {
        OutOfRange(c, log, kind, refs[0], keys[i]);
      }
    }
  }

  lemma StackMapIs(c: Codec, log: Bytes, kind: nat, refs: seq<SegmentRef>)
    requires |refs| > 0
    ensures StackMap(c, log, kind, refs) == StackMap(c, log, kind, refs[1..]) + RecMap(EntriesAt(c, log, kind, refs[0]))
  {
  }

  lemma {:induction false} LookupManyInAnswers(c: Codec, log: Bytes, kind: nat, refs: seq<SegmentRef>, keys: seq<Bytes>, b: Batch)
    requires AllRead(c, log, kind, refs) && Fits(b, keys)
    ensures LookupManyIn(c, log, kind, refs, keys, b) == Ok(Finished(StackMap(c, log, kind, refs), keys, b))
    decreases |refs|
  {
    hide ReadSegment, RecMap, InRange, Settle, AnySelected;
    if |refs| > 0 {
      var n := if AnySelected(b, keys, refs[0]) then Settle(b, keys, refs[0], ReadSegment(c, log, kind, refs[0]).value) else b;
      SettleStep(c, log, kind, refs, keys, b, n);
      LookupManyInAnswers(c, log, kind, refs[1..], keys, n);
    } else {
      assert Finished(map[], keys, b) == b.values;
    }
  }

  /** Batched lookup answers every key, repeated ones too, as the folded batches do. */
  lemma LookupManyAnswers(c: Codec, log: Bytes, kind: nat, root: Root, batches: seq<seq<Record>>, keys: seq<Bytes>, absent: seq<bool>)
    requires Represents(c, log, kind, root, batches) && |absent| == |keys|
    ensures LookupMany(c, log, kind, root, keys, absent) == Ok(Answers(Fold(batches), keys, absent))
  {
    hide ReadSegment, Fold, LookupManyIn, Occupied, NewestFirst, Represents, ValidRoot;
    RootAmountsTo(c, log, kind, root, batches);
    if |keys| > 0 {
      LookupManyInAnswers(c, log, kind, NewestFirst(Occupied(root.levels)), keys, Unresolved(absent));
      assert Finished(Fold(batches), keys, Unresolved(absent)) == Answers(Fold(batches), keys, absent);
    } else {
      assert Answers(Fold(batches), keys, absent) == [];
    }
  }

  // ----- the scan -----

  /** The records of `m` under a prefix. */
  ghost function Under(m: map<Bytes, Option<Bytes>>, prefix: Bytes): map<Bytes, Option<Bytes>> {
    map k | k in m && prefix <= k :: m[k]
  }

  lemma UnderPut(m: map<Bytes, Option<Bytes>>, n: map<Bytes, Option<Bytes>>, prefix: Bytes, key: Bytes, value: Option<Bytes>)
    requires key !in n
    ensures (if prefix <= key then m[key := value] else m) + Under(n, prefix) == m + Under(n[key := value], prefix)
  {
  }

  lemma {:induction false} PutMatchingSpec(merged: seq<Record>, es: seq<Record>, prefix: Bytes)
    requires Ascending(merged) && Ascending(es)
    ensures Ascending(PutMatching(merged, es, prefix))
    ensures RecMap(PutMatching(merged, es, prefix)) == RecMap(merged) + Under(RecMap(es), prefix)
    decreases |es|
  {
    hide Ascending, Put;
    if |es| > 0 {
      AscendingTail(es);
      PutSpec(merged, es[0]);
      FirstNotLater(es);
      PutMatchingSpec(if prefix <= es[0].key then Put(merged, es[0]) else merged, es[1..], prefix);
      UnderPut(RecMap(merged), RecMap(es[1..]), prefix, es[0].key, es[0].value);
    }
  }

  lemma ReadAscends(c: Codec, log: Bytes, kind: nat, r: SegmentRef)
    ensures Ascending(EntriesAt(c, log, kind, r))
  {
  }

  lemma UnderSum(a: map<Bytes, Option<Bytes>>, b: map<Bytes, Option<Bytes>>, prefix: Bytes)
    ensures Under(a + b, prefix) == Under(a, prefix) + Under(b, prefix)
  {
  }

  lemma {:induction false} ScanJoined(c: Codec, log: Bytes, kind: nat, refs: seq<SegmentRef>, last: SegmentRef, prefix: Bytes, merged: seq<Record>)
    requires ScanIn(c, log, kind, refs, prefix, merged).Ok? && ReadSegment(c, log, kind, last).Ok?
    ensures ScanIn(c, log, kind, refs + [last], prefix, merged)
         == Ok(PutMatching(ScanIn(c, log, kind, refs, prefix, merged).value, EntriesAt(c, log, kind, last), prefix))
    decreases |refs|
  {
    hide ReadSegment, PutMatching;
    if |refs| == 0 {
      assert refs + [last] == [last] && [last][1..] == [];
    } else {
      assert (refs + [last])[1..] == refs[1..] + [last];
      ScanJoined(c, log, kind, refs[1..], last, prefix, PutMatching(merged, ReadSegment(c, log, kind, refs[0]).value.entries, prefix));
    }
  }

  /** Scanning oldest first merges to the records under the prefix. */
  lemma {:induction false} ScanMerges(c: Codec, log: Bytes, kind: nat, refs: seq<SegmentRef>, prefix: Bytes)
    requires AllRead(c, log, kind, refs)
    ensures var r := ScanIn(c, log, kind, Reversed(refs), prefix, []);
      r.Ok? && Ascending(r.value) && RecMap(r.value) == Under(StackMap(c, log, kind, refs), prefix)
  {
    hide ReadSegment, Ascending;
    if |refs| > 0 {
      ScanMerges(c, log, kind, refs[1..], prefix);
      var before := ScanIn(c, log, kind, Reversed(refs[1..]), prefix, []).value;
      ScanJoined(c, log, kind, Reversed(refs[1..]), refs[0], prefix, []);
      ReadAscends(c, log, kind, refs[0]);
      PutMatchingSpec(before, EntriesAt(c, log, kind, refs[0]), prefix);
      UnderSum(StackMap(c, log, kind, refs[1..]), RecMap(EntriesAt(c, log, kind, refs[0])), prefix);
    } else {
      assert Ascending<Option<Bytes>>([]) by {
        NothingAscends();
      }
    }
  }

  lemma NothingAscends()
    ensures Ascending<Option<Bytes>>([])
  {
  }

  lemma {:induction false} LiveHas(es: seq<Record>, key: Bytes, value: Bytes)
    requires Ascending(es)
    ensures (key, value) in Live(es) <==> key in RecMap(es) && RecMap(es)[key] == Some(value)
  {
    hide Ascending;
    if |es| > 0 {
      AscendingTail(es);
      LiveHas(es[1..], key, value);
      FirstNotLater(es);
    }
  }

  lemma {:induction false} LiveOrdered(es: seq<Record>)
    requires Ascending(es)
    ensures forall i, j :: 0 <= i < j < |Live(es)| ==> Less(Live(es)[i].0, Live(es)[j].0)
  {
    hide Ascending, Less;
    if |es| > 0 {
      AscendingTail(es);
      LiveOrdered(es[1..]);
      forall x | x in Live(es[1..]) ensures Less(es[0].key, x.0) {
        LiveHas(es[1..], x.0, x.1);
        var i := RecMapKey(es[1..], x.0);
        FirstIsLeast(es, i + 1);
      }
    }
  }

  /** A prefix scan returns, in key order, exactly the live records under the prefix. */
  lemma ScanAnswers(c: Codec, log: Bytes, kind: nat, root: Root, batches: seq<seq<Record>>, prefix: Bytes)
    requires Represents(c, log, kind, root, batches)
    ensures var r := ScanPrefix(c, log, kind, root, prefix);
      && r.Ok?
      && (forall i, j :: 0 <= i < j < |r.value| ==> Less(r.value[i].0, r.value[j].0))
      && (forall key, value :: (key, value) in r.value <==> prefix <= key && Answer(Fold(batches), key) == Some(value))
  {
    hide ReadSegment, Fold, ScanIn, Represents, Ascending, Less, Live, RecMap, StackMap, Occupied, NewestFirst;
    RootAmountsTo(c, log, kind, root, batches);
    var refs := NewestFirst(Occupied(root.levels));
    ScanMerges(c, log, kind, refs, prefix);
    var es := ScanIn(c, log, kind, Reversed(refs), prefix, []).value;
    LiveOrdered(es);
    forall key, value ensures (key, value) in Live(es) <==> prefix <= key && Answer(Fold(batches), key) == Some(value) {
      LiveHas(es, key, value);
    }
  }

  /** Materialising is scanning the empty prefix: all live records. */
  lemma MaterializeAnswers(c: Codec, log: Bytes, kind: nat, root: Root, batches: seq<seq<Record>>)
    requires Represents(c, log, kind, root, batches)
    ensures var r := ScanPrefix(c, log, kind, root, []);
      && r.Ok?
      && (forall i, j :: 0 <= i < j < |r.value| ==> Less(r.value[i].0, r.value[j].0))
      && (forall key, value :: (key, value) in r.value <==> Answer(Fold(batches), key) == Some(value))
  {
    hide Fold, ScanPrefix, Represents;
    ScanAnswers(c, log, kind, root, batches, []);
  }
}
