/** The scratch index: 32 levels of sorted segments carried like the bits of a binary counter, kept as pages in an append-only log. */
module ScratchLsm {
  import opened Wrappers
  import opened KeyBits
  import opened SortedRecords
  import opened ScratchLog

  const LEVELS: nat := 32
  const SCHEMA_VERSION: nat := 1
  const MAX_PAGE_BYTES: nat := 256 * 1024 * 1024

  /** A key with its value, or with a tombstone. */
  type Record = Rec<Option<Bytes>>

  datatype Segment = Segment(version: nat, kind: nat, generation: nat, entries: seq<Record>)

  datatype Page = Page(version: nat, kind: nat, keyMin: Bytes, keyMax: Bytes, segment: Segment)

  datatype PageRef = PageRef(offset: nat, length: nat, digest: Bytes, kind: nat, keyMin: Bytes, keyMax: Bytes)

  datatype SegmentRef = SegmentRef(generation: nat, count: nat, page: PageRef)

  datatype Root = Root(next: nat, levels: seq<Option<SegmentRef>>)

  datatype ScratchError = MalformedPage | DigestMismatch | BindingMismatch | PageTooLarge | IndexCapacity | Io

  /** The page serialiser and the hash. */
  datatype Codec = Codec(encode: Page -> Bytes, decode: Bytes -> Option<Page>, of: Bytes -> Bytes)

  ghost predicate Faithful(c: Codec) {
    forall p :: c.decode(c.encode(p)) == Some(p) && 0 < |c.encode(p)|
  }

  function EmptyLevels(n: nat): (l: seq<Option<SegmentRef>>)
    ensures |l| == n && forall i :: 0 <= i < n ==> l[i] == None
  {
    seq(n, _ => None)
  }

  const EMPTY_ROOT: Root := Root(0, EmptyLevels(LEVELS))

  predicate ValidRoot(r: Root) {
    && |r.levels| == LEVELS
    && forall l :: l in r.levels && l.Some? ==> 0 < l.value.generation <= r.next && l.value.count != 0
  }

  predicate ValidSegment(s: Segment) {
    s.version == SCHEMA_VERSION && s.generation != 0 && s.entries != [] && Ascending(s.entries)
  }

  // ----- pages -----

  function ReadPage(c: Codec, log: Bytes, kind: nat, p: PageRef): Result<Segment, ScratchError> {
    if p.kind != kind then Err(BindingMismatch)
    else if p.length == 0 || p.length > MAX_PAGE_BYTES then Err(MalformedPage)
    else match Slice(log, p.offset, p.length)
      case None => Err(MalformedPage)
      case Some(bytes) =>
        if c.of(bytes) != p.digest then Err(DigestMismatch)
        else match c.decode(bytes)
          case None => Err(MalformedPage)
          case Some(page) =>
            if c.encode(page) != bytes then Err(MalformedPage)
            else if page.version != SCHEMA_VERSION || page.kind != kind || page.keyMin != p.keyMin || page.keyMax != p.keyMax then
              Err(BindingMismatch)
            else Ok(page.segment)
  }

  function ReadSegment(c: Codec, log: Bytes, kind: nat, r: SegmentRef): Result<Segment, ScratchError> {
    match ReadPage(c, log, kind, r.page)
    case Err(e) => Err(e)
    case Ok(s) =>
      if !ValidSegment(s) then Err(MalformedPage)
      else if s.kind != kind || s.generation != r.generation || |s.entries| != r.count
           || s.entries[0].key != r.page.keyMin || s.entries[|s.entries| - 1].key != r.page.keyMax then Err(BindingMismatch)
      else Ok(s)
  }

  function PageOf(s: Segment): Page
    requires s.entries != []
  {
    Page(SCHEMA_VERSION, s.kind, s.entries[0].key, s.entries[|s.entries| - 1].key, s)
  }

  /** The reference to a segment whose page goes to offset `offset`. */
  function RefOf(c: Codec, s: Segment, offset: nat): SegmentRef
    requires s.entries != []
  {
    var p := PageOf(s);
    SegmentRef(s.generation, |s.entries|, PageRef(offset, |c.encode(p)|, c.of(c.encode(p)), s.kind, p.keyMin, p.keyMax))
  }

  /** A segment written at the end of the log is read back from there ever after. */
  lemma ReadsBack(c: Codec, log: Bytes, s: Segment)
    requires Faithful(c) && ValidSegment(s) && |c.encode(PageOf(s))| <= MAX_PAGE_BYTES
    ensures ReadSegment(c, log + c.encode(PageOf(s)), s.kind, RefOf(c, s, |log|)) == Ok(s)
  {
    var bytes := c.encode(PageOf(s));
    assert (log + bytes)[|log|..|log| + |bytes|] == bytes;
  }

  lemma ReadStable(c: Codec, log: Bytes, longer: Bytes, kind: nat, r: SegmentRef)
    requires log <= longer && ReadSegment(c, log, kind, r).Ok?
    ensures ReadSegment(c, longer, kind, r) == ReadSegment(c, log, kind, r)
  {
    hide ValidSegment;
    SliceStable(log, longer, r.page.offset, r.page.length);
  }

  /** What the batches amount to, later ones overriding earlier ones. */
  function Fold(batches: seq<seq<Record>>): map<Bytes, Option<Bytes>>
    decreases |batches|
  {
    if |batches| == 0 then map[] else Fold(batches[..|batches| - 1]) + RecMap(batches[|batches| - 1])
  }

  lemma {:induction false} FoldSplit(batches: seq<seq<Record>>, n: nat)
    requires n <= |batches|
    ensures Fold(batches) == Fold(batches[..n]) + Fold(batches[n..])
    decreases |batches|
  {
    if n == |batches| {
      assert batches[..n] == batches && batches[n..] == [];
    } else {
      var k := |batches| - 1;
      FoldSplit(batches[..k], n);
      assert batches[..k][..n] == batches[..n] && batches[..k][n..] == batches[n..][..k - n];
      Regroup(Fold(batches[..n]), Fold(batches[n..][..k - n]), RecMap(batches[k]));
    }
  }

  lemma Regroup(a: map<Bytes, Option<Bytes>>, b: map<Bytes, Option<Bytes>>, c: map<Bytes, Option<Bytes>>)
    ensures (a + b) + c == a + (b + c)
  {
  }

  // ----- insertion as a carry -----

  /** New levels, and the log with the new page. */
  datatype Carried = Carried(levels: seq<Option<SegmentRef>>, log: Bytes)

  /** The merged segment goes to the first free level; full ones on the way are emptied into it. */
  function Carry(c: Codec, log: Bytes, kind: nat, levels: seq<Option<SegmentRef>>, merged: seq<Record>, generation: nat): Result<Carried, ScratchError>
    decreases |levels|
  {
    if |levels| == 0 then Err(IndexCapacity)
    else if levels[0].Some? then
      match ReadSegment(c, log, kind, levels[0].value)
      case Err(e) => Err(e)
      case Ok(s) => Freed(Carry(c, log, kind, levels[1..], OrInsertAll(merged, s.entries), generation))
    else Place(c, log, kind, levels[1..], Segment(SCHEMA_VERSION, kind, generation, merged))
  }

  function Freed(r: Result<Carried, ScratchError>): Result<Carried, ScratchError> {
    match r
    case Err(e) => Err(e)
    case Ok(x) => Ok(Carried([None] + x.levels, x.log))
  }

  /** Writes a segment's page and puts it in front of the levels above. */
  function Place(c: Codec, log: Bytes, kind: nat, above: seq<Option<SegmentRef>>, s: Segment): Result<Carried, ScratchError> {
    if !ValidSegment(s) then Err(MalformedPage)
    else if |c.encode(PageOf(s))| > MAX_PAGE_BYTES then Err(PageTooLarge)
    else Ok(Carried([Some(RefOf(c, s, |log|))] + above, log + c.encode(PageOf(s))))
  }

  const GENERATIONS: nat := 0x1_0000_0000_0000_0000

  /** The new root and the log it reads from. */
  datatype Inserted = Inserted(root: Root, log: Bytes)

  function InsertMany(c: Codec, log: Bytes, kind: nat, root: Root, records: seq<Record>): Result<Inserted, ScratchError> {
    if |records| == 0 then Ok(Inserted(root, log))
    else if !ValidRoot(root) then Err(MalformedPage)
    else if root.next + 1 >= GENERATIONS then Err(MalformedPage)
    else match Carry(c, log, kind, root.levels, records, root.next + 1)
      case Err(e) => Err(e)
      case Ok(x) => Ok(Inserted(Root(root.next + 1, x.levels), x.log))
  }

  // ----- what the levels hold -----

  lemma {:induction false} CarryOnlyAppends(c: Codec, log: Bytes, kind: nat, levels: seq<Option<SegmentRef>>, merged: seq<Record>, generation: nat)
    ensures var r := Carry(c, log, kind, levels, merged, generation); r.Ok? ==> log <= r.value.log
    decreases |levels|
  {
    hide ReadSegment, OrInsertAll, ValidSegment;
    if |levels| > 0 && levels[0].Some? {
      var read := ReadSegment(c, log, kind, levels[0].value);
      if read.Ok? {
        CarryOnlyAppends(c, log, kind, levels[1..], OrInsertAll(merged, read.value.entries), generation);
      }
    }
  }

  /** Whatever root it goes into, an insertion only appends to the log. */
  lemma InsertOnlyAppends(c: Codec, log: Bytes, kind: nat, root: Root, records: seq<Record>)
    ensures var r := InsertMany(c, log, kind, root, records); r.Ok? ==> log <= r.value.log
  {
    hide Carry, ValidRoot;
    CarryOnlyAppends(c, log, kind, root.levels, records, root.next + 1);
  }

  /** The segment is readable and amounts to these batches. */
  ghost predicate Covers(c: Codec, log: Bytes, kind: nat, r: SegmentRef, some: seq<seq<Record>>) {
    && ReadSegment(c, log, kind, r).Ok?
    && RecMap(ReadSegment(c, log, kind, r).value.entries) == Fold(some)
  }

  /**
   Levels of `size` batches and up, holding the first `m * size` batches the way a
   binary counter holds `m`: a level is occupied exactly when its bit is set, and its
   generation is the number of the last batch it covers.
   */
  ghost predicate Counts(c: Codec, log: Bytes, kind: nat, levels: seq<Option<SegmentRef>>, size: nat, m: nat, batches: seq<seq<Record>>)
    decreases |levels|
  {
    if |levels| == 0 then m == 0
    else
      && levels[0].Some? == (m % 2 == 1)
      && (m % 2 == 1 ==>
          && size <= m * size <= |batches|
          && levels[0].value.generation == m * size
          && Covers(c, log, kind, levels[0].value, batches[m * size - size..m * size]))
      && Counts(c, log, kind, levels[1..], 2 * size, m / 2, batches)
  }

  /** Everything known of a root reached by inserting these batches. */
  ghost predicate Represents(c: Codec, log: Bytes, kind: nat, root: Root, batches: seq<seq<Record>>) {
    && |root.levels| == LEVELS && root.next == |batches|
    && Counts(c, log, kind, root.levels, 1, |batches|, batches)
  }

  lemma Halve(m: nat, size: nat)
    ensures m % 2 == 1 ==> (m / 2) * (2 * size) == m * size - size && (m / 2 + 1) * (2 * size) == m * size + size
    ensures m % 2 == 0 ==> (m / 2) * (2 * size) == m * size
    ensures m > 0 ==> size <= m * size
  {
    var q := m / 2;
    assert m == 2 * q + m % 2;
    assert (2 * q + m % 2) * size == q * (2 * size) + (m % 2) * size;
    assert (q + 1) * (2 * size) == q * (2 * size) + 2 * size;
    if m > 0 {
      assert m * size == (m - 1) * size + size;
    }
  }

  lemma CoversLater(c: Codec, log: Bytes, longer: Bytes, kind: nat, r: SegmentRef, some: seq<seq<Record>>)
    requires log <= longer && Covers(c, log, kind, r, some)
    ensures Covers(c, longer, kind, r, some)
  {
    hide ReadSegment;
    ReadStable(c, log, longer, kind, r);
  }

  /** Later pages and later batches change nothing below. */
  lemma {:induction false} CountsLater(c: Codec, log: Bytes, longer: Bytes, kind: nat, levels: seq<Option<SegmentRef>>, size: nat, m: nat,
                                       batches: seq<seq<Record>>, more: seq<seq<Record>>)
    requires Counts(c, log, kind, levels, size, m, batches) && log <= longer && batches <= more
    ensures Counts(c, longer, kind, levels, size, m, more)
    decreases |levels|
  {
    hide Covers;
    if |levels| > 0 {
      if m % 2 == 1 {
        assert batches[m * size - size..m * size] == more[m * size - size..m * size];
        CoversLater(c, log, longer, kind, levels[0].value, batches[m * size - size..m * size]);
      }
      CountsLater(c, log, longer, kind, levels[1..], 2 * size, m / 2, batches, more);
    }
  }

  lemma {:induction false} CountsBound(c: Codec, log: Bytes, kind: nat, levels: seq<Option<SegmentRef>>, size: nat, m: nat, batches: seq<seq<Record>>)
    requires Counts(c, log, kind, levels, size, m, batches)
    ensures m < Pow2(|levels|)
    decreases |levels|
  {
    if |levels| > 0 {
      CountsBound(c, log, kind, levels[1..], 2 * size, m / 2, batches);
    }
  }

  /** One more batch: the counter advances, unless every level is full or a page too large. */
  ghost predicate Advances(c: Codec, log: Bytes, kind: nat, r: Result<Carried, ScratchError>, n: nat, size: nat, m: nat, batches: seq<seq<Record>>) {
    && (r == Err(IndexCapacity) <==> m + 1 == Pow2(n))
    && (r.Err? ==> r == Err(IndexCapacity) || r == Err(PageTooLarge))
    && (r.Ok? ==> |r.value.levels| == n && log <= r.value.log && Counts(c, r.value.log, kind, r.value.levels, size, m + 1, batches))
  }

  /** A free level taken by a segment of the next `size` batches. */
  lemma LevelTaken(c: Codec, log: Bytes, kind: nat, r: SegmentRef, above: seq<Option<SegmentRef>>, size: nat, m: nat, batches: seq<seq<Record>>)
    requires m % 2 == 0 && m * size + size <= |batches|
    requires r.generation == m * size + size && Covers(c, log, kind, r, batches[m * size..m * size + size])
    requires Counts(c, log, kind, above, 2 * size, m / 2, batches)
    ensures Counts(c, log, kind, [Some(r)] + above, size, m + 1, batches)
  {
    hide Covers;
    assert (m + 1) * size == m * size + size;
    assert ([Some(r)] + above)[1..] == above;
    assert (m + 1) / 2 == m / 2;
  }

  lemma PlacedCovers(c: Codec, log: Bytes, s: Segment, some: seq<seq<Record>>)
    requires Faithful(c) && ValidSegment(s) && |c.encode(PageOf(s))| <= MAX_PAGE_BYTES && RecMap(s.entries) == Fold(some)
    ensures Covers(c, log + c.encode(PageOf(s)), s.kind, RefOf(c, s, |log|), some)
  {
    hide ReadSegment, Fold, RecMap, Ascending;
    ReadsBack(c, log, s);
  }

  lemma Placed(c: Codec, log: Bytes, kind: nat, levels: seq<Option<SegmentRef>>, merged: seq<Record>, size: nat, m: nat, batches: seq<seq<Record>>)
    requires Faithful(c) && Counts(c, log, kind, levels, size, m, batches) && |levels| > 0 && m % 2 == 0 && size > 0
    requires Ascending(merged) && |merged| > 0
    requires m * size + size <= |batches| && RecMap(merged) == Fold(batches[m * size..m * size + size])
    ensures Advances(c, log, kind, Place(c, log, kind, levels[1..], Segment(SCHEMA_VERSION, kind, m * size + size, merged)), |levels|, size, m, batches)
  {
    hide Covers, Fold, RecMap, Ascending, PageOf;
    var s := Segment(SCHEMA_VERSION, kind, m * size + size, merged);
    CountsBound(c, log, kind, levels, size, m, batches);
    if |c.encode(PageOf(s))| <= MAX_PAGE_BYTES {
      var longer := log + c.encode(PageOf(s));
      PlacedCovers(c, log, s, batches[m * size..m * size + size]);
      CountsLater(c, log, longer, kind, levels[1..], 2 * size, m / 2, batches, batches);
      LevelTaken(c, longer, kind, RefOf(c, s, |log|), levels[1..], size, m, batches);
    }
  }

  lemma FreedAdvances(c: Codec, log: Bytes, kind: nat, r: Result<Carried, ScratchError>, n: nat, size: nat, m: nat, batches: seq<seq<Record>>)
    requires m % 2 == 1 && Advances(c, log, kind, r, n, 2 * size, m / 2, batches)
    ensures Advances(c, log, kind, Freed(r), n + 1, size, m, batches)
  {
    hide Covers;
    assert (m + 1) / 2 == m / 2 + 1;
    if r.Ok? {
      assert ([None] + r.value.levels)[1..] == r.value.levels;
    }
  }

  lemma MergedCovers(c: Codec, log: Bytes, kind: nat, r: SegmentRef, merged: seq<Record>, lo: nat, mid: nat, hi: nat, batches: seq<seq<Record>>)
    requires lo <= mid <= hi <= |batches| && Covers(c, log, kind, r, batches[lo..mid])
    requires Ascending(merged) && |merged| > 0 && RecMap(merged) == Fold(batches[mid..hi])
    ensures var es := OrInsertAll(merged, ReadSegment(c, log, kind, r).value.entries);
      Ascending(es) && |es| > 0 && RecMap(es) == Fold(batches[lo..hi])
  {
    hide ReadPage, Less, Ascending;
    OrInsertAllSpec(merged, ReadSegment(c, log, kind, r).value.entries);
    FoldSplit(batches[lo..hi], mid - lo);
    assert batches[lo..hi][..mid - lo] == batches[lo..mid] && batches[lo..hi][mid - lo..] == batches[mid..hi];
  }

  lemma {:induction false} CarryAdvances(c: Codec, log: Bytes, kind: nat, levels: seq<Option<SegmentRef>>, merged: seq<Record>, size: nat, m: nat, batches: seq<seq<Record>>)
    requires Faithful(c) && Counts(c, log, kind, levels, size, m, batches) && size > 0
    requires Ascending(merged) && |merged| > 0
    requires m * size + size <= |batches| && RecMap(merged) == Fold(batches[m * size..m * size + size])
    ensures Advances(c, log, kind, Carry(c, log, kind, levels, merged, m * size + size), |levels|, size, m, batches)
    decreases |levels|
  {
    hide Covers, Fold, Less, Ascending, Place, Freed, OrInsertAll, RecMap;
    if |levels| > 0 && m % 2 == 0 {
      Placed(c, log, kind, levels, merged, size, m, batches);
    } else if |levels| > 0 {
      Halve(m, size);
      var r := levels[0].value;
      assert ReadSegment(c, log, kind, r).Ok? by {
        CoversReads(c, log, kind, r, batches[m * size - size..m * size]);
      }
      MergedCovers(c, log, kind, r, merged, m * size - size, m * size, m * size + size, batches);
      var es := OrInsertAll(merged, ReadSegment(c, log, kind, r).value.entries);
      CarryAdvances(c, log, kind, levels[1..], es, 2 * size, m / 2, batches);
      FreedAdvances(c, log, kind, Carry(c, log, kind, levels[1..], es, m * size + size), |levels| - 1, size, m, batches);
    }
  }

  lemma CoversReads(c: Codec, log: Bytes, kind: nat, r: SegmentRef, some: seq<seq<Record>>)
    requires Covers(c, log, kind, r, some)
    ensures ReadSegment(c, log, kind, r).Ok?
  {
  }

  /** Bit `i` of `n`. */
  predicate Bit(n: nat, i: nat)
    decreases i
  {
    if i == 0 then n % 2 == 1 else Bit(n / 2, i - 1)
  }

  /** `n` with its `i` low bits cleared. */
  function Round(n: nat, i: nat): (r: nat)
    ensures r <= n
    decreases i
  {
    if i == 0 then n else 2 * Round(n / 2, i - 1)
  }

  /** One level of a counting index: its bit, its generation, and the batches it covers. */
  lemma {:induction false} LevelIs(c: Codec, log: Bytes, kind: nat, levels: seq<Option<SegmentRef>>, size: nat, m: nat, batches: seq<seq<Record>>, i: nat)
    requires Counts(c, log, kind, levels, size, m, batches) && i < |levels| && size > 0
    ensures levels[i].Some? <==> Bit(m, i)
    ensures levels[i].Some? ==>
      var g := Round(m, i) * size;
      && Pow2(i) * size <= g <= |batches| && levels[i].value.generation == g
      && Covers(c, log, kind, levels[i].value, batches[g - Pow2(i) * size..g])
    decreases |levels|
  {
    hide Covers;
    if i > 0 {
      LevelIs(c, log, kind, levels[1..], 2 * size, m / 2, batches, i - 1);
      Doubled(Pow2(i - 1), size);
      Doubled(Round(m / 2, i - 1), size);
    }
  }

  lemma Doubled(a: nat, b: nat)
    ensures a * (2 * b) == 2 * a * b
  {
  }

  lemma CoversCount(c: Codec, log: Bytes, kind: nat, r: SegmentRef, some: seq<seq<Record>>)
    requires Covers(c, log, kind, r, some)
    ensures r.count > 0
  {
    hide ReadPage, Ascending;
  }

  lemma RepresentedIsValid(c: Codec, log: Bytes, kind: nat, root: Root, batches: seq<seq<Record>>)
    requires Represents(c, log, kind, root, batches)
    ensures ValidRoot(root) && |batches| < Pow2(LEVELS)
  {
    hide Covers, Pow2;
    CountsBound(c, log, kind, root.levels, 1, |batches|, batches);
    forall l | l in root.levels && l.Some? ensures 0 < l.value.generation <= root.next && l.value.count != 0 {
      var i :| 0 <= i < |root.levels| && root.levels[i] == l;
      LevelIs(c, log, kind, root.levels, 1, |batches|, batches, i);
      var g := Round(|batches|, i) * 1;
      CoversCount(c, log, kind, l.value, batches[g - Pow2(i) * 1..g]);
    }
  }

  /** The newest levels are the lowest: generations strictly fall as levels rise. */
  lemma GenerationsFall(c: Codec, log: Bytes, kind: nat, root: Root, batches: seq<seq<Record>>, i: nat, j: nat)
    requires Represents(c, log, kind, root, batches) && i < j < LEVELS
    requires root.levels[i].Some? && root.levels[j].Some?
    ensures root.levels[i].value.generation > root.levels[j].value.generation
  {
    hide Covers, Counts;
    LevelIs(c, log, kind, root.levels, 1, |batches|, batches, i);
    LevelIs(c, log, kind, root.levels, 1, |batches|, batches, j);
    RoundsFall(|batches|, i, j);
  }

  /** Rounding down to a set bit leaves more than rounding down to any higher one. */
  lemma RoundsFall(n: nat, i: nat, j: nat)
    requires i < j && Bit(n, i)
    ensures Round(n, i) > Round(n, j)
    decreases i
  {
    if i > 0 {
      RoundsFall(n / 2, i - 1, j - 1);
    }
  }

  lemma Pow2Splits(i: nat, k: nat)
    ensures Pow2(i + k) == Pow2(k) * Pow2(i)
  {
    if k > 0 {
      Pow2Splits(i, k - 1);
    }
  }

  lemma EmptyRepresents(c: Codec, kind: nat)
    ensures Represents(c, [], kind, EMPTY_ROOT, [])
  {
    EmptyCounts(c, kind, LEVELS, 1);
  }

  lemma {:induction false} EmptyCounts(c: Codec, kind: nat, n: nat, size: nat)
    ensures Counts(c, [], kind, EmptyLevels(n), size, 0, [])
    decreases n
  {
    if n > 0 {
      EmptyCounts(c, kind, n - 1, 2 * size);
      assert EmptyLevels(n)[1..] == EmptyLevels(n - 1);
    }
  }

  /**
   Inserting a batch into a root that represents some batches represents one more;
   it fails only for a page that is too large, or as the 2^32nd batch.
   */
  lemma InsertRepresents(c: Codec, log: Bytes, kind: nat, root: Root, batches: seq<seq<Record>>, records: seq<Record>)
    requires Faithful(c) && Represents(c, log, kind, root, batches)
    requires Ascending(records) && |records| > 0
    ensures var r := InsertMany(c, log, kind, root, records);
      && (r == Err(IndexCapacity) <==> |batches| + 1 == Pow2(LEVELS))
      && (r.Err? ==> r == Err(IndexCapacity) || r == Err(PageTooLarge))
      && (r.Ok? ==> log <= r.value.log && Represents(c, r.value.log, kind, r.value.root, batches + [records]))
  {
    hide Counts, Carry, Ascending, Pow2;
    RepresentedIsValid(c, log, kind, root, batches);
    GenerationsSuffice();
    var n, more := |batches|, batches + [records];
    CountsLater(c, log, log, kind, root.levels, 1, n, batches, more);
    OneBatch(batches, records);
    CarryAdvances(c, log, kind, root.levels, records, 1, n, more);
  }

  /**
   The segment that the last of these batches causes to be written: with `t` trailing
   one-bits in the count of those before it, it takes the generation of the last batch and
   holds, in key order, what the last `2^t` batches amount to.
   */
  ghost predicate Due(kind: nat, batches: seq<seq<Record>>, s: Segment) {
    && |batches| > 0 && Pow2(TrailingOnes(|batches| - 1)) <= |batches|
    && s.version == SCHEMA_VERSION && s.kind == kind && s.generation == |batches|
    && s.entries != [] && Ascending(s.entries)
    && RecMap(s.entries) == Fold(batches[|batches| - Pow2(TrailingOnes(|batches| - 1))..])
  }

  lemma TrailingFits(n: nat)
    ensures Pow2(TrailingOnes(n)) <= n + 1
  {
  }

  lemma DueIsUnique(kind: nat, batches: seq<seq<Record>>, s: Segment, other: Segment)
    requires Due(kind, batches, s) && Due(kind, batches, other)
    ensures s == other
  {
    hide Fold, RecMap, Ascending;
    AscendingUnique(s.entries, other.entries);
  }

  lemma {:induction false} Flattened(batches: seq<seq<Record>>) returns (es: seq<Record>)
    requires |batches| > 0 && forall b :: b in batches ==> Ascending(b) && |b| > 0
    ensures Ascending(es) && |es| > 0 && RecMap(es) == Fold(batches)
    decreases |batches|
  {
    hide Ascending, Less;
    var n := |batches| - 1;
    if n == 0 {
      es := batches[n];
      assert Fold(batches[..0]) == map[];
    } else {
      es := Flattened(batches[..n]);
      OrInsertAllSpec(batches[n], es);
      es := OrInsertAll(batches[n], es);
    }
  }

  /** There is such a segment after any batches. */
  lemma DueExists(kind: nat, batches: seq<seq<Record>>) returns (s: Segment)
    requires |batches| > 0 && forall b :: b in batches ==> Ascending(b) && |b| > 0
    ensures Due(kind, batches, s)
  {
    hide Ascending, Fold, RecMap;
    TrailingFits(|batches| - 1);
    var es := Flattened(batches[|batches| - Pow2(TrailingOnes(|batches| - 1))..]);
    s := Segment(SCHEMA_VERSION, kind, |batches|, es);
  }

  /** What a carry writes: the merged records of this segment and of all the full levels below the free one. */
  lemma {:induction false} CarryWrites(c: Codec, log: Bytes, kind: nat, levels: seq<Option<SegmentRef>>, merged: seq<Record>, size: nat, m: nat, batches: seq<seq<Record>>)
    returns (es: seq<Record>)
    requires Counts(c, log, kind, levels, size, m, batches) && size > 0 && m + 1 != Pow2(|levels|)
    requires Ascending(merged) && |merged| > 0
    requires m * size + size <= |batches| && RecMap(merged) == Fold(batches[m * size..m * size + size])
    ensures var hi, wide := m * size + size, Pow2(TrailingOnes(m)) * size;
      wide <= hi && Ascending(es) && |es| > 0 && RecMap(es) == Fold(batches[hi - wide..hi])
    ensures var page := c.encode(PageOf(Segment(SCHEMA_VERSION, kind, m * size + size, es)));
      var r := Carry(c, log, kind, levels, merged, m * size + size);
      if |page| > 268435456 then r == Err(PageTooLarge) else r.Ok? && r.value.log == log + page
    decreases |levels|
  {
    hide Covers, Fold, Less, Ascending, Freed, OrInsertAll, RecMap, PageOf;
    CountsBound(c, log, kind, levels, size, m, batches);
    if m % 2 == 0 {
      es := merged;
      PlaceWrites(c, log, kind, levels, Segment(SCHEMA_VERSION, kind, m * size + size, merged));
    } else {
      Halve(m, size);
      var r := levels[0].value;
      CoversReads(c, log, kind, r, batches[m * size - size..m * size]);
      MergedCovers(c, log, kind, r, merged, m * size - size, m * size, m * size + size, batches);
      var more := OrInsertAll(merged, ReadSegment(c, log, kind, r).value.entries);
      es := CarryWrites(c, log, kind, levels[1..], more, 2 * size, m / 2, batches);
      Doubled(Pow2(TrailingOnes(m / 2)), size);
      FreedWrites(Carry(c, log, kind, levels[1..], more, m * size + size));
    }
  }

  lemma PlaceWrites(c: Codec, log: Bytes, kind: nat, levels: seq<Option<SegmentRef>>, s: Segment)
    requires |levels| > 0 && levels[0].None? && ValidSegment(s)
    ensures var page := c.encode(PageOf(s));
      var r := Carry(c, log, kind, levels, s.entries, s.generation);
      s.kind == kind ==> if |page| > 268435456 then r == Err(PageTooLarge) else r.Ok? && r.value.log == log + page
  {
    hide Ascending;
  }

  lemma FreedWrites(r: Result<Carried, ScratchError>)
    ensures Freed(r).Err? <==> r.Err?
    ensures r.Err? ==> Freed(r) == r
    ensures r.Ok? ==> Freed(r).value.log == r.value.log
  {
  }

  /**
   An insertion is refused as too large exactly when it is not the 2^32nd and the page of
   the segment it has to write takes more than 256 MiB; otherwise that page is all it writes.
   */
  lemma InsertWrites(c: Codec, log: Bytes, kind: nat, root: Root, batches: seq<seq<Record>>, records: seq<Record>, s: Segment)
    requires Faithful(c) && Represents(c, log, kind, root, batches)
    requires Ascending(records) && |records| > 0 && Due(kind, batches + [records], s)
    ensures var r := InsertMany(c, log, kind, root, records);
      && (r == Err(PageTooLarge) <==> |batches| + 1 != Pow2(LEVELS) && |c.encode(PageOf(s))| > 268435456)
      && (r.Ok? ==> r.value.log == log + c.encode(PageOf(s)))
  {
    hide Counts, Carry, Ascending, Pow2, Fold, RecMap, PageOf;
    RepresentedIsValid(c, log, kind, root, batches);
    GenerationsSuffice();
    InsertRepresents(c, log, kind, root, batches, records);
    var n, more := |batches|, batches + [records];
    if n + 1 != Pow2(LEVELS) {
      CountsLater(c, log, log, kind, root.levels, 1, n, batches, more);
      OneBatch(batches, records);
      var es := CarryWrites(c, log, kind, root.levels, records, 1, n, more);
      assert more[n * 1 + 1 - Pow2(TrailingOnes(n)) * 1..n * 1 + 1] == more[|more| - Pow2(TrailingOnes(n))..];
      DueIsUnique(kind, more, s, Segment(SCHEMA_VERSION, kind, n + 1, es));
    }
  }

  lemma GenerationsSuffice()
    ensures Pow2(LEVELS) < GENERATIONS
  {
    Pow2Byte();
    Pow2Splits(8, 8);
    Pow2Splits(16, 16);
  }

  lemma OneBatch(batches: seq<seq<Record>>, records: seq<Record>)
    ensures var n, more := |batches|, batches + [records]; n * 1 + 1 <= |more| && RecMap(records) == Fold(more[n * 1..n * 1 + 1])
  {
    var n, more := |batches|, batches + [records];
    assert more[n * 1..n * 1 + 1] == [records];
    assert [records][..0] == [];
    assert Fold([records]) == Fold([records][..0]) + RecMap(records);
  }

  /** A run of insertions from the empty root and the empty log. */
  function InsertAll(c: Codec, kind: nat, batches: seq<seq<Record>>): Result<Inserted, ScratchError>
    decreases |batches|
  {
    if |batches| == 0 then Ok(Inserted(EMPTY_ROOT, []))
    else match InsertAll(c, kind, batches[..|batches| - 1])
      case Err(e) => Err(e)
      case Ok(x) => InsertMany(c, x.log, kind, x.root, batches[|batches| - 1])
  }

  /** Every reachable root represents its batches; the capacity error comes with the 2^32nd insertion, never before. */
  lemma {:induction false} InsertAllRepresents(c: Codec, kind: nat, batches: seq<seq<Record>>)
    requires Faithful(c) && forall b :: b in batches ==> Ascending(b) && |b| > 0
    ensures var r := InsertAll(c, kind, batches);
      && (r.Ok? ==> Represents(c, r.value.log, kind, r.value.root, batches) && |batches| < Pow2(LEVELS))
      && (r.Err? ==> r == Err(PageTooLarge) || (r == Err(IndexCapacity) && |batches| >= Pow2(LEVELS)))
    decreases |batches|
  {
    hide InsertMany, Represents, Ascending, Pow2;
    if |batches| == 0 {
      EmptyRepresents(c, kind);
      assert 0 < Pow2(LEVELS);
    } else {
      var before, last := batches[..|batches| - 1], batches[|batches| - 1];
      assert batches == before + [last];
      InsertAllRepresents(c, kind, before);
      var r := InsertAll(c, kind, before);
      if r.Ok? {
        InsertRepresents(c, r.value.log, kind, r.value.root, before, last);
        var s := InsertMany(c, r.value.log, kind, r.value.root, last);
        if s.Ok? {
          RepresentedIsValid(c, s.value.log, kind, s.value.root, batches);
        }
      }
    }
  }

  /** Every page a run has to write is within 256 MiB. */
  ghost predicate PagesFit(c: Codec, kind: nat, batches: seq<seq<Record>>) {
    forall n, s :: 0 < n <= |batches| && Due(kind, batches[..n], s) ==> |c.encode(PageOf(s))| <= 268435456
  }

  /** A run succeeds exactly when it has fewer than 2^32 batches and every page it has to write fits. */
  lemma {:induction false} InsertAllSucceeds(c: Codec, kind: nat, batches: seq<seq<Record>>)
    requires Faithful(c) && forall b :: b in batches ==> Ascending(b) && |b| > 0
    ensures InsertAll(c, kind, batches).Ok? <==> |batches| < Pow2(LEVELS) && PagesFit(c, kind, batches)
    decreases |batches|
  {
    hide InsertMany, Represents, Ascending, Pow2, Due, PageOf;
    if |batches| == 0 {
      assert 0 < Pow2(LEVELS);
    } else {
      var before, last := batches[..|batches| - 1], batches[|batches| - 1];
      assert batches == before + [last];
      InsertAllSucceeds(c, kind, before);
      InsertAllRepresents(c, kind, before);
      var s := DueExists(kind, batches);
      FitsOnceMore(c, kind, before, last, s);
      var r := InsertAll(c, kind, before);
      if r.Ok? {
        InsertRepresents(c, r.value.log, kind, r.value.root, before, last);
        InsertWrites(c, r.value.log, kind, r.value.root, before, last, s);
      }
    }
  }

  lemma FitsOnceMore(c: Codec, kind: nat, before: seq<seq<Record>>, last: seq<Record>, s: Segment)
    requires Due(kind, before + [last], s)
    ensures PagesFit(c, kind, before + [last]) <==> PagesFit(c, kind, before) && |c.encode(PageOf(s))| <= 268435456
  {
    hide PageOf, Fold, RecMap, Ascending, Pow2, TrailingOnes;
    var batches := before + [last];
    assert batches[..|batches|] == batches;
    forall n | 0 < n <= |before| ensures batches[..n] == before[..n] {
    }
    if PagesFit(c, kind, before) && |c.encode(PageOf(s))| <= 268435456 {
      forall n, z | 0 < n <= |batches| && Due(kind, batches[..n], z) ensures |c.encode(PageOf(z))| <= 268435456 {
        if n == |batches| {
          DueIsUnique(kind, batches, s, z);
        } else {
          assert Due(kind, before[..n], z);
        }
      }
    }
  }

  // ----- how much merging a run of inserts does -----

  /** Segments an insertion reads: the full levels below the first free one. */
  function CarryReads(levels: seq<Option<SegmentRef>>): nat {
    if |levels| == 0 || levels[0].None? then 0 else 1 + CarryReads(levels[1..])
  }

  function Ones(n: nat): nat {
    if n == 0 then 0 else n % 2 + Ones(n / 2)
  }

  /** Trailing one-bits, of a number that has a zero bit. */
  function TrailingOnes(n: nat): nat {
    if n % 2 == 0 then 0 else 1 + TrailingOnes(n / 2)
  }

  /** Segments read by the first `n` insertions. */
  function TotalReads(n: nat): nat {
    if n == 0 then 0 else TotalReads(n - 1) + TrailingOnes(n - 1)
  }

  lemma {:induction false} ReadsAreTrailingOnes(c: Codec, log: Bytes, kind: nat, levels: seq<Option<SegmentRef>>, size: nat, m: nat, batches: seq<seq<Record>>)
    requires Counts(c, log, kind, levels, size, m, batches) && m + 1 != Pow2(|levels|)
    ensures CarryReads(levels) == TrailingOnes(m)
    decreases |levels|
  {
    if |levels| > 0 && m % 2 == 1 {
      ReadsAreTrailingOnes(c, log, kind, levels[1..], 2 * size, m / 2, batches);
    }
  }

  lemma {:induction false} OnesAfterCarry(n: nat)
    ensures Ones(n + 1) + TrailingOnes(n) == Ones(n) + 1
  {
    if n % 2 == 1 {
      OnesAfterCarry(n / 2);
      assert (n + 1) / 2 == n / 2 + 1 && (n + 1) % 2 == 0;
    } else {
      assert (n + 1) / 2 == n / 2 && (n + 1) % 2 == 1;
    }
  }

  /** Segments read by all insertions of a run. */
  function RunReads(c: Codec, kind: nat, batches: seq<seq<Record>>): nat
    decreases |batches|
  {
    if |batches| == 0 then 0
    else
      var n := |batches| - 1;
      var before := InsertAll(c, kind, batches[..n]);
      RunReads(c, kind, batches[..n]) + if before.Ok? then CarryReads(before.value.root.levels) else 0
  }

  /** A run of `n` insertions has read `n` minus its one-bits segments. */
  lemma {:induction false} RunReadsAre(c: Codec, kind: nat, batches: seq<seq<Record>>)
    requires Faithful(c) && forall b :: b in batches ==> Ascending(b) && |b| > 0
    requires InsertAll(c, kind, batches).Ok?
    ensures RunReads(c, kind, batches) + Ones(|batches|) == |batches|
  {
    ReadsAreSummed(c, kind, batches);
    ReadsAreAmortised(|batches|);
  }

  lemma {:induction false} ReadsAreSummed(c: Codec, kind: nat, batches: seq<seq<Record>>)
    requires Faithful(c) && forall b :: b in batches ==> Ascending(b) && |b| > 0
    requires InsertAll(c, kind, batches).Ok?
    ensures RunReads(c, kind, batches) == TotalReads(|batches|)
    decreases |batches|
  {
    hide InsertMany, Ascending, Pow2, Counts, CarryReads, TrailingOnes, Ones;
    if |batches| > 0 {
      var n := |batches| - 1;
      var before := batches[..n];
      assert batches == before + [batches[n]];
      ReadsAreSummed(c, kind, before);
      InsertAllRepresents(c, kind, before);
      InsertAllRepresents(c, kind, batches);
      var x := InsertAll(c, kind, before).value;
      assert Represents(c, x.log, kind, x.root, before);
      ReadsAreTrailingOnes(c, x.log, kind, x.root.levels, 1, n, before);
    }
  }

  /** After `n` insertions, `n` minus its one-bits segments have been read: each carry merges a segment away. */
  lemma {:induction false} ReadsAreAmortised(n: nat)
    ensures TotalReads(n) + Ones(n) == n
  {
    if n > 0 {
      ReadsAreAmortised(n - 1);
      OnesAfterCarry(n - 1);
    }
  }
}
