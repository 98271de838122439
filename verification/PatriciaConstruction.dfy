/**
 A construction session: mutations staged in memory, flushed when the budget
 asks for it, over a store that may refuse any single publication.

 The ghost parameter `promised` of the methods collects the roots that the caller was
 ever told to rely on; `Valid` says that they are on disk, or still held and readable.
 `Drive` runs any sequence of requests and keeps the whole history of roots readable.
 */
module PatriciaConstruction {
  import opened Wrappers
  import opened BitStrings
  import opened KeyBits
  import KeyOrder
  import opened ContentAddress
  import opened PatriciaTree
  import opened PatriciaPoint
  import opened PatriciaBulk
  import opened PatriciaNodes
  import opened PatriciaInsert
  import opened PatriciaRemove
  import opened PatriciaVisit
  import opened PatriciaSink
  import opened PatriciaPublication

  function RemoveEach(i: Index, keys: seq<Bytes>): Outcome<Index>
    decreases |keys|
  {
    if |keys| == 0 then Ok(i)
    else if !ValidByteKey(keys[0]) then Err(Malformed)
    else match IndexRemove(i, ToBits(keys[0]))
      case Ok(j) => RemoveEach(j, keys[1..])
      case Err(e) => Err(e)
  }

  predicate StrictlySorted(keys: seq<Bytes>) {
    forall n :: 0 <= n < |keys| - 1 ==> Less(keys[n], keys[n + 1])
  }

  function RemoveSorted(i: Index, keys: seq<Bytes>): Outcome<Index> {
    if StrictlySorted(keys) then RemoveEach(i, keys) else Err(Malformed)
  }

  /** The bit strings of some keys. */
  ghost function BitKeys(keys: seq<Bytes>): set<Bits> {
    set n | 0 <= n < |keys| :: ToBits(keys[n])
  }

  /** The key at `n` cannot be removed once those before it are gone. */
  ghost predicate StopsAt(m: map<Bits, Value>, keys: seq<Bytes>, n: nat)
    requires n < |keys|
  {
    !ValidByteKey(keys[n]) || MissesFork(m - BitKeys(keys[..n]), ToBits(keys[n]))
  }

  /** The key is absent, and stored keys extend it on both sides. */
  ghost predicate MissesFork(m: map<Bits, Value>, key: Bits) {
    key !in m && ForksAt(m, key)
  }

  /**
   What a mutation returns when the tree operation gives `o`: its root, or a refusal if
   there is none. Anything else needs an excuse, a failed publication or a refusal by the budget.
   */
  ghost predicate Answers(c: Codec, z: Source, r: Result<Digest, Failure>, o: Outcome<Index>, excused: bool) {
    && (r.Ok? ==> o.Ok? && r.value == RootDigest(c, o.value) && FitIndex(c, o.value) && IndexReadable(c, z, o.value))
    && (r == Err(Refused) ==> o.Err?)
    && (r.Err? && r != Err(Refused) ==> excused)
  }

  /** All entries are in play. */
  ghost predicate Plays(c: Codec, es: Entries) {
    forall e :: e in es ==> c.plays(Record(ToBits(e.key), e.value))
  }

  ghost predicate AllTop(c: Codec, s: Source, roots: set<Digest>) {
    forall d :: d in roots ==> Tops(c, s, d)
  }

  /** Each promised root is stored, or is among the roots the next flush will store. */
  ghost predicate Secured(c: Codec, s: Source, promised: set<Digest>, roots: set<Digest>) {
    forall d :: d in promised ==> d in roots || Saved(c, s, d)
  }

  /**
   What a construction holds: nodes below checkpointed and live roots are readable, promised
   roots are stored or checkpointed, and roots declared live are stored, checkpointed or live.
   */
  ghost predicate Holding(c: Codec, s: Source, checkpoints: set<Digest>, lives: set<Digest>, promised: set<Digest>, alive: set<Digest>) {
    && AllTop(c, s, checkpoints + lives)
    && Secured(c, s, promised, checkpoints) && Secured(c, s, alive, checkpoints + lives)
  }

  /** After nodes moved to disk, whatever was held still is. */
  lemma AfterPublishing(c: Codec, s: Source, z: Source, checkpoints: set<Digest>, lives: set<Digest>, promised: set<Digest>, alive: set<Digest>, root: Digest)
    requires Faithful(c) && Sound(c, s) && Advances(c, s, z)
    requires Holding(c, s, checkpoints, lives, promised, alive) && Held(c, s, root)
    ensures Holding(c, z, checkpoints, lives, promised, alive) && Held(c, z, root)
  {
    hide Tops, Saved, Advances, Keeps;
    SoundIntact(c, s);
    AdvancesKeeps(c, s, z);
    HeldKept(c, s, z, root);
    forall d | d in checkpoints + lives ensures Tops(c, z, d) {
      TopsKept(c, s, z, d);
    }
    SecuredGrows(c, s, z, promised, checkpoints);
    SecuredGrows(c, s, z, alive, checkpoints + lives);
  }

  lemma SecuredGrows(c: Codec, s: Source, z: Source, promised: set<Digest>, roots: set<Digest>)
    requires Faithful(c) && Intact(c, s) && Advances(c, s, z) && Secured(c, s, promised, roots)
    ensures Secured(c, z, promised, roots)
  {
    hide Saved, Advances, Intact;
    forall d | d in promised && d !in roots ensures Saved(c, z, d) {
      SavedGrows(c, s, z, d);
    }
  }

  /** Everything readable under the root of `i` stays readable while its digest is held. */
  ghost predicate Held(c: Codec, s: Source, d: Digest) {
    d == EmptyRoot(c) || Tops(c, s, d)
  }

  lemma HeldIsReadable(c: Codec, s: Source, i: Index)
    requires Faithful(c) && FitIndex(c, i)
    ensures Held(c, s, RootDigest(c, i)) <==> IndexReadable(c, s, i)
  {
    hide Readable;
    if i.Root? {
      NodeIsOwn(c, i.tree);
      if Tops(c, s, RootDigest(c, i)) {
        var t :| Fit(c, t) && TreeDigest(c, t) == RootDigest(c, i) && Readable(c, s, t);
        TreeDigestInjective(c, t, i.tree);
      }
    }
  }

  lemma HeldKept(c: Codec, s: Source, z: Source, d: Digest)
    requires Keeps(c, s, z) && Held(c, s, d)
    ensures Held(c, z, d)
  {
  }

  lemma SavedTops(c: Codec, s: Source, d: Digest)
    requires Faithful(c) && Authentic(c, s) && Saved(c, s, d)
    ensures Tops(c, s, d)
  {
    var t :| Fit(c, t) && TreeDigest(c, t) == d && Persisted(c, s, t);
    PersistedReadable(c, s, t);
  }

  /** Staging more keeps the store sound and every tree readable. */
  lemma StagingSound(c: Codec, s: Source, staged: map<Digest, Node>)
    requires Faithful(c) && Sound(c, s)
    requires Grown(c, s.staged, staged) && Authentic(c, WithStaged(s, staged))
    ensures Sound(c, WithStaged(s, staged)) && Keeps(c, s, WithStaged(s, staged))
  {
    hide Saved, Readable, Tops;
    var z := WithStaged(s, staged);
    forall d | d in z.loose || d in z.packed ensures Saved(c, z, d) {
      assert Saved(c, s, d);
      SavedWider(c, s, z, d);
    }
    forall t | Fit(c, t) && Readable(c, s, t) ensures Readable(c, z, t) {
      ReadableGrows(c, s, staged, t);
    }
  }

  /** With every staged node gone, what is stored remains. */
  lemma ClearedSound(c: Codec, s: Source, d: Digest)
    requires Faithful(c) && Sound(c, s)
    ensures Sound(c, WithStaged(s, map[]))
    ensures Saved(c, s, d) ==> Tops(c, WithStaged(s, map[]), d)
  {
    hide Saved, Tops, Readable;
    var z := WithStaged(s, map[]);
    forall e | e in z.loose || e in z.packed ensures Saved(c, z, e) {
      assert Saved(c, s, e);
      SavedWider(c, s, z, e);
    }
    if Saved(c, s, d) {
      SavedWider(c, s, z, d);
      SavedTops(c, z, d);
    }
  }

  /** When everything held has been saved, the staged nodes can go. */
  lemma AfterClearing(c: Codec, s: Source, z: Source, roots: seq<Digest>, checkpoints: set<Digest>, lives: set<Digest>,
                      promised: set<Digest>, alive: set<Digest>, root: Digest)
    requires Faithful(c) && Sound(c, z) && AllSaved(c, s, z, roots)
    requires Holding(c, s, checkpoints, lives, promised, alive) && Holding(c, z, checkpoints, lives, promised, alive) && Held(c, s, root)
    requires root in roots && forall d :: d in checkpoints + lives ==> d in roots
    ensures var y := WithStaged(z, map[]); Sound(c, y) && Holding(c, y, {}, {}, promised, alive) && Held(c, y, root)
  {
    hide Tops, Saved;
    ClearedSound(c, z, root);
    forall d | d in promised + alive ensures Saved(c, WithStaged(z, map[]), d) {
      SavedWider(c, z, WithStaged(z, map[]), d);
    }
  }

  /** Staging more nodes disturbs nothing that was held. */
  lemma AfterStaging(c: Codec, s: Source, staged: map<Digest, Node>, checkpoints: set<Digest>, lives: set<Digest>, promised: set<Digest>, alive: set<Digest>)
    requires Faithful(c) && Sound(c, s) && Holding(c, s, checkpoints, lives, promised, alive)
    requires Grown(c, s.staged, staged) && Authentic(c, WithStaged(s, staged))
    ensures var z := WithStaged(s, staged);
      Sound(c, z) && Holding(c, z, checkpoints, lives, promised, alive)
  {
    hide Tops, Saved, Authentic, Grown, Keeps;
    var z := WithStaged(s, staged);
    StagingSound(c, s, staged);
    forall d | d in checkpoints + lives ensures Tops(c, z, d) {
      TopsKept(c, s, z, d);
    }
    SoundIntact(c, s);
    SoundIntact(c, z);
    forall d | Saved(c, s, d) ensures Saved(c, z, d) {
      SavedWider(c, s, z, d);
    }
  }

  lemma BatchValid(es: Entries)
    requires Ascending(es)
    ensures Sorted(BitRecords(es))
    ensures (forall e :: e in es ==> ValidByteKey(e.key) && ValidValue(e.value)) <==> AllValid(BitRecords(es))
  {
    var rs := BitRecords(es);
    forall i, j | 0 <= i < j < |rs| ensures BitLess(rs[i].key, rs[j].key) {
      LessIsBitLess(es[i].key, es[j].key);
    }
    assert forall i :: 0 <= i < |es| ==> (ValidByteKey(es[i].key) && ValidValue(es[i].value) <==> ValidRecord(rs[i]));
    if forall e :: e in es ==> ValidByteKey(e.key) && ValidValue(e.value) {
      assert forall i :: 0 <= i < |es| ==> es[i] in es;
    }
    if AllValid(rs) {
      assert forall i :: 0 <= i < |rs| ==> rs[i] in rs;
    }
  }

  lemma BatchInPlay(c: Codec, es: Entries)
    requires Ascending(es) && Plays(c, es) && forall e :: e in es ==> ValidByteKey(e.key) && ValidValue(e.value)
    ensures Batch(c, BitRecords(es))
  {
    BatchValid(es);
    var rs := BitRecords(es);
    forall n | 0 <= n < |rs| ensures c.plays(rs[n]) {
      assert es[n] in es;
    }
  }

  /** Merging in bulk and inserting one by one accept the same batches and agree. */
  lemma BulkIsMany(i: Index, rs: Records)
    requires WFIndex(i) && Valid(rs)
    ensures InsertBulk(i, rs).Ok? <==> InsertMany(i, rs).Ok?
    ensures InsertBulk(i, rs).Ok? ==> InsertBulk(i, rs) == InsertMany(i, rs) && WFIndex(InsertBulk(i, rs).value)
  {
    hide InsertEach, InsertBulk, IndexContents, RecordMap;
    InsertEachSpec(i, rs);
    InsertBulkSpec(i, rs);
    Agree(InsertMany(i, rs), InsertBulk(i, rs), i, rs);
  }

  class Construction {
    const files: NodeStore
    const staged: StagedNodes
    const full: Policy
    const permitsPacked: bool
    const budget: Budget
    var checkpointRoots: set<Digest>
    var liveRoots: set<Digest>
    /** The roots last declared live that could be read then. */
    ghost var alive: set<Digest>

    /** `full` tells whether a sink is out of room. */
    constructor (files: NodeStore, permitsPacked: bool, full: Policy, budget: Budget)
      ensures this.files == files && this.budget == budget && fresh(staged) && Now() == Source(files.loose, files.packed, map[])
      ensures checkpointRoots == {} && liveRoots == {} && alive == {}
    {
      this.files, this.permitsPacked, this.full, this.budget := files, permitsPacked, full, budget;
      checkpointRoots, liveRoots, alive := {}, {}, {};
      staged := new StagedNodes();
    }

    function Now(): Source
      reads this, files, staged
    {
      View(files, staged)
    }

    /** How often a publication has failed or the budget refused. */
    function Setbacks(): nat
      reads this, files, budget
    {
      files.faults + budget.refusals
    }

    /** Whether a request may fail: something has gone wrong since. */
    predicate Excused(before: nat)
      reads this, files, budget
    {
      Setbacks() > before
    }

    function Roots(): set<Digest>
      reads this
    {
      checkpointRoots + liveRoots
    }

    /**
     The disk is closed, every node below a checkpointed or live root is staged or stored,
     and so is every node below a promised root, for good, and below a root declared live.
     */
    ghost predicate Valid(c: Codec, promised: set<Digest>)
      reads this, files, staged
    {
      Faithful(c) && Sound(c, Now()) && Holding(c, Now(), checkpointRoots, liveRoots, promised, alive)
    }

    /** Remembers a root until the next flush; a root that is not staged needs no remembering. */
    method Checkpoint(c: Codec, roots: seq<Digest>, ghost promised: set<Digest>)
      requires Valid(c, promised)
      modifies this`checkpointRoots
      ensures checkpointRoots == old(checkpointRoots) + set d | d in roots && d in staged.nodes
      ensures Valid(c, promised + set d | d in roots && Tops(c, Now(), d))
    {
      hide Tops, Saved;
      checkpointRoots := checkpointRoots + set d | d in roots && d in staged.nodes;
      forall d | d in roots && d !in staged.nodes && Tops(c, Now(), d) ensures Saved(c, Now(), d) {
        UnstagedRoot(c, Now(), d);
      }
    }

    /** Replaces the live roots; those that can be read stay readable until the next replacement. */
    method SetLiveRoots(c: Codec, roots: seq<Digest>, ghost promised: set<Digest>)
      requires Valid(c, promised)
      modifies this`liveRoots, this`alive
      ensures liveRoots == set d | d in roots && d in staged.nodes
      ensures Valid(c, promised) && alive == set d | d in roots && Tops(c, Now(), d)
    {
      hide Tops, Saved;
      liveRoots := set d | d in roots && d in staged.nodes;
      alive := set d | d in roots && Tops(c, Now(), d);
      forall d | d in liveRoots ensures Tops(c, Now(), d) {
        SoundIntact(c, Now());
      }
      forall d | d in roots && d !in staged.nodes && Tops(c, Now(), d) ensures Saved(c, Now(), d) {
        UnstagedRoot(c, Now(), d);
      }
    }

    /** Makes room for a mutation of `root`: when the budget is spent, flushes everything held. */
    method PrepareMutation(c: Codec, root: Digest, ghost promised: set<Digest>) returns (r: Option<Failure>)
      requires Valid(c, promised) && Held(c, Now(), root)
      modifies this, files, staged, budget
      ensures alive == old(alive)
      ensures Valid(c, promised) && Held(c, Now(), root) && r != Some(Refused)
      ensures Setbacks() >= old(Setbacks()) && (r.Some? ==> Excused(old(Setbacks())))
    {
      hide Sound, Tops, Saved, Advances, AllSaved, Holding, Held;
      var spent := *;
      if spent && |staged.nodes| > 0 {
        var noted := budget.Allows();
        if !noted {
          return Some(OverBudget);
        }
        var checkpoints := Listed(checkpointRoots);
        var lives := Listed(liveRoots);
        var roots := checkpoints + lives + [root];
        ghost var start := Now();
        var published := PublishRoots(c, files, staged, roots, permitsPacked, full, budget);
        AfterPublishing(c, start, Now(), checkpointRoots, liveRoots, promised, alive, root);
        if published.Err? {
            return Some(published.error);
        }
        ghost var z := Now();
        AfterClearing(c, start, z, roots, checkpointRoots, liveRoots, promised, alive, root);
        staged.nodes := map[];
        assert Now() == WithStaged(z, map[]);
        checkpointRoots, liveRoots := {}, {};
      }
      var fits := budget.Allows();
      return if fits then None else Some(OverBudget);
    }

    /** One record staged below the root of `i`. */
    method InsertOne(c: Codec, root: Digest, key: Bytes, value: Bytes, ghost i: Index, ghost promised: set<Digest>)
      returns (r: Result<Digest, Failure>)
      requires Valid(c, promised) && FitIndex(c, i) && root == RootDigest(c, i) && Held(c, Now(), root)
      requires ValidByteKey(key) && ValidValue(value) && c.plays(Record(ToBits(key), value))
      modifies staged
      ensures Valid(c, promised) && Answers(c, Now(), r, IndexInsert(i, ToBits(key), value), false)
      ensures r.Err? ==> r == Err(Refused)
    {
      hide Sound, Readable, Tops, Saved, Holding, Held, ToBits, WF, Stage, InsertFrom, Authentic, Grown, TreeDigest;
      ghost var s := Now();
      SoundIntact(c, s);
      HeldIsReadable(c, s, i);
      InsertRootIndex(c, s, i, key, value);
      var out;
      if root == EmptyRoot(c) {
        out := staged.StageNode(c, NewLeaf(key, value));
      } else {
        out := InsertAtStaged(c, files.loose, files.packed, root, key, value, staged);
      }
      assert Staging(out, staged.nodes) == InsertRoot(c, s, root, key, value);
      assert Now() == WithStaged(s, staged.nodes);
      AfterStaging(c, s, staged.nodes, checkpointRoots, liveRoots, promised, alive);
      return if out.Ok? then Ok(out.value) else Err(Refused);
    }

    method RemoveOne(c: Codec, root: Digest, key: Bytes, ghost i: Index, ghost promised: set<Digest>)
      returns (r: Result<Digest, Failure>)
      requires Valid(c, promised) && FitIndex(c, i) && root == RootDigest(c, i) && Held(c, Now(), root)
      modifies staged
      ensures Valid(c, promised) && Answers(c, Now(), r, IndexRemove(i, ToBits(key)), false)
      ensures r.Err? ==> r == Err(Refused)
    {
      hide Sound, Readable, Tops, Saved, Holding, Held, ToBits, WF, Stage, RemoveFrom, Authentic, Grown, TreeDigest;
      ghost var s := Now();
      SoundIntact(c, s);
      HeldIsReadable(c, s, i);
      RemoveRootIndex(c, s, i, key);
      IndexRemoveSpec(i, ToBits(key));
      var out := RemoveConstructed(c, files.loose, files.packed, root, key, staged);
      assert Now() == WithStaged(s, staged.nodes);
      GrownReflexive(c, s.staged);
      AfterStaging(c, s, staged.nodes, checkpointRoots, liveRoots, promised, alive);
      return if out.Ok? then Ok(out.value) else Err(Refused);
    }

    /** Inserts one by one, making room before each record. */
    method InsertMany(c: Codec, root: Digest, es: Entries, ghost i: Index, ghost promised: set<Digest>)
      returns (r: Result<Digest, Failure>)
      requires Valid(c, promised) && FitIndex(c, i) && root == RootDigest(c, i) && Held(c, Now(), root)
      requires Ascending(es) && Plays(c, es)
      modifies this, files, staged, budget
      ensures alive == old(alive)
      ensures Valid(c, promised) && Answers(c, Now(), r, PatriciaBulk.InsertMany(i, BitRecords(es)), Excused(old(Setbacks())))
      ensures Setbacks() >= old(Setbacks())
    {
      hide Sound, Readable, Tops, Saved, Holding, Held, WF, TreeDigest, InsertEach, IndexInsert, ToBits, Ascending;
      BatchValid(es);
      ghost var rs, j := BitRecords(es), i;
      var at := root;
      EachFrom(i, es);
      for n := 0 to |es|
        invariant Setbacks() >= old(Setbacks()) && alive == old(alive)
        invariant Valid(c, promised) && FitIndex(c, j) && at == RootDigest(c, j) && Held(c, Now(), at)
        invariant InsertEach(i, rs) == InsertEach(j, BitRecords(es[n..]))
        invariant forall k :: 0 <= k < n ==> ValidByteKey(es[k].key) && ValidValue(es[k].value)
      {
        if !ValidByteKey(es[n].key) || !ValidValue(es[n].value) {
          assert es[n] in es;
          return Err(Refused);
        }
        var room := PrepareMutation(c, at, promised);
        if room.Some? {
          return Err(room.value);
        }
        EachStep(j, es, n);
        var one := InsertOne(c, at, es[n].key, es[n].value, j, promised);
        if one.Err? {
          return one;
        }
        j, at := IndexInsert(j, ToBits(es[n].key), es[n].value).value, one.value;
        HeldIsReadable(c, Now(), j);
      }
      HeldIsReadable(c, Now(), j);
      EachDone(j, es);
      return Ok(at);
    }

    /** Removes strictly sorted keys one by one. */
    method RemoveMany(c: Codec, root: Digest, keys: seq<Bytes>, ghost i: Index, ghost promised: set<Digest>)
      returns (r: Result<Digest, Failure>)
      requires Valid(c, promised) && FitIndex(c, i) && root == RootDigest(c, i) && Held(c, Now(), root)
      modifies this, files, staged, budget
      ensures alive == old(alive)
      ensures Valid(c, promised) && Answers(c, Now(), r, RemoveSorted(i, keys), Excused(old(Setbacks())))
      ensures Setbacks() >= old(Setbacks())
    {
      hide Sound, Readable, Tops, Saved, Holding, Held, WF, TreeDigest, IndexRemove, ToBits, RemoveEach;
      for n := 1 to if |keys| > 0 then |keys| else 1
        invariant forall k :: 0 <= k < n - 1 ==> Less(keys[k], keys[k + 1])
      {
        if !Less(keys[n - 1], keys[n]) {
          assert keys[n] == keys[n - 1 + 1];
          return Err(Refused);
        }
      }
      ghost var j := i;
      var at := root;
      assert keys[0..] == keys;
      for n := 0 to |keys|
        invariant Setbacks() >= old(Setbacks()) && alive == old(alive)
        invariant Valid(c, promised) && FitIndex(c, j) && at == RootDigest(c, j) && Held(c, Now(), at)
        invariant RemoveEach(i, keys) == RemoveEach(j, keys[n..])
      {
        RemoveStep(j, keys, n);
        if !ValidByteKey(keys[n]) {
          return Err(Refused);
        }
        var room := PrepareMutation(c, at, promised);
        if room.Some? {
          return Err(room.value);
        }
        var one := RemoveOne(c, at, keys[n], j, promised);
        if one.Err? {
          return one;
        }
        j, at := IndexRemove(j, ToBits(keys[n])).value, one.value;
        HeldIsReadable(c, Now(), j);
      }
      HeldIsReadable(c, Now(), j);
      RemoveDone(j, keys);
      return Ok(at);
    }

    /** Before a bulk merge its root must be on disk, though the rest may stay staged. */
    method PersistInProgressRoot(c: Codec, root: Digest, ghost promised: set<Digest>) returns (r: Option<Failure>)
      requires Valid(c, promised) && Held(c, Now(), root)
      modifies files, staged, budget
      ensures Valid(c, promised) && Held(c, Now(), root) && r != Some(Refused)
      ensures r.None? ==> root == EmptyRoot(c) || Saved(c, Now(), root)
      ensures Setbacks() >= old(Setbacks()) && (r.Some? ==> Excused(old(Setbacks())))
    {
      hide Sound, Tops, Saved, Advances, AllSaved, Holding;
      if root !in staged.nodes {
        UnstagedRoot(c, Now(), root);
        return None;
      }
      var noted := budget.Allows();
      if !noted {
        return Some(OverBudget);
      }
      ghost var start := Now();
      var published := PublishRoots(c, files, staged, [root], permitsPacked, full, budget);
      AfterPublishing(c, start, Now(), checkpointRoots, liveRoots, promised, alive, root);
      if published.Err? {
        return Some(published.error);
      }
      SavedRoot(c, start, Now(), root);
      return None;
    }

    /**
     Inserts a sorted batch by merging it into a sink, or one by one when the
     budget or the sink is too small: whichever way it goes, the same root.
     */
    method InsertManyBulk(c: Codec, root: Digest, es: Entries, ghost i: Index, ghost promised: set<Digest>)
      returns (r: Result<Digest, Failure>)
      requires Valid(c, promised) && FitIndex(c, i) && root == RootDigest(c, i) && Held(c, Now(), root)
      requires Ascending(es) && Plays(c, es)
      modifies this, files, staged, budget
      ensures alive == old(alive)
      ensures Valid(c, promised) && Answers(c, Now(), r, PatriciaBulk.InsertMany(i, BitRecords(es)), Excused(old(Setbacks())))
      ensures Setbacks() >= old(Setbacks())
    {
      hide Sound, Tops, Saved, Holding, Held, Readable, WF, TreeDigest, InsertEach, ToBits, Ascending, SinkRecords, SinkMerge,
           Lands, Orderly, PatriciaBulk.InsertMany, Advances;
      BatchValid(es);
      HeldIsReadable(c, Now(), i);
      if |es| == 0 {
        InsertNone(i, es);
        return Ok(root);
      }
      for n := 0 to |es|
        invariant forall k :: 0 <= k < n ==> ValidByteKey(es[k].key) && ValidValue(es[k].value)
      {
        if !ValidByteKey(es[n].key) || !ValidValue(es[n].value) {
          assert es[n] in es;
          InvalidBatch(i, BitRecords(es));
          return Err(Refused);
        }
      }
      BatchInPlay(c, es);
      var affordable, granted, tight := *, *, *;
      if !affordable {
        r := InsertMany(c, root, es, i, promised);
        return;
      }
      var room := PrepareMutation(c, root, promised);
      if room.Some? {
        return Err(room.value);
      }
      if !granted {
        r := InsertMany(c, root, es, i, promised);
        return;
      }
      if tight {
        var more := PrepareMutation(c, root, promised);
        var grantedAgain := *;
        if more.Some? {
          return Err(more.value);
        }
        if !grantedAgain {
          r := InsertMany(c, root, es, i, promised);
          return;
        }
      }
      var noted := budget.Allows();
      if !noted {
        return Err(OverBudget);
      }
      var persisted := PersistInProgressRoot(c, root, promised);
      if persisted.Some? {
        return Err(persisted.value);
      }
      r := MergeThroughSink(c, root, es, i, promised);
    }

    method MergeThroughSink(c: Codec, root: Digest, es: Entries, ghost i: Index, ghost promised: set<Digest>)
      returns (r: Result<Digest, Failure>)
      requires Valid(c, promised) && FitIndex(c, i) && root == RootDigest(c, i) && Held(c, Now(), root)
      requires root == EmptyRoot(c) || Saved(c, Now(), root)
      requires |es| > 0 && Ascending(es) && Batch(c, BitRecords(es)) && Plays(c, es)
      modifies this, files, staged, budget
      ensures alive == old(alive)
      ensures Valid(c, promised) && Answers(c, Now(), r, PatriciaBulk.InsertMany(i, BitRecords(es)), Excused(old(Setbacks())))
      ensures Setbacks() >= old(Setbacks())
    {
      hide Sound, Tops, Saved, Holding, Held, Readable, WF, TreeDigest, InsertEach, ToBits, Ascending, SinkRecords, SinkMerge,
           Lands, Orderly, PatriciaBulk.InsertMany, Advances, Flushes, PatriciaBulk.Valid, StagedValid;
      ghost var s := Now();
      var sink := new ConstructionSink(full);
      SunkRoot(c, s, full, i, es);
      ghost var o := Sunk(i, BitRecords(es));
      var rebuilt;
      if root == EmptyRoot(c) {
        rebuilt := SinkBulkRecords(c, es, sink);
      } else {
        rebuilt := SinkBulkInsertAt(c, Now(), root, es, Unconstrained, sink);
      }
      ghost var sinking := Sinking(rebuilt, sink.View());
      if rebuilt == Err(Capacity) {
        r := InsertMany(c, root, es, i, promised);
        return;
      }
      LandedOrderly(c, s, full, EMPTY_SINK, sinking, o);
      if rebuilt.Err? {
        LandedRefusal(c, s, full, sinking, i, es);
        return Err(Refused);
      }
      var published := PublishSink(c, files, staged, sink, permitsPacked);
      AfterPublishing(c, s, Now(), checkpointRoots, liveRoots, promised, alive, root);
      if published.Err? {
        return Err(published.error);
      }
      SoundIntact(c, s);
      LandedAnswer(c, s, full, Now(), sinking, i, es);
      return Ok(rebuilt.value);
    }

    /** Publishes every remembered root; afterwards nothing is staged and all of them are stored. */
    method Finish(c: Codec, ghost promised: set<Digest>) returns (r: Option<Failure>)
      requires Valid(c, promised)
      modifies this, files, staged, budget
      ensures alive == old(alive)
      ensures Valid(c, promised)
      ensures r.None? ==> staged.nodes == map[] && checkpointRoots == {} && liveRoots == {} && Secured(c, Now(), promised + alive, {})
      ensures Setbacks() >= old(Setbacks()) && (r.Some? ==> Excused(old(Setbacks())))
    {
      hide Sound, Tops, Saved, Advances, AllSaved, Holding, Held;
      var noted := budget.Allows();
      if !noted {
        return Some(OverBudget);
      }
      var checkpoints := Listed(checkpointRoots);
      var lives := Listed(liveRoots);
      var roots := checkpoints + lives;
      ghost var start, some := Now(), EmptyRoot(c);
      EmptyIsHeld(c, start);
      var published := PublishRoots(c, files, staged, roots, permitsPacked, full, budget);
      AfterPublishing(c, start, Now(), checkpointRoots, liveRoots, promised, alive, some);
      if published.Err? {
        return Some(published.error);
      }
      var fits := budget.Allows();
      if !fits {
        return Some(OverBudget);
      }
      ghost var z := Now();
      MoreSaved(c, start, z, roots, some);
      AfterClearing(c, start, z, roots + [some], checkpointRoots, liveRoots, promised, alive, some);
      staged.nodes := map[];
      assert Now() == WithStaged(z, map[]);
      checkpointRoots, liveRoots := {}, {};
      HoldingNothing(c, Now(), promised, alive);
      return None;
    }
  }

  lemma EachFrom(i: Index, es: Entries)
    ensures InsertEach(i, BitRecords(es)) == InsertEach(i, BitRecords(es[0..]))
  {
  }

  lemma EachStep(j: Index, es: Entries, n: nat)
    requires n < |es|
    ensures var o := IndexInsert(j, ToBits(es[n].key), es[n].value);
      InsertEach(j, BitRecords(es[n..])) == if o.Ok? then InsertEach(o.value, BitRecords(es[n + 1..])) else Err(o.error)
  {
    hide IndexInsert, ToBits;
    assert BitRecords(es[n..])[1..] == BitRecords(es[n + 1..]);
  }

  lemma EachDone(j: Index, es: Entries)
    ensures InsertEach(j, BitRecords(es[|es|..])) == Ok(j)
  {
  }

  lemma RemoveStep(j: Index, keys: seq<Bytes>, n: nat)
    requires n < |keys|
    ensures var o := IndexRemove(j, ToBits(keys[n]));
      RemoveEach(j, keys[n..]) == if !ValidByteKey(keys[n]) then Err(Malformed) else if o.Ok? then RemoveEach(o.value, keys[n + 1..]) else Err(o.error)
  {
  }

  lemma RemoveDone(j: Index, keys: seq<Bytes>)
    ensures RemoveEach(j, keys[|keys|..]) == Ok(j)
  {
  }

  lemma BitKeysFrom(keys: seq<Bytes>, n: nat)
    requires n < |keys|
    ensures BitKeys(keys[..n + 1]) == {ToBits(keys[0])} + BitKeys(keys[1..][..n])
  {
    hide ToBits;
    assert keys[..n + 1][0] == keys[0];
    forall x | x in BitKeys(keys[..n + 1]) ensures x in {ToBits(keys[0])} + BitKeys(keys[1..][..n]) {
      var k :| 0 <= k < n + 1 && x == ToBits(keys[..n + 1][k]);
      if k > 0 {
        assert keys[1..][..n][k - 1] == keys[..n + 1][k];
      }
    }
    forall x | x in BitKeys(keys[1..][..n]) ensures x in BitKeys(keys[..n + 1]) {
      var k :| 0 <= k < n && x == ToBits(keys[1..][..n][k]);
      assert keys[..n + 1][k + 1] == keys[1..][..n][k];
    }
  }

  /** Removing on from what is left after the first key refuses the same later keys. */
  lemma StopsLater(m: map<Bits, Value>, keys: seq<Bytes>, n: nat)
    requires n + 1 < |keys|
    ensures StopsAt(m, keys, n + 1) <==> StopsAt(m - {ToBits(keys[0])}, keys[1..], n)
  {
    hide ToBits, ForksAt, ValidByteKey;
    BitKeysFrom(keys, n);
    assert m - BitKeys(keys[..n + 1]) == (m - {ToBits(keys[0])}) - BitKeys(keys[1..][..n]);
  }

  lemma StopsFirst(m: map<Bits, Value>, keys: seq<Bytes>)
    requires |keys| > 0
    ensures StopsAt(m, keys, 0) <==> !ValidByteKey(keys[0]) || MissesFork(m, ToBits(keys[0]))
  {
    hide ToBits, ForksAt, ValidByteKey;
    assert BitKeys(keys[..0]) == {};
    assert m - BitKeys(keys[..0]) == m;
  }

  /** Removals one by one: refused exactly where some key is, and otherwise all keys are gone. */
  lemma {:induction false} RemoveEachSpec(i: Index, keys: seq<Bytes>)
    requires WFIndex(i)
    ensures var r := RemoveEach(i, keys);
      && (r.Err? <==> exists n :: 0 <= n < |keys| && StopsAt(IndexContents(i), keys, n))
      && (r.Ok? ==> WFIndex(r.value) && IndexContents(r.value) == IndexContents(i) - BitKeys(keys))
    decreases |keys|
  {
    hide ToBits, ForksAt, ValidByteKey, StopsAt, MissesFork, IndexContents, IndexRemove, WF;
    if |keys| > 0 {
      var m, key := IndexContents(i), ToBits(keys[0]);
      StopsFirst(m, keys);
      RemoveOneSpec(i, key);
      var one := IndexRemove(i, key);
      if ValidByteKey(keys[0]) && one.Ok? {
        RemoveEachSpec(one.value, keys[1..]);
        forall n | 0 <= n < |keys| - 1 ensures StopsAt(m, keys, n + 1) <==> StopsAt(m - {key}, keys[1..], n) {
          StopsLater(m, keys, n);
        }
        if n :| 0 <= n < |keys| && StopsAt(m, keys, n) {
          assert StopsAt(m - {key}, keys[1..], n - 1);
        }
        BitKeysFrom(keys, |keys| - 1);
        assert keys[..|keys| - 1 + 1] == keys && keys[1..][..|keys| - 1] == keys[1..];
        assert m - BitKeys(keys) == (m - {key}) - BitKeys(keys[1..]);
      }
    } else {
      assert IndexContents(i) - BitKeys(keys) == IndexContents(i);
    }
  }

  lemma RemoveOneSpec(i: Index, key: Bits)
    requires WFIndex(i)
    ensures var r := IndexRemove(i, key);
      && (r.Err? <==> MissesFork(IndexContents(i), key))
      && (r.Ok? ==> WFIndex(r.value) && IndexContents(r.value) == IndexContents(i) - {key})
  {
    hide ForksAt;
    IndexRemoveSpec(i, key);
  }

  lemma {:induction false} SortedRises(keys: seq<Bytes>, a: nat, b: nat)
    requires StrictlySorted(keys) && a < b < |keys|
    ensures Less(keys[a], keys[b])
    decreases b
  {
    hide Less;
    if a + 1 < b {
      SortedRises(keys, a, b - 1);
      KeyOrder.Transitive(keys[a], keys[b - 1], keys[b - 1 + 1]);
    }
  }

  /**
   Removing a batch is refused exactly when its keys do not ascend strictly, or some key is
   invalid, or is absent where stored keys extend it on both sides once the keys before it
   are gone. Otherwise what is left is the map without the keys.
   */
  lemma RemoveSortedSpec(i: Index, keys: seq<Bytes>)
    requires WFIndex(i)
    ensures var r := RemoveSorted(i, keys);
      && (r.Err? <==> (exists a, b :: 0 <= a < b < |keys| && !Less(keys[a], keys[b]))
                      || exists n :: 0 <= n < |keys| && StopsAt(IndexContents(i), keys, n))
      && (r.Ok? ==> WFIndex(r.value) && IndexContents(r.value) == IndexContents(i) - BitKeys(keys))
  {
    hide Less, StopsAt, IndexContents, WF;
    RemoveEachSpec(i, keys);
    if StrictlySorted(keys) {
      forall a, b | 0 <= a < b < |keys| ensures Less(keys[a], keys[b]) {
        SortedRises(keys, a, b);
      }
    } else {
      var n :| 0 <= n < |keys| - 1 && !Less(keys[n], keys[n + 1]);
      assert exists a, b :: 0 <= a < b < |keys| && !Less(keys[a], keys[b]);
    }
  }

  /** Keys in order that are all stored are all removed. */
  lemma StoredAreRemoved(i: Index, keys: seq<Bytes>)
    requires WFIndex(i) && forall a, b :: 0 <= a < b < |keys| ==> Less(keys[a], keys[b])
    requires forall n :: 0 <= n < |keys| ==> ValidByteKey(keys[n]) && ToBits(keys[n]) in IndexContents(i)
    ensures var r := RemoveSorted(i, keys);
      r.Ok? && WFIndex(r.value) && IndexContents(r.value) == IndexContents(i) - BitKeys(keys)
  {
    hide Less, IndexContents, WF, ForksAt, RemoveSorted, ToBits;
    RemoveSortedSpec(i, keys);
    forall n | 0 <= n < |keys| ensures !StopsAt(IndexContents(i), keys, n) {
      if ToBits(keys[n]) in BitKeys(keys[..n]) {
        var k :| 0 <= k < n && ToBits(keys[k]) == ToBits(keys[n]);
        ToBitsInjective(keys[k], keys[n]);
        KeyOrder.Irreflexive(keys[k]);
      }
    }
  }

  lemma SavedRoot(c: Codec, s: Source, z: Source, root: Digest)
    requires AllSaved(c, s, z, [root]) && Held(c, s, root)
    ensures root == EmptyRoot(c) || Saved(c, z, root)
  {
  }

  lemma EmptyIsHeld(c: Codec, s: Source)
    ensures Held(c, s, EmptyRoot(c))
  {
  }

  /** No node has the empty root's digest, so saving it is saving nothing. */
  lemma MoreSaved(c: Codec, s: Source, z: Source, roots: seq<Digest>, root: Digest)
    requires Faithful(c) && AllSaved(c, s, z, roots) && root == EmptyRoot(c)
    ensures AllSaved(c, s, z, roots + [root])
  {
  }

  lemma InsertNone(i: Index, es: Entries)
    requires |es| == 0
    ensures PatriciaBulk.InsertMany(i, BitRecords(es)) == Ok(i)
  {
  }

  lemma InvalidBatch(i: Index, rs: Records)
    requires !AllValid(rs)
    ensures PatriciaBulk.InsertMany(i, rs).Err?
  {
  }

  /** What the bulk merge computes on trees. */
  function Sunk(i: Index, rs: Records): Outcome<Tree> {
    if i.Empty? then Build(rs) else Merge(i.tree, rs)
  }

  lemma SunkIsBulk(i: Index, rs: Records)
    requires WFIndex(i) && PatriciaBulk.Valid(rs) && |rs| > 0
    ensures Sunk(i, rs).Ok? <==> PatriciaBulk.InsertMany(i, rs).Ok?
    ensures Sunk(i, rs).Ok? ==> PatriciaBulk.InsertMany(i, rs) == Ok(Root(Sunk(i, rs).value)) && WF(Sunk(i, rs).value)
  {
    hide PatriciaBulk.InsertMany, Merge, Build;
    BulkIsMany(i, rs);
  }

  lemma SunkRoot(c: Codec, s: Source, full: Policy, i: Index, es: Entries)
    requires Faithful(c) && Sound(c, s) && FitIndex(c, i) && |es| > 0 && Batch(c, BitRecords(es))
    requires RootDigest(c, i) == EmptyRoot(c) || Saved(c, s, RootDigest(c, i))
    ensures StagedValid(c, s)
    ensures i.Empty? <==> RootDigest(c, i) == EmptyRoot(c)
    ensures Lands(c, s, full, EMPTY_SINK,
                  if i.Empty? then SinkRecords(c, full, es, EMPTY_SINK)
                  else SinkMerge(c, s, full, RootDigest(c, i), es, Unconstrained, EMPTY_SINK),
                  Sunk(i, BitRecords(es)))
  {
    hide Closed, Authentic, Persisted, Orderly, Merge, Build, SinkMerge, SinkRecords, Lands, PatriciaBulk.Valid, StagedValid;
    SoundIntact(c, s);
    StagedNodesValid(c, s);
    EmptySinkOrderly(c, s);
    if i.Root? {
      NodeIsOwn(c, i.tree);
      var t :| Fit(c, t) && TreeDigest(c, t) == RootDigest(c, i) && Persisted(c, s, t);
      TreeDigestInjective(c, t, i.tree);
      SinkMergeTree(c, s, full, i.tree, es, Unconstrained, EMPTY_SINK);
    } else {
      SinkRecordsTree(c, s, full, es, EMPTY_SINK);
    }
  }

  lemma LandedRefusal(c: Codec, s: Source, full: Policy, r: Sinking, i: Index, es: Entries)
    requires WFIndex(i) && |es| > 0 && Batch(c, BitRecords(es))
    requires Lands(c, s, full, EMPTY_SINK, r, Sunk(i, BitRecords(es))) && r.outcome.Err? && r.outcome != Err(Capacity)
    ensures PatriciaBulk.InsertMany(i, BitRecords(es)).Err?
  {
    hide Orderly, Persisted, WF, Sunk, PatriciaBulk.InsertMany, PatriciaBulk.Valid;
    SunkIsBulk(i, BitRecords(es));
  }

  lemma LandedAnswer(c: Codec, s: Source, full: Policy, z: Source, r: Sinking, i: Index, es: Entries)
    requires Faithful(c) && Intact(c, s) && Sound(c, z) && Advances(c, s, z) && Flushes(r.sink, z)
    requires WFIndex(i) && |es| > 0 && Batch(c, BitRecords(es))
    requires Lands(c, s, full, EMPTY_SINK, r, Sunk(i, BitRecords(es))) && r.outcome.Ok?
    ensures Answers(c, z, Ok(r.outcome.value), PatriciaBulk.InsertMany(i, BitRecords(es)), false)
  {
    hide ChildrenFirst, Persisted, WF, Sunk, PatriciaBulk.InsertMany, PatriciaBulk.Valid, Closed, Authentic, TreeDigest, Readable;
    SunkIsBulk(i, BitRecords(es));
    SoundIntact(c, z);
    var u := Sunk(i, BitRecords(es)).value;
    FlushedIntact(c, s, r.sink);
    PersistedGrows(c, Flushed(s, r.sink), z, u);
    PersistedReadable(c, z, u);
  }

  lemma NothingHeld(c: Codec, s: Source)
    ensures Holding(c, s, {}, {}, {}, {})
  {
  }

  lemma HoldingNothing(c: Codec, s: Source, promised: set<Digest>, alive: set<Digest>)
    requires Holding(c, s, {}, {}, promised, alive)
    ensures Secured(c, s, promised + alive, {})
  {
  }

  method Listed(ds: set<Digest>) returns (l: seq<Digest>)
    ensures forall d :: d in l <==> d in ds
  {
    var rest := ds;
    l := [];
    while rest != {}
      invariant rest <= ds && forall d :: d in l <==> d in ds && d !in rest
    {
      var d :| d in rest;
      l, rest := l + [d], rest - {d};
    }
  }

  datatype Request = Put(entries: Entries) | PutBulk(entries: Entries) | Drop(keys: seq<Bytes>) | SetLive(roots: seq<Digest>) | Finish

  /** What a request does to the index when it succeeds. */
  ghost function Effect(i: Index, q: Request): Outcome<Index> {
    match q
    case Put(es) => InsertMany(i, BitRecords(es))
    case PutBulk(es) => InsertMany(i, BitRecords(es))
    case Drop(keys) => RemoveSorted(i, keys)
    case _ => Ok(i)
  }

  /** Each request that is not refused takes effect. */
  ghost predicate AllServed(history: seq<Index>, requests: seq<Request>)
    requires |history| == |requests| + 1
  {
    forall n :: 0 <= n < |requests| ==> Effect(history[n], requests[n]).Err? || Effect(history[n], requests[n]) == Ok(history[n + 1])
  }

  /** After each request the index is what the request makes of it, or what it was. */
  ghost predicate Chain(history: seq<Index>, requests: seq<Request>) {
    && |history| == |requests| + 1
    && forall n :: 0 <= n < |requests| ==> history[n + 1] == history[n] || Effect(history[n], requests[n]) == Ok(history[n + 1])
  }

  lemma HistoryKept(c: Codec, s: Source, checkpoints: set<Digest>, lives: set<Digest>, promised: set<Digest>, alive: set<Digest>, history: seq<Index>)
    requires Faithful(c) && Sound(c, s) && Holding(c, s, checkpoints, lives, promised, alive)
    requires forall j :: j in history ==> FitIndex(c, j) && (j.Root? ==> RootDigest(c, j) in promised)
    ensures forall j :: j in history ==> IndexReadable(c, s, j)
  {
    hide Holding, Readable, Sound, RootDigest, Fit;
    forall j | j in history ensures IndexReadable(c, s, j) {
      if j.Root? {
        StillHeld(c, s, checkpoints, lives, promised, alive, j);
        HeldIsReadable(c, s, j);
      }
    }
  }

  /** What was declared live can be read. */
  lemma AliveTop(c: Codec, s: Source, checkpoints: set<Digest>, lives: set<Digest>, promised: set<Digest>, alive: set<Digest>)
    requires Faithful(c) && Sound(c, s) && Holding(c, s, checkpoints, lives, promised, alive)
    ensures AllTop(c, s, alive)
  {
    hide Tops, Saved, Sound;
    SoundIntact(c, s);
    forall d | d in alive ensures Tops(c, s, d) {
      if d !in checkpoints + lives {
        SavedTops(c, s, d);
      }
    }
  }

  /** One request after a checkpoint of the current root; if it fails, the root stays. */
  method Serve(c: Codec, con: Construction, q: Request, root: Digest, ghost i: Index, ghost promised: set<Digest>)
    returns (next: Digest, ghost j: Index)
    requires con.Valid(c, promised) && FitIndex(c, i) && root == RootDigest(c, i) && Held(c, con.Now(), root)
    requires q.Put? || q.PutBulk? ==> Ascending(q.entries) && Plays(c, q.entries)
    modifies con, con.files, con.staged, con.budget
    ensures con.Valid(c, promised) && (i.Root? ==> con.Valid(c, promised + {root}))
    ensures FitIndex(c, j) && next == RootDigest(c, j) && Held(c, con.Now(), next)
    ensures j == i || Effect(i, q) == Ok(j)
    ensures con.Setbacks() >= old(con.Setbacks())
    ensures Effect(i, q).Err? || Effect(i, q) == Ok(j) || con.Excused(old(con.Setbacks()))
    ensures con.alive == if q.SetLive? then set d | d in q.roots && Tops(c, con.Now(), d) else old(con.alive)
    ensures q.Finish? ==> con.staged.nodes == map[] || con.Excused(old(con.Setbacks()))
  {
    hide Sound, Tops, Saved, Holding, Readable, WF, RootDigest, InsertMany, RemoveSorted, Ascending;
    RootTops(c, con.Now(), i);
    con.Checkpoint(c, [root], promised);
    ghost var kept := if i.Root? then promised + {root} else promised;
    FewerPromised(c, con, promised + (set d | d in [root] && Tops(c, con.Now(), d)), kept);
    var r;
    match q {
      case Put(es) => r := con.InsertMany(c, root, es, i, kept);
      case PutBulk(es) => r := con.InsertManyBulk(c, root, es, i, kept);
      case Drop(keys) => r := con.RemoveMany(c, root, keys, i, kept);
      case SetLive(roots) =>
        con.SetLiveRoots(c, roots, kept);
        r := Ok(root);
      case Finish =>
        var failed := con.Finish(c, kept);
        r := if failed.None? then Ok(root) else Err(failed.value);
    }
    FewerPromised(c, con, kept, promised);
    if r.Ok? {
      next, j := r.value, Effect(i, q).value;
    } else {
      next, j := root, i;
    }
    if j == i {
      StillHeld(c, con.Now(), con.checkpointRoots, con.liveRoots, kept, con.alive, i);
    } else {
      HeldIsReadable(c, con.Now(), j);
    }
  }

  lemma FewerPromised(c: Codec, con: Construction, promised: set<Digest>, fewer: set<Digest>)
    requires con.Valid(c, promised) && fewer <= promised
    ensures con.Valid(c, fewer)
  {
  }

  /**
   Any run of requests over a store that may fail any publication, with live roots declared
   and the construction finished, or not, at any point: every root that was ever current and
   every root last declared live stays readable, and the disk is closed throughout. When no
   publication fails and the memory budget refuses nothing, every request that is not refused
   takes effect, and a finish leaves nothing staged.
   */
  method Drive(c: Codec, files: NodeStore, permitsPacked: bool, full: Policy, budget: Budget, requests: seq<Request>)
    returns (con: Construction, root: Digest, ghost history: seq<Index>)
    requires Faithful(c) && Sound(c, Source(files.loose, files.packed, map[]))
    requires forall q :: q in requests && (q.Put? || q.PutBulk?) ==> Ascending(q.entries) && Plays(c, q.entries)
    modifies files, budget
    ensures con.files == files && con.budget == budget && Sound(c, con.Now())
    ensures Chain(history, requests) && history[0] == Empty && root == RootDigest(c, history[|requests|])
    ensures forall j :: j in history ==> IndexReadable(c, con.Now(), j)
    ensures AllTop(c, con.Now(), con.alive)
    ensures con.Setbacks() == old(files.faults + budget.refusals) ==> AllServed(history, requests)
    ensures con.Setbacks() == old(files.faults + budget.refusals) && |requests| > 0 && requests[|requests| - 1].Finish? ==> con.staged.nodes == map[]
  {
    hide Sound, Tops, Saved, AllTop, Holding, Readable, WF, RootDigest, Effect, Ascending, Held, Faithful, Chain, AllServed;
    con := new Construction(files, permitsPacked, full, budget);
    ghost var promised: set<Digest>, i := {}, Empty;
    root := EmptyRoot(c);
    EmptyRootIs(c);
    history := [i];
    NothingHeld(c, con.Now());
    EmptyIsHeld(c, con.Now());
    NothingServed(i);
    for n := 0 to |requests|
      invariant con.files == files && con.budget == budget && fresh(con) && fresh(con.staged)
      invariant con.Valid(c, promised) && FitIndex(c, i) && root == RootDigest(c, i)
      invariant Held(c, con.Now(), root)
      invariant |history| == n + 1 && Chain(history, requests[..n]) && history[0] == Empty && history[n] == i
      invariant con.Setbacks() >= old(files.faults + budget.refusals)
      invariant con.Setbacks() == old(files.faults + budget.refusals) ==> AllServed(history, requests[..n])
      invariant con.Setbacks() == old(files.faults + budget.refusals) && n > 0 && requests[n - 1].Finish? ==> con.staged.nodes == map[]
      invariant forall j :: j in history[..n] ==> FitIndex(c, j) && (j.Root? ==> RootDigest(c, j) in promised)
    {
      ghost var j;
      ghost var root0 := root;
      root, j := Serve(c, con, requests[n], root, i, promised);
      if i.Root? {
        promised := promised + {root0};
      }
      OneMoreServed(history, requests[..n], requests[n], j);
      assert requests[..n + 1] == requests[..n] + [requests[n]];
      history, i := history + [j], j;
    }
    assert requests[..|requests|] == requests;
    RootTops(c, con.Now(), i);
    con.Checkpoint(c, [root], promised);
    promised := promised + set d | d in [root] && Tops(c, con.Now(), d);
    AliveTop(c, con.Now(), con.checkpointRoots, con.liveRoots, promised, con.alive);
    HistoryKept(c, con.Now(), con.checkpointRoots, con.liveRoots, promised, con.alive, history);
  }

  lemma NothingServed(i: Index)
    ensures Chain([i], []) && AllServed([i], [])
  {
  }

  lemma OneMoreServed(history: seq<Index>, requests: seq<Request>, q: Request, j: Index)
    requires |history| == |requests| + 1 && Chain(history, requests)
    requires j == history[|requests|] || Effect(history[|requests|], q) == Ok(j)
    ensures Chain(history + [j], requests + [q])
    ensures AllServed(history, requests) && (Effect(history[|requests|], q).Err? || Effect(history[|requests|], q) == Ok(j)) ==>
      AllServed(history + [j], requests + [q])
  {
    hide Effect;
  }

  lemma EmptyRootIs(c: Codec)
    ensures RootDigest(c, Empty) == EmptyRoot(c)
  {
  }

  lemma RootTops(c: Codec, s: Source, i: Index)
    requires Faithful(c) && FitIndex(c, i) && Held(c, s, RootDigest(c, i))
    ensures i.Root? ==> Tops(c, s, RootDigest(c, i))
  {
    hide Faithful, Fit, Tops;
    if i.Root? {
      NodeIsOwn(c, i.tree);
    }
  }

  lemma StillHeld(c: Codec, s: Source, checkpoints: set<Digest>, lives: set<Digest>, promised: set<Digest>, alive: set<Digest>, i: Index)
    requires Faithful(c) && Sound(c, s) && Holding(c, s, checkpoints, lives, promised, alive)
    requires i.Root? ==> RootDigest(c, i) in promised
    ensures Held(c, s, RootDigest(c, i))
  {
    hide Tops, Saved, Authentic;
    var d := RootDigest(c, i);
    if i.Root? && d !in checkpoints {
      SavedTops(c, s, d);
    }
  }
}
