/**
 Bulk construction over stored nodes: a sorted batch is merged into a stored
 tree, finished children going into a bounded sink before their parents.
 */
module PatriciaSink {
  import opened Wrappers
  import opened BitStrings
  import opened KeyBits
  import opened PrefixBytes
  import opened ContentAddress
  import opened PatriciaTree
  import opened PatriciaPoint
  import opened PatriciaBulk
  import opened PatriciaNodes
  import opened PatriciaLookup
  import opened PatriciaInsert
  import opened PatriciaVisit
  import opened PackLimits

  /** Encoded nodes by digest, and the order they arrived in. */
  datatype Sink = Sink(entries: map<Digest, Bytes>, order: seq<Digest>, payload: nat)

  const EMPTY_SINK: Sink := Sink(map[], [], 0)

  datatype SinkError = Capacity | Patricia(error: PatriciaError)

  /** An outcome together with the sink it leaves, also on failure. */
  datatype Sinking = Sinking(outcome: Result<Digest, SinkError>, sink: Sink)

  /** A residency policy: whether this many entries of this many payload bytes are too much. */
  type Policy = (nat, nat) -> bool

  function EncodedBytes(entries: nat, payload: nat): nat {
    PACK_HEADER_BYTES + entries * PACK_INDEX_ENTRY_BYTES + payload
  }

  /** Accepts one encoded node, refuses it for capacity, or rejects it. */
  function Accept(c: Codec, full: Policy, sink: Sink, d: Digest, bytes: Bytes): Sinking {
    if |bytes| == 0 || |bytes| > MAX_PACK_ENTRY_BYTES then Sinking(Err(Patricia(Malformed)), sink)
    else if c.of(bytes) != d then Sinking(Err(Patricia(PathMismatch(d))), sink)
    else if d in sink.entries then
      Sinking(if sink.entries[d] == bytes then Ok(d) else Err(Patricia(PathMismatch(d))), sink)
    else if EncodedBytes(|sink.entries| + 1, sink.payload + |bytes|) > MAX_CATALOG_PACK_BYTES
         || full(|sink.entries| + 1, sink.payload + |bytes|) then
      Sinking(Err(Capacity), sink)
    else
      Sinking(Ok(d), Sink(sink.entries[d := bytes], sink.order + [d], sink.payload + |bytes|))
  }

  function SinkNode(c: Codec, full: Policy, sink: Sink, n: Node): Sinking {
    if !ValidNode(c, n) || |c.encode(n)| > MAX_VALID_NODE_BYTES || |c.encode(n)| > MAX_NODE_BYTES then
      Sinking(Err(Patricia(Malformed)), sink)
    else
      Accept(c, full, sink, DigestOf(c, n), c.encode(n))
  }

  /** How many leading entries have a zero at bit `split`; the others must have a one. */
  function PartitionBytes(es: Entries, split: nat): Outcome<nat> {
    if |es| == 0 then Ok(0)
    else if split >= BitLen(es[0].key) then Err(Malformed)
    else if KeyBit(es[0].key, split) then
      if forall e :: e in es ==> split < BitLen(e.key) && KeyBit(e.key, split) then Ok(0) else Err(Malformed)
    else match PartitionBytes(es[1..], split)
      case Ok(n) => Ok(n + 1)
      case Err(e) => Err(e)
  }

  /** A branch over two sides, the right one built from where the left one left the sink. */
  function SinkBranch(c: Codec, full: Policy, prefix: Bytes, bits: nat, left: Digest, right: Sinking): Sinking {
    if right.outcome.Err? then right
    else SinkNode(c, full, right.sink, BranchNode(NODE_SCHEMA_VERSION, prefix, bits, left, right.outcome.value))
  }

  lemma PartitionBytesBounds(es: Entries, split: nat)
    ensures PartitionBytes(es, split).Ok? ==> PartitionBytes(es, split).value <= |es|
  {
  }

  /** Builds a whole batch into the sink, children before parents. */
  function SinkRecords(c: Codec, full: Policy, es: Entries, sink: Sink): Sinking
    decreases |es|
  {
    if |es| == 0 then Sinking(Err(Patricia(Malformed)), sink)
    else if |es| == 1 then SinkNode(c, full, sink, NewLeaf(es[0].key, es[0].value))
    else
      var first, last := es[0].key, es[|es| - 1].key;
      var split := CommonPrefixBits(first, last, BitLen(first));
      PartitionBytesBounds(es, split);
      var n := PartitionBytes(es, split);
      if n.Err? then Sinking(Err(Patricia(n.error)), sink)
      else if n.value == 0 || n.value == |es| then Sinking(Err(Patricia(Malformed)), sink)
      else
        var left := SinkRecords(c, full, es[..n.value], sink);
        if left.outcome.Err? then left
        else SinkBranch(c, full, MaskedPrefix(first, split), split, left.outcome.value,
                        SinkRecords(c, full, es[n.value..], left.sink))
  }

  function SharedWithNode(n: Node, es: Entries): nat
    requires |es| > 0
  {
    var prefix, bits := NodePrefix(n), NodePrefixBits(n);
    Least(CommonPrefixBits(es[0].key, prefix, bits), CommonPrefixBits(es[|es| - 1].key, prefix, bits))
  }

  lemma ReadWithinBounds(c: Codec, s: Source, d: Digest, k: Constraint)
    requires StagedValid(c, s)
    ensures var r := ReadStaged(c, s, d);
      r.Ok? && ValidPath(r.value, k) && r.value.BranchNode? ==> Floor(k) <= r.value.prefixBits < MAX_KEY_BITS
  {
  }

  /** Merges a batch into the stored tree at `d`. */
  function SinkMerge(c: Codec, s: Source, full: Policy, d: Digest, es: Entries, k: Constraint, sink: Sink): Sinking
    requires StagedValid(c, s) && Floor(k) <= MAX_KEY_BITS
    decreases MAX_KEY_BITS - Floor(k), |es|, 1
  {
    var read := ReadStaged(c, s, d);
    ReadWithinBounds(c, s, d, k);
    if read.Err? then Sinking(Err(Patricia(read.error)), sink)
    else if !ValidPath(read.value, k) || |es| == 0 then Sinking(Err(Patricia(Malformed)), sink)
    else
      var node := read.value;
      var shared := SharedWithNode(node, es);
      if shared < NodePrefixBits(node) then SinkAbove(c, s, full, d, node, es, k, sink, shared)
      else if node.LeafNode? then
        if |es| != 1 || es[0].key != node.key then Sinking(Err(Patricia(Malformed)), sink)
        else if es[0].value == node.value then Sinking(Ok(d), sink)
        else SinkNode(c, full, sink, NewLeaf(es[0].key, es[0].value))
      else
        var split := node.prefixBits;
        PartitionBytesBounds(es, split);
        var n := PartitionBytes(es, split);
        if n.Err? then Sinking(Err(Patricia(n.error)), sink)
        else
          var left := SinkSide(c, s, full, node.left, es[..n.value], Below(node.prefix, split, false), sink);
          if left.outcome.Err? then left
          else SinkBranch(c, full, node.prefix, split, left.outcome.value,
                          SinkSide(c, s, full, node.right, es[n.value..], Below(node.prefix, split, true), left.sink))
  }

  /** A subtree that receives no record keeps its digest. */
  function SinkSide(c: Codec, s: Source, full: Policy, d: Digest, es: Entries, k: Constraint, sink: Sink): Sinking
    requires StagedValid(c, s) && Floor(k) <= MAX_KEY_BITS
    decreases MAX_KEY_BITS - Floor(k), |es|, 2
  {
    if |es| == 0 then Sinking(Ok(d), sink) else SinkMerge(c, s, full, d, es, k, sink)
  }

  /** The batch leaves the node's prefix at bit `shared`: a new branch above the node. */
  function SinkAbove(c: Codec, s: Source, full: Policy, d: Digest, node: Node, es: Entries, k: Constraint, sink: Sink, shared: nat): Sinking
    requires StagedValid(c, s) && Floor(k) <= MAX_KEY_BITS && |es| > 0
    decreases MAX_KEY_BITS - Floor(k), |es|, 0
  {
    PartitionBytesBounds(es, shared);
    var n := PartitionBytes(es, shared);
    var prefix := NodePrefix(node);
    if n.Err? then Sinking(Err(Patricia(n.error)), sink)
    else if shared >= BitLen(prefix) then Sinking(Err(Patricia(Malformed)), sink)
    else if KeyBit(prefix, shared) then
      if n.value == 0 then Sinking(Err(Patricia(Malformed)), sink)
      else
        var left := SinkRecords(c, full, es[..n.value], sink);
        if left.outcome.Err? then left
        else SinkBranch(c, full, MaskedPrefix(prefix, shared), shared, left.outcome.value,
                        SinkSide(c, s, full, d, es[n.value..], k, left.sink))
    else
      if n.value == |es| then Sinking(Err(Patricia(Malformed)), sink)
      else
        var left := SinkSide(c, s, full, d, es[..n.value], k, sink);
        if left.outcome.Err? then left
        else SinkBranch(c, full, MaskedPrefix(prefix, shared), shared, left.outcome.value,
                        SinkRecords(c, full, es[n.value..], left.sink))
  }

  // ----- what the sink holds -----

  /** The store once the first `n` accepted nodes have been published as files. */
  ghost function UpTo(s: Source, sink: Sink, n: nat): Source
    requires n <= |sink.order|
  {
    s.(loose := s.loose + map d | d in sink.entries && d in sink.order[..n] :: sink.entries[d])
  }

  ghost function Flushed(s: Source, sink: Sink): Source {
    s.(loose := s.loose + sink.entries)
  }

  /** Publishing the sink in its order never publishes a node before its children. */
  ghost predicate ChildrenFirst(c: Codec, s: Source, sink: Sink) {
    forall i :: 0 <= i < |sink.order| ==> Saved(c, UpTo(s, sink, i + 1), sink.order[i])
  }

  /** Each accepted node once in the order at least, and at its own digest. */
  ghost predicate Honest(c: Codec, sink: Sink) {
    && (forall d :: d in sink.entries <==> d in sink.order)
    && (forall d :: d in sink.entries ==> Own(c, d, sink.entries[d]))
    && Metered(sink)
  }

  function BytesOf(entries: map<Digest, Bytes>, order: seq<Digest>): nat {
    if |order| == 0 then 0
    else BytesOf(entries, order[..|order| - 1]) + var d := order[|order| - 1]; if d in entries then |entries[d]| else 0
  }

  /** Each entry arrived once, and the payload is the bytes of all. */
  predicate Metered(sink: Sink) {
    |sink.order| == |sink.entries| && sink.payload == BytesOf(sink.entries, sink.order)
  }

  lemma {:induction false} BytesUnchanged(entries: map<Digest, Bytes>, order: seq<Digest>, d: Digest, bytes: Bytes)
    requires d !in order
    ensures BytesOf(entries[d := bytes], order) == BytesOf(entries, order)
    decreases |order|
  {
    if |order| > 0 {
      BytesUnchanged(entries, order[..|order| - 1], d, bytes);
    }
  }

  /** Some node, of a size that nodes may have, has no room left in the sink. */
  ghost predicate Crowded(full: Policy, sink: Sink) {
    exists n: nat :: Overflows(full, sink, n)
  }

  predicate Overflows(full: Policy, sink: Sink, n: nat) {
    && n <= MAX_PACK_ENTRY_BYTES
    && (20 + 40 * (|sink.entries| + 1) + sink.payload + n > 67108864 || full(|sink.entries| + 1, sink.payload + n))
  }

  ghost predicate Orderly(c: Codec, s: Source, sink: Sink) {
    Honest(c, sink) && ChildrenFirst(c, s, sink)
  }

  ghost predicate Extends(a: Sink, b: Sink) {
    a.entries.Keys <= b.entries.Keys
  }

  /** A sinking that does at the store what `o` says, unless the sink it leaves has no room for some node. */
  ghost predicate Lands(c: Codec, s: Source, full: Policy, before: Sink, r: Sinking, o: Outcome<Tree>) {
    && Extends(before, r.sink) && Orderly(c, s, r.sink)
    && ((r.outcome == Err(Capacity) && Crowded(full, r.sink))
        || if o.Ok? then
             r.outcome == Ok(TreeDigest(c, o.value)) && Fit(c, o.value) && Persisted(c, Flushed(s, r.sink), o.value)
           else r.outcome == Err(Patricia(Malformed)))
  }

  lemma FlushedAll(s: Source, sink: Sink)
    requires forall d :: d in sink.entries <==> d in sink.order
    ensures UpTo(s, sink, |sink.order|) == Flushed(s, sink)
  {
    assert sink.order[..|sink.order|] == sink.order;
    assert (map d | d in sink.entries && d in sink.order[..|sink.order|] :: sink.entries[d]) == sink.entries;
  }

  function With(sink: Sink, d: Digest, bytes: Bytes): Sink {
    Sink(sink.entries[d := bytes], sink.order + [d], sink.payload + |bytes|)
  }

  lemma WithHonest(c: Codec, sink: Sink, d: Digest, bytes: Bytes)
    requires Honest(c, sink) && d !in sink.entries && Own(c, d, bytes)
    ensures Honest(c, With(sink, d, bytes))
  {
    var next := With(sink, d, bytes);
    BytesUnchanged(sink.entries, sink.order, d, bytes);
    assert next.order[..|sink.order|] == sink.order;
  }

  lemma SameStart(s: Source, sink: Sink, d: Digest, bytes: Bytes, n: nat)
    requires n <= |sink.order| && d !in sink.order
    ensures UpTo(s, With(sink, d, bytes), n) == UpTo(s, sink, n)
  {
    var next := With(sink, d, bytes);
    assert next.order[..n] == sink.order[..n];
    assert (map e | e in next.entries && e in next.order[..n] :: next.entries[e])
        == (map e | e in sink.entries && e in sink.order[..n] :: sink.entries[e]);
  }

  lemma AcceptedOrderly(c: Codec, s: Source, sink: Sink, d: Digest, bytes: Bytes)
    requires Orderly(c, s, sink) && d !in sink.entries && Own(c, d, bytes)
    requires Saved(c, Flushed(s, With(sink, d, bytes)), d)
    ensures Orderly(c, s, With(sink, d, bytes))
  {
    hide Saved, UpTo, Metered;
    var next := With(sink, d, bytes);
    WithHonest(c, sink, d, bytes);
    FlushedAll(s, next);
    forall i | 0 <= i < |next.order| ensures Saved(c, UpTo(s, next, i + 1), next.order[i]) {
      if i < |sink.order| {
        SameStart(s, sink, d, bytes, i + 1);
      }
    }
  }

  lemma FlushedIntact(c: Codec, s: Source, sink: Sink)
    requires Intact(c, s) && Honest(c, sink)
    ensures Intact(c, Flushed(s, sink))
  {
  }

  lemma PersistedFlush(c: Codec, s: Source, a: Sink, b: Sink, t: Tree)
    requires Faithful(c) && Intact(c, s) && Honest(c, a) && Honest(c, b) && Extends(a, b) && Fit(c, t)
    requires Persisted(c, Flushed(s, a), t)
    ensures Persisted(c, Flushed(s, b), t)
  {
    hide Persisted, Intact;
    FlushedIntact(c, s, a);
    FlushedIntact(c, s, b);
    PersistedGrows(c, Flushed(s, a), Flushed(s, b), t);
  }

  /** Accepting the bytes of a tree's node does one of three things. */
  lemma SinkNodeIs(c: Codec, full: Policy, sink: Sink, t: Tree)
    requires Faithful(c) && Honest(c, sink) && Fit(c, t)
    ensures var r, d, bytes := SinkNode(c, full, sink, NodeOf(c, t)), TreeDigest(c, t), c.encode(NodeOf(c, t));
      || (d in sink.entries && r == Sinking(Ok(d), sink))
      || (d !in sink.entries && r == Sinking(Ok(d), With(sink, d, bytes)))
      || (d !in sink.entries && r == Sinking(Err(Capacity), sink) && Crowded(full, sink))
  {
    NodeOfIsValid(c, t);
    if SinkNode(c, full, sink, NodeOf(c, t)).outcome == Err(Capacity) {
      assert Overflows(full, sink, |c.encode(NodeOf(c, t))|);
    }
  }

  /** Sinking the node of a tree whose children have landed lands the tree. */
  lemma SinkTree(c: Codec, s: Source, full: Policy, sink: Sink, t: Tree)
    requires Faithful(c) && Intact(c, s) && Orderly(c, s, sink) && Fit(c, t)
    requires t.Branch? ==> Persisted(c, Flushed(s, sink), t.left) && Persisted(c, Flushed(s, sink), t.right)
    ensures Lands(c, s, full, sink, SinkNode(c, full, sink, NodeOf(c, t)), Ok(t))
  {
    hide SinkNode, ChildrenFirst, Persisted, Saved, NodeOf, Fit, Metered, Crowded;
    SinkNodeIs(c, full, sink, t);
    var d, bytes := TreeDigest(c, t), c.encode(NodeOf(c, t));
    var next := With(sink, d, bytes);
    if d in sink.entries {
      FlushedIntact(c, s, sink);
      SavedNode(c, Flushed(s, sink), t);
    } else {
      WithHonest(c, sink, d, bytes);
      FlushedIntact(c, s, next);
      if t.Branch? {
        FitSides(c, t);
        PersistedFlush(c, s, sink, next, t.left);
        PersistedFlush(c, s, sink, next, t.right);
      }
      SavedNode(c, Flushed(s, next), t);
      AcceptedOrderly(c, s, sink, d, bytes);
    }
  }

  lemma SavedNode(c: Codec, s: Source, t: Tree)
    requires Faithful(c) && Intact(c, s) && Fit(c, t) && TreeDigest(c, t) in s.loose
    requires t.Branch? ==> Persisted(c, s, t.left) && Persisted(c, s, t.right)
    ensures Persisted(c, s, t) && Saved(c, s, TreeDigest(c, t))
  {
    NodeOfIsValid(c, t);
    assert s.loose[TreeDigest(c, t)] == c.encode(NodeOf(c, t));
    assert Persisted(c, s, t);
  }

  // ----- byte batches as bit records -----

  ghost function BitRecords(es: Entries): (rs: Records)
    ensures |rs| == |es|
  {
    seq(|es|, i requires 0 <= i < |es| => Record(ToBits(es[i].key), es[i].value))
  }

  /** A sorted batch of valid records in play. */
  ghost predicate Batch(c: Codec, rs: Records) {
    Valid(rs) && forall r :: r in rs ==> c.plays(r)
  }

  lemma BatchSplit(c: Codec, rs: Records, n: nat)
    requires Batch(c, rs) && n <= |rs|
    ensures Batch(c, rs[..n]) && Batch(c, rs[n..])
  {
    ValidSplit(rs, n);
  }

  lemma {:induction false} RecordsPlay(c: Codec, rs: Records)
    requires forall r :: r in rs ==> c.plays(r)
    ensures AllPlay(c, RecordMap(rs))
  {
    if |rs| > 0 {
      assert rs[0] in rs;
      RecordsPlay(c, rs[1..]);
    }
  }

  lemma BitRecordsSlices(es: Entries, n: nat)
    requires n <= |es|
    ensures BitRecords(es[..n]) == BitRecords(es)[..n] && BitRecords(es[n..]) == BitRecords(es)[n..]
  {
  }

  lemma {:induction false} PartitionIs(es: Entries, split: nat)
    ensures PartitionBytes(es, split) == Partition(BitRecords(es), split)
  {
    hide KeyBit, ToBits;
    var rs := BitRecords(es);
    if |es| > 0 && split < BitLen(es[0].key) {
      KeyBitIs(es[0].key, split);
      if KeyBit(es[0].key, split) {
        AllOnesIs(es, split);
      } else {
        PartitionIs(es[1..], split);
        BitRecordsSlices(es, 1);
      }
    }
  }

  lemma PartitionRefuses(rs: Records, split: nat)
    ensures Partition(rs, split).Err? ==> Partition(rs, split) == Err(Malformed)
  {
  }

  lemma AllOnesIs(es: Entries, split: nat)
    ensures (forall e :: e in es ==> split < BitLen(e.key) && KeyBit(e.key, split))
       <==> (forall r :: r in BitRecords(es) ==> split < |r.key| && r.key[split])
  {
    hide KeyBit, ToBits;
    var rs := BitRecords(es);
    forall i | 0 <= i < |es| && split < BitLen(es[i].key)
      ensures KeyBit(es[i].key, split) <==> rs[i].key[split]
    {
      KeyBitIs(es[i].key, split);
    }
    if forall e :: e in es ==> split < BitLen(e.key) && KeyBit(e.key, split) {
      forall i | 0 <= i < |rs| ensures split < |rs[i].key| && rs[i].key[split] {
        assert es[i] in es;
      }
    } else {
      var i :| 0 <= i < |es| && !(split < BitLen(es[i].key) && KeyBit(es[i].key, split));
      assert rs[i] in rs;
    }
  }

  /** A failed left side is the whole failure. */
  lemma LeftFails(c: Codec, s: Source, full: Policy, before: Sink, path: Bits, left: Sinking, l: Outcome<Tree>, r: Outcome<Tree>)
    requires Lands(c, s, full, before, left, l) && left.outcome.Err?
    ensures Lands(c, s, full, before, left, Joined(path, l, r))
  {
  }

  /** Two landed sides and the branch over them land the joined tree. */
  lemma SidesLand(c: Codec, s: Source, full: Policy, before: Sink, path: Bits, left: Sinking, l: Outcome<Tree>, right: Sinking, r: Outcome<Tree>)
    requires Faithful(c) && Intact(c, s)
    requires Lands(c, s, full, before, left, l) && left.outcome.Ok?
    requires Lands(c, s, full, left.sink, right, r)
    requires Joined(path, l, r).Ok? ==> Fit(c, Joined(path, l, r).value)
    ensures Lands(c, s, full, before, SinkBranch(c, full, Pack(path), |path|, left.outcome.value, right), Joined(path, l, r))
  {
    hide SinkNode, ChildrenFirst, Honest, Persisted, Saved, Fit, Pack;
    if right.outcome.Ok? {
      PersistedFlush(c, s, left.sink, right.sink, l.value);
      SinkTree(c, s, full, right.sink, Branch(path, l.value, r.value));
    }
  }

  lemma LeafLands(c: Codec, s: Source, full: Policy, sink: Sink, key: Bytes, value: Bytes)
    requires Faithful(c) && Intact(c, s) && Orderly(c, s, sink)
    requires ValidRecord(Record(ToBits(key), value)) && c.plays(Record(ToBits(key), value))
    ensures Lands(c, s, full, sink, SinkNode(c, full, sink, NewLeaf(key, value)), Ok(Leaf(ToBits(key), value)))
  {
    hide SinkNode, Orderly;
    PackOfKey(key);
    SinkTree(c, s, full, sink, Leaf(ToBits(key), value));
  }

  lemma SplitOfBatch(es: Entries)
    requires |es| > 0
    ensures var first, last, rs := es[0].key, es[|es| - 1].key, BitRecords(es);
      var split := CommonPrefix(rs[0].key, rs[|rs| - 1].key);
      && CommonPrefixBits(first, last, BitLen(first)) == split
      && MaskedPrefix(first, split) == Pack(rs[0].key[..split])
  {
    hide CommonPrefix, CommonPrefixBits, MaskedPrefix, Pack, ToBits;
    var first, last := es[0].key, es[|es| - 1].key;
    CommonPrefixBitsIs(first, last, BitLen(first));
    MaskedPrefixIs(first, CommonPrefix(ToBits(first), ToBits(last)));
  }

  /** Building a batch into the sink lands what building its records gives. */
  lemma {:induction false} SinkRecordsTree(c: Codec, s: Source, full: Policy, es: Entries, sink: Sink)
    requires Faithful(c) && Intact(c, s) && Orderly(c, s, sink)
    requires |es| > 0 && Batch(c, BitRecords(es))
    ensures Lands(c, s, full, sink, SinkRecords(c, full, es, sink), Build(BitRecords(es)))
    decreases |es|
  {
    hide SinkNode, Orderly, Persisted, Fit, Pack, CommonPrefixBits, MaskedPrefix, ToBits, SinkBranch, Lands, Partition, PartitionBytes, Batch;
    var rs := BitRecords(es);
    if |es| == 1 {
      ValidHead(c, rs);
      LeafLands(c, s, full, sink, es[0].key, es[0].value);
    } else {
      SplitOfBatch(es);
      var split := CommonPrefix(rs[0].key, rs[|rs| - 1].key);
      PartitionIs(es, split);
      PartitionBounds(rs, split);
      PartitionRefuses(rs, split);
      var n := Partition(rs, split);
      if n.Ok? && 0 < n.value < |rs| {
        SinkHalves(c, s, full, es, n.value, sink);
      } else {
        Refused(c, s, full, sink);
      }
    }
  }

  lemma ValidHead(c: Codec, rs: Records)
    requires Batch(c, rs) && |rs| > 0
    ensures ValidRecord(rs[0]) && c.plays(rs[0])
  {
    assert rs[0] in rs;
  }

  lemma Refused(c: Codec, s: Source, full: Policy, sink: Sink)
    requires Orderly(c, s, sink)
    ensures Lands(c, s, full, sink, Sinking(Err(Patricia(Malformed)), sink), Err(Malformed))
  {
  }

  lemma {:induction false} SinkHalves(c: Codec, s: Source, full: Policy, es: Entries, n: nat, sink: Sink)
    requires Faithful(c) && Intact(c, s) && Orderly(c, s, sink)
    requires |es| > 1 && Batch(c, BitRecords(es)) && 0 < n < |es|
    requires PartitionBytes(es, CommonPrefixBits(es[0].key, es[|es| - 1].key, BitLen(es[0].key))) == Ok(n)
    ensures Lands(c, s, full, sink, SinkRecords(c, full, es, sink), Build(BitRecords(es)))
    decreases |es|, 0
  {
    hide SinkNode, Orderly, Persisted, Fit, Pack, CommonPrefixBits, MaskedPrefix, ToBits, SinkBranch, Partition, PartitionBytes, Batch;
    var rs := BitRecords(es);
    SplitOfBatch(es);
    var split := CommonPrefix(rs[0].key, rs[|rs| - 1].key);
    PartitionIs(es, split);
    BitRecordsSlices(es, n);
    BatchSplit(c, rs, n);
    var path := rs[0].key[..split];
    var left := SinkRecords(c, full, es[..n], sink);
    SinkRecordsTree(c, s, full, es[..n], sink);
    if left.outcome.Err? {
      LeftFails(c, s, full, sink, path, left, Build(rs[..n]), Build(rs[n..]));
    } else {
      SinkRecordsTree(c, s, full, es[n..], left.sink);
      BuiltFit(c, rs);
      SidesLand(c, s, full, sink, path, left, Build(rs[..n]), SinkRecords(c, full, es[n..], left.sink), Build(rs[n..]));
    }
  }

  lemma BuiltFit(c: Codec, rs: Records)
    requires Batch(c, rs) && |rs| > 0
    ensures Build(rs).Ok? ==> Fit(c, Build(rs).value)
  {
    BuildSpec(rs);
    RecordsPlay(c, rs);
    if Build(rs).Ok? {
      InPlayByContents(c, Build(rs).value);
    }
  }

  // ----- merging into a stored tree -----

  /** What a merge needs of the stored tree. */
  ghost predicate Mergeable(c: Codec, s: Source, t: Tree, k: Constraint) {
    && Authentic(c, s) && Fit(c, t) && Persisted(c, s, t)
    && ValidPath(NodeOf(c, t), k) && Floor(k) <= MAX_KEY_BITS
  }

  lemma StagedNodesValid(c: Codec, s: Source)
    requires Faithful(c) && Authentic(c, s)
    ensures StagedValid(c, s)
  {
    forall d | d in s.staged ensures ValidNode(c, s.staged[d]) {
      var t := StagedTree(c, s, d);
    }
  }

  lemma MergeReads(c: Codec, s: Source, t: Tree, k: Constraint)
    requires Faithful(c) && Mergeable(c, s, t, k)
    ensures StagedValid(c, s) && ReadStaged(c, s, TreeDigest(c, t)) == Ok(NodeOf(c, t))
  {
    hide ReadStaged, ValidPath, Fit;
    StagedNodesValid(c, s);
    PersistedReadable(c, s, t);
  }

  lemma SharedIsBits(c: Codec, t: Tree, es: Entries)
    requires WF(t) && |es| > 0
    ensures SharedWithNode(NodeOf(c, t), es) == SharedBits(t, BitRecords(es))
  {
    hide ToBits, CommonPrefixBits, NodeOf, CommonPrefix, Fit, Path, NodePrefix, NodePrefixBits;
    SharedIs(c, t, es[0].key);
    SharedIs(c, t, es[|es| - 1].key);
  }

  lemma KeptLands(c: Codec, s: Source, full: Policy, sink: Sink, t: Tree)
    requires Faithful(c) && Intact(c, s) && Orderly(c, s, sink) && Fit(c, t) && Persisted(c, s, t)
    ensures Lands(c, s, full, sink, Sinking(Ok(TreeDigest(c, t)), sink), Ok(t))
  {
    hide ChildrenFirst, Persisted, Intact, Fit;
    FlushedIntact(c, s, sink);
    PersistedGrows(c, s, Flushed(s, sink), t);
  }

  lemma MergedFit(c: Codec, t: Tree, rs: Records)
    requires Fit(c, t) && Batch(c, rs) && |rs| > 0
    ensures Merge(t, rs).Ok? ==> Fit(c, Merge(t, rs).value)
  {
    MergeSpec(t, rs);
    RecordsPlay(c, rs);
    if Merge(t, rs).Ok? {
      InPlayByContents(c, t);
      InPlayByContents(c, Merge(t, rs).value);
    }
  }

  /** Over a persisted tree, sinking the merge lands the merged tree. */
  lemma {:induction false} SinkMergeTree(c: Codec, s: Source, full: Policy, t: Tree, es: Entries, k: Constraint, sink: Sink)
    requires Faithful(c) && Mergeable(c, s, t, k) && Orderly(c, s, sink)
    requires |es| > 0 && Batch(c, BitRecords(es))
    requires StagedValid(c, s)
    ensures Lands(c, s, full, sink, SinkMerge(c, s, full, TreeDigest(c, t), es, k, sink), Merge(t, BitRecords(es)))
    decreases t, |es|, 2
  {
    hide SinkNode, Orderly, Persisted, Fit, Lands, ReadStaged, StagedValid, Batch, ToBits, NodeOf, SinkAbove, MergeAbove, Mergeable,
         SharedWithNode, SharedBits, SinkMerge, Merge, Path;
    var rs := BitRecords(es);
    if SharedBits(t, rs) < |Path(t)| {
      SinkMergeAbove(c, s, full, t, es, k, sink);
    } else if t.Leaf? {
      SinkMergeLeaf(c, s, full, t, es, k, sink);
    } else {
      SinkMergeBranch(c, s, full, t, es, k, sink);
    }
  }

  lemma {:induction false} SinkSideTree(c: Codec, s: Source, full: Policy, t: Tree, es: Entries, k: Constraint, sink: Sink)
    requires Faithful(c) && Mergeable(c, s, t, k) && Orderly(c, s, sink)
    requires Batch(c, BitRecords(es)) && StagedValid(c, s)
    ensures Lands(c, s, full, sink, SinkSide(c, s, full, TreeDigest(c, t), es, k, sink), MergeSide(t, BitRecords(es)))
    decreases t, |es|, 3
  {
    hide Orderly, Persisted, Fit, Lands, Batch, StagedValid, ToBits, NodeOf, SinkMerge, Merge, ValidPath;
    if |es| == 0 {
      KeptLands(c, s, full, sink, t);
    } else {
      SinkMergeTree(c, s, full, t, es, k, sink);
    }
  }

  lemma SinkMergeLeaf(c: Codec, s: Source, full: Policy, t: Tree, es: Entries, k: Constraint, sink: Sink)
    requires Faithful(c) && Mergeable(c, s, t, k) && Orderly(c, s, sink)
    requires |es| > 0 && Batch(c, BitRecords(es)) && StagedValid(c, s)
    requires t.Leaf? && !(SharedBits(t, BitRecords(es)) < |Path(t)|)
    ensures Lands(c, s, full, sink, SinkMerge(c, s, full, TreeDigest(c, t), es, k, sink), Merge(t, BitRecords(es)))
  {
    hide SinkNode, Orderly, Persisted, WF, Lands, ReadStaged, Batch, StagedValid, ToBits, TreeDigest, SharedWithNode, SharedBits, ValidPath;
    var rs := BitRecords(es);
    MergeReads(c, s, t, k);
    SharedIsBits(c, t, es);
    PrefixSpellsPath(c, t);
    LeafNodeKey(c, t);
    ValidHead(c, rs);
    if |es| == 1 && rs[0].key == t.key {
      PackOfKey(es[0].key);
      if es[0].value == t.value {
        KeptLands(c, s, full, sink, t);
      } else {
        LeafLands(c, s, full, sink, es[0].key, es[0].value);
      }
    } else {
      Refused(c, s, full, sink);
    }
  }

  lemma {:induction false} SinkMergeBranch(c: Codec, s: Source, full: Policy, t: Tree, es: Entries, k: Constraint, sink: Sink)
    requires Faithful(c) && Mergeable(c, s, t, k) && Orderly(c, s, sink)
    requires |es| > 0 && Batch(c, BitRecords(es)) && StagedValid(c, s)
    requires t.Branch? && !(SharedBits(t, BitRecords(es)) < |Path(t)|)
    ensures Lands(c, s, full, sink, SinkMerge(c, s, full, TreeDigest(c, t), es, k, sink), Merge(t, BitRecords(es)))
    decreases t, |es|, 0
  {
    hide SinkNode, SinkBranch, Orderly, Persisted, Fit, Lands, ReadStaged, Batch, StagedValid, ToBits, TreeDigest, SharedWithNode, SharedBits,
         SinkSide, Merge, Partition, PartitionBytes, Mergeable, ValidPath;
    var rs, split := BitRecords(es), |t.path|;
    WFOf(c, s, t, k);
    MergeableSides(c, s, t, k);
    WFOf(c, s, t.left, ChildConstraint(t.path, false));
    SinkMergeAtBranch(c, s, full, t, es, k, sink);
    PartitionIs(es, split);
    PartitionRefuses(rs, split);
    PartitionBounds(rs, split);
    MergeAtBranch(t, rs);
    var n := Partition(rs, split);
    if n.Ok? {
      BitRecordsSlices(es, n.value);
      BatchSplit(c, rs, n.value);
      var left := SinkSide(c, s, full, TreeDigest(c, t.left), es[..n.value], ChildConstraint(t.path, false), sink);
      SinkSideTree(c, s, full, t.left, es[..n.value], ChildConstraint(t.path, false), sink);
      var l, r := MergeSide(t.left, rs[..n.value]), MergeSide(t.right, rs[n.value..]);
      if left.outcome.Err? {
        LeftFails(c, s, full, sink, t.path, left, l, r);
      } else {
        LandedOrderly(c, s, full, sink, left, l);
        SinkSideTree(c, s, full, t.right, es[n.value..], ChildConstraint(t.path, true), left.sink);
        MergedFit(c, t, rs);
        SidesLand(c, s, full, sink, t.path, left, l,
                  SinkSide(c, s, full, TreeDigest(c, t.right), es[n.value..], ChildConstraint(t.path, true), left.sink), r);
      }
    } else {
      Refused(c, s, full, sink);
    }
  }

  lemma SinkMergeAtBranch(c: Codec, s: Source, full: Policy, t: Tree, es: Entries, k: Constraint, sink: Sink)
    requires Faithful(c) && Mergeable(c, s, t, k) && StagedValid(c, s)
    requires |es| > 0 && t.Branch? && !(SharedBits(t, BitRecords(es)) < |Path(t)|)
    requires |t.path| < MAX_KEY_BITS
    ensures PartitionBytes(es, |t.path|).Ok? ==> PartitionBytes(es, |t.path|).value <= |es|
    ensures var n := PartitionBytes(es, |t.path|);
      SinkMerge(c, s, full, TreeDigest(c, t), es, k, sink)
        == if n.Err? then Sinking(Err(Patricia(n.error)), sink)
           else var left := SinkSide(c, s, full, TreeDigest(c, t.left), es[..n.value], ChildConstraint(t.path, false), sink);
             if left.outcome.Err? then left
             else SinkBranch(c, full, Pack(t.path), |t.path|, left.outcome.value,
                             SinkSide(c, s, full, TreeDigest(c, t.right), es[n.value..], ChildConstraint(t.path, true), left.sink))
  {
    hide SinkSide, SinkBranch, TreeDigest, ReadStaged, SharedWithNode, SharedBits, PartitionBytes, ValidPath, Authentic, Persisted, StagedValid;
    MergeReads(c, s, t, k);
    SharedIsBits(c, t, es);
    PartitionBytesBounds(es, |t.path|);
  }

  lemma MergeAtBranch(t: Tree, rs: Records)
    requires t.Branch? && |rs| > 0 && !(SharedBits(t, rs) < |Path(t)|)
    ensures Partition(rs, |t.path|).Ok? ==> Partition(rs, |t.path|).value <= |rs|
    ensures var n := Partition(rs, |t.path|);
      Merge(t, rs) == if n.Err? then Err(n.error) else Joined(t.path, MergeSide(t.left, rs[..n.value]), MergeSide(t.right, rs[n.value..]))
  {
    PartitionBounds(rs, |t.path|);
  }

  lemma LandedOrderly(c: Codec, s: Source, full: Policy, before: Sink, r: Sinking, o: Outcome<Tree>)
    requires Lands(c, s, full, before, r, o)
    ensures Orderly(c, s, r.sink)
  {
  }

  lemma MergeableSides(c: Codec, s: Source, t: Tree, k: Constraint)
    requires Faithful(c) && Mergeable(c, s, t, k) && t.Branch?
    ensures Mergeable(c, s, t.left, ChildConstraint(t.path, false))
    ensures Mergeable(c, s, t.right, ChildConstraint(t.path, true))
    ensures Intact(c, s)
  {
    hide ReadNode, ValidPath;
    ChildPathValid(c, t.path, false, t.left);
    ChildPathValid(c, t.path, true, t.right);
  }

  lemma {:induction false} SinkMergeAbove(c: Codec, s: Source, full: Policy, t: Tree, es: Entries, k: Constraint, sink: Sink)
    requires Faithful(c) && Mergeable(c, s, t, k) && Orderly(c, s, sink)
    requires |es| > 0 && Batch(c, BitRecords(es)) && StagedValid(c, s)
    requires SharedBits(t, BitRecords(es)) < |Path(t)|
    ensures Lands(c, s, full, sink, SinkMerge(c, s, full, TreeDigest(c, t), es, k, sink), Merge(t, BitRecords(es)))
    decreases t, |es|, 1
  {
    hide SinkNode, SinkBranch, Orderly, Persisted, Fit, Lands, ReadStaged, Batch, StagedValid, ToBits, TreeDigest, NodeOf, SharedWithNode, SharedBits,
         SinkSide, MergeSide, Partition, PartitionBytes, Mergeable, ValidPath, NodePrefix, KeyBit, MaskedPrefix, SinkRecords, Build, Path;
    var rs := BitRecords(es);
    var shared := SharedBits(t, rs);
    MergeReads(c, s, t, k);
    WFOf(c, s, t, k);
    SharedIsBits(c, t, es);
    PrefixSpellsPath(c, t);
    PrefixBit(c, t, shared);
    PartitionIs(es, shared);
    PartitionRefuses(rs, shared);
    PartitionBounds(rs, shared);
    var n := Partition(rs, shared);
    if n.Err? || (if Path(t)[shared] then n.value == 0 else n.value == |rs|) {
      Refused(c, s, full, sink);
    } else if Path(t)[shared] {
      SinkAboveRight(c, s, full, t, es, k, sink, shared, n.value);
    } else {
      SinkAboveLeft(c, s, full, t, es, k, sink, shared, n.value);
    }
  }

  lemma WFOf(c: Codec, s: Source, t: Tree, k: Constraint)
    requires Mergeable(c, s, t, k)
    ensures Fit(c, t) && Intact(c, s) && Floor(k) <= MAX_KEY_BITS && ValidPath(NodeOf(c, t), k)
  {
  }

  /** The prefix of the branch placed above a node, as bytes. */
  lemma PrefixAbove(c: Codec, t: Tree, shared: nat)
    requires WF(t) && shared < |Path(t)|
    ensures MaskedPrefix(NodePrefix(NodeOf(c, t)), shared) == Pack(Path(t)[..shared])
  {
    hide MaskedPrefix, ToBits;
    var n := NodeOf(c, t);
    PrefixSpellsPath(c, t);
    MaskedPrefixIs(NodePrefix(n), shared);
    assert ToBits(NodePrefix(n))[..shared] == ToBits(NodePrefix(n))[..|Path(t)|][..shared];
  }

  lemma MergeAboveIs(t: Tree, rs: Records, shared: nat, n: nat)
    requires |rs| > 0 && shared == SharedBits(t, rs) < |Path(t)| && Partition(rs, shared) == Ok(n)
    ensures n <= |rs|
    ensures Path(t)[shared] && n > 0 ==>
      Merge(t, rs) == Joined(Path(t)[..shared], Build(rs[..n]), MergeSide(t, rs[n..]))
    ensures !Path(t)[shared] && n < |rs| ==>
      Merge(t, rs) == Joined(Path(t)[..shared], MergeSide(t, rs[..n]), Build(rs[n..]))
  {
    PartitionBounds(rs, shared);
  }

  lemma {:induction false} SinkAboveRight(c: Codec, s: Source, full: Policy, t: Tree, es: Entries, k: Constraint, sink: Sink, shared: nat, n: nat)
    requires Faithful(c) && Mergeable(c, s, t, k) && Orderly(c, s, sink)
    requires |es| > 0 && Batch(c, BitRecords(es)) && StagedValid(c, s) && Floor(k) <= MAX_KEY_BITS && Fit(c, t)
    requires shared == SharedBits(t, BitRecords(es)) < |Path(t)| && Path(t)[shared]
    requires Partition(BitRecords(es), shared) == Ok(n) && 0 < n <= |es|
    ensures Lands(c, s, full, sink, SinkAbove(c, s, full, TreeDigest(c, t), NodeOf(c, t), es, k, sink, shared), Merge(t, BitRecords(es)))
    decreases t, |es|, 0
  {
    hide SinkNode, SinkBranch, Orderly, Persisted, Fit, Lands, Batch, StagedValid, ToBits, TreeDigest, NodeOf, SharedBits,
         SinkSide, Merge, MergeSide, Partition, PartitionBytes, Mergeable, ValidPath, NodePrefix, KeyBit, MaskedPrefix, SinkRecords, Build, Path;
    var rs := BitRecords(es);
    var path := Path(t)[..shared];
    WFOf(c, s, t, k);
    PrefixBit(c, t, shared);
    PrefixAbove(c, t, shared);
    PartitionIs(es, shared);
    MergeAboveIs(t, rs, shared, n);
    BitRecordsSlices(es, n);
    BatchSplit(c, rs, n);
    var left := SinkRecords(c, full, es[..n], sink);
    SinkRecordsTree(c, s, full, es[..n], sink);
    var l, r := Build(rs[..n]), MergeSide(t, rs[n..]);
    if left.outcome.Err? {
      LeftFails(c, s, full, sink, path, left, l, r);
    } else {
      LandedOrderly(c, s, full, sink, left, l);
      SinkSideTree(c, s, full, t, es[n..], k, left.sink);
      MergedFit(c, t, rs);
      SidesLand(c, s, full, sink, path, left, l, SinkSide(c, s, full, TreeDigest(c, t), es[n..], k, left.sink), r);
    }
  }

  lemma {:induction false} SinkAboveLeft(c: Codec, s: Source, full: Policy, t: Tree, es: Entries, k: Constraint, sink: Sink, shared: nat, n: nat)
    requires Faithful(c) && Mergeable(c, s, t, k) && Orderly(c, s, sink)
    requires |es| > 0 && Batch(c, BitRecords(es)) && StagedValid(c, s) && Floor(k) <= MAX_KEY_BITS && Fit(c, t)
    requires shared == SharedBits(t, BitRecords(es)) < |Path(t)| && !Path(t)[shared]
    requires Partition(BitRecords(es), shared) == Ok(n) && n < |es|
    ensures Lands(c, s, full, sink, SinkAbove(c, s, full, TreeDigest(c, t), NodeOf(c, t), es, k, sink, shared), Merge(t, BitRecords(es)))
    decreases t, |es|, 0
  {
    hide SinkNode, SinkBranch, Orderly, Persisted, Fit, Lands, Batch, StagedValid, ToBits, TreeDigest, NodeOf, SharedBits,
         SinkSide, Merge, MergeSide, Partition, PartitionBytes, Mergeable, ValidPath, NodePrefix, KeyBit, MaskedPrefix, SinkRecords, Build, Path;
    var rs := BitRecords(es);
    var path := Path(t)[..shared];
    WFOf(c, s, t, k);
    PrefixBit(c, t, shared);
    PrefixAbove(c, t, shared);
    PartitionIs(es, shared);
    MergeAboveIs(t, rs, shared, n);
    BitRecordsSlices(es, n);
    BatchSplit(c, rs, n);
    var left := SinkSide(c, s, full, TreeDigest(c, t), es[..n], k, sink);
    SinkSideTree(c, s, full, t, es[..n], k, sink);
    var l, r := MergeSide(t, rs[..n]), Build(rs[n..]);
    if left.outcome.Err? {
      LeftFails(c, s, full, sink, path, left, l, r);
    } else {
      LandedOrderly(c, s, full, sink, left, l);
      SinkRecordsTree(c, s, full, es[n..], left.sink);
      MergedFit(c, t, rs);
      SidesLand(c, s, full, sink, path, left, l, SinkRecords(c, full, es[n..], left.sink), r);
    }
  }

  // ----- deriving a complete root without storing anything -----

  function DigestNode(c: Codec, n: Node): Outcome<Digest> {
    if !ValidNode(c, n) || |c.encode(n)| > MAX_VALID_NODE_BYTES || |c.encode(n)| > MAX_NODE_BYTES then Err(Malformed)
    else Ok(DigestOf(c, n))
  }

  function DeriveBranch(c: Codec, prefix: Bytes, bits: nat, left: Outcome<Digest>, right: Outcome<Digest>): Outcome<Digest> {
    if left.Err? then left
    else if right.Err? then right
    else DigestNode(c, BranchNode(NODE_SCHEMA_VERSION, prefix, bits, left.value, right.value))
  }

  function DeriveRecords(c: Codec, es: Entries): Outcome<Digest>
    decreases |es|
  {
    if |es| == 0 then Err(Malformed)
    else if |es| == 1 then DigestNode(c, NewLeaf(es[0].key, es[0].value))
    else
      var first, last := es[0].key, es[|es| - 1].key;
      var split := CommonPrefixBits(first, last, BitLen(first));
      PartitionBytesBounds(es, split);
      var n := PartitionBytes(es, split);
      if n.Err? then Err(n.error)
      else if n.value == 0 || n.value == |es| then Err(Malformed)
      else DeriveBranch(c, MaskedPrefix(first, split), split, DeriveRecords(c, es[..n.value]), DeriveRecords(c, es[n.value..]))
  }

  function DigestOutcome(c: Codec, o: Outcome<Tree>): Outcome<Digest> {
    match o
    case Ok(t) => Ok(TreeDigest(c, t))
    case Err(_) => Err(Malformed)
  }

  lemma DigestTree(c: Codec, t: Tree)
    requires Faithful(c) && Fit(c, t)
    ensures DigestNode(c, NodeOf(c, t)) == Ok(TreeDigest(c, t))
  {
    NodeOfIsValid(c, t);
  }

  /** The derivation is the digest of the tree the builder makes. */
  lemma {:induction false} DeriveRecordsTree(c: Codec, es: Entries)
    requires Faithful(c) && |es| > 0 && Batch(c, BitRecords(es))
    ensures DeriveRecords(c, es) == DigestOutcome(c, Build(BitRecords(es)))
    decreases |es|
  {
    hide Fit, Pack, CommonPrefixBits, MaskedPrefix, ToBits, Partition, PartitionBytes, Batch, DigestNode;
    var rs := BitRecords(es);
    BuiltFit(c, rs);
    if |es| == 1 {
      PackOfKey(es[0].key);
      DigestTree(c, Leaf(rs[0].key, rs[0].value));
    } else {
      SplitOfBatch(es);
      var split := CommonPrefix(rs[0].key, rs[|rs| - 1].key);
      PartitionIs(es, split);
      PartitionBounds(rs, split);
      PartitionRefuses(rs, split);
      var n := Partition(rs, split);
      if n.Ok? && 0 < n.value < |rs| {
        BitRecordsSlices(es, n.value);
        BatchSplit(c, rs, n.value);
        DeriveRecordsTree(c, es[..n.value]);
        DeriveRecordsTree(c, es[n.value..]);
        if Build(rs).Ok? {
          DigestTree(c, Build(rs).value);
        }
      }
    }
  }

  // ----- the loops and the mutable sink -----

  class ConstructionSink {
    const full: Policy
    var entries: map<Digest, Bytes>
    var order: seq<Digest>
    var payload: nat

    constructor (full: Policy)
      ensures this.full == full && View() == EMPTY_SINK
    {
      this.full, entries, order, payload := full, map[], [], 0;
    }

    function View(): Sink
      reads this
    {
      Sink(entries, order, payload)
    }

    method Take(c: Codec, d: Digest, bytes: Bytes) returns (r: Result<Digest, SinkError>)
      modifies this
      ensures Sinking(r, View()) == Accept(c, full, old(View()), d, bytes)
    {
      if |bytes| == 0 || |bytes| > MAX_PACK_ENTRY_BYTES {
        return Err(Patricia(Malformed));
      }
      if c.of(bytes) != d {
        return Err(Patricia(PathMismatch(d)));
      }
      if d in entries {
        return if entries[d] == bytes then Ok(d) else Err(Patricia(PathMismatch(d)));
      }
      var nextEntries, nextPayload := |entries| + 1, payload + |bytes|;
      if EncodedBytes(nextEntries, nextPayload) > MAX_CATALOG_PACK_BYTES || full(nextEntries, nextPayload) {
        return Err(Capacity);
      }
      payload := nextPayload;
      order := order + [d];
      entries := entries[d := bytes];
      return Ok(d);
    }

    method TakeNode(c: Codec, n: Node) returns (r: Result<Digest, SinkError>)
      modifies this
      ensures Sinking(r, View()) == SinkNode(c, full, old(View()), n)
    {
      if !ValidNode(c, n) {
        return Err(Patricia(Malformed));
      }
      var bytes := c.encode(n);
      if |bytes| > MAX_VALID_NODE_BYTES || |bytes| > MAX_NODE_BYTES {
        return Err(Patricia(Malformed));
      }
      r := Take(c, c.of(bytes), bytes);
    }
  }

  /** A count found further on, counted from the start. */
  function Advanced(n: nat, o: Outcome<nat>): Outcome<nat> {
    match o
    case Ok(m) => Ok(n + m)
    case Err(e) => Err(e)
  }

  lemma PartitionZero(es: Entries, split: nat, n: nat)
    requires n < |es| && split < BitLen(es[n].key) && !KeyBit(es[n].key, split)
    ensures Advanced(n, PartitionBytes(es[n..], split)) == Advanced(n + 1, PartitionBytes(es[n + 1..], split))
  {
  }

  lemma PartitionOnes(es: Entries, split: nat, n: nat)
    requires n <= |es|
    requires forall j :: n <= j < |es| ==> split < BitLen(es[j].key) && KeyBit(es[j].key, split)
    ensures PartitionBytes(es[n..], split) == Ok(0)
  {
  }

  lemma PartitionMixed(es: Entries, split: nat, n: nat, i: nat)
    requires n <= i < |es| && (split >= BitLen(es[i].key) || !KeyBit(es[i].key, split))
    requires split >= BitLen(es[n].key) || KeyBit(es[n].key, split)
    ensures PartitionBytes(es[n..], split) == Err(Malformed)
  {
  }

  /** Counts the leading zeros at bit `split`, then checks that only ones follow. */
  method BulkPartition(es: Entries, split: nat) returns (r: Outcome<nat>)
    ensures r == PartitionBytes(es, split)
  {
    hide KeyBit, PartitionBytes;
    var n := 0;
    assert es[0..] == es;
    while n < |es| && split < BitLen(es[n].key) && !KeyBit(es[n].key, split)
      invariant n <= |es|
      invariant PartitionBytes(es, split) == Advanced(n, PartitionBytes(es[n..], split))
    {
      PartitionZero(es, split, n);
      n := n + 1;
    }
    for i := n to |es|
      invariant forall j :: n <= j < i ==> split < BitLen(es[j].key) && KeyBit(es[j].key, split)
    {
      if split >= BitLen(es[i].key) || !KeyBit(es[i].key, split) {
        PartitionMixed(es, split, n, i);
        return Err(Malformed);
      }
    }
    PartitionOnes(es, split, n);
    return Ok(n);
  }

  method SinkBulkRecords(c: Codec, es: Entries, sink: ConstructionSink) returns (r: Result<Digest, SinkError>)
    modifies sink
    ensures Sinking(r, sink.View()) == SinkRecords(c, sink.full, es, old(sink.View()))
    decreases |es|
  {
    hide SinkNode, PartitionBytes, CommonPrefixBits, MaskedPrefix;
    if |es| == 0 {
      return Err(Patricia(Malformed));
    }
    if |es| == 1 {
      r := sink.TakeNode(c, NewLeaf(es[0].key, es[0].value));
      return;
    }
    var split := CommonPrefixBits(es[0].key, es[|es| - 1].key, BitLen(es[0].key));
    var partition := BulkPartition(es, split);
    PartitionBytesBounds(es, split);
    if partition.Err? {
      return Err(Patricia(partition.error));
    }
    var n := partition.value;
    if n == 0 || n == |es| {
      return Err(Patricia(Malformed));
    }
    var left := SinkBulkRecords(c, es[..n], sink);
    if left.Err? {
      return left;
    }
    var right := SinkBulkRecords(c, es[n..], sink);
    if right.Err? {
      return right;
    }
    r := sink.TakeNode(c, BranchNode(NODE_SCHEMA_VERSION, MaskedPrefix(es[0].key, split), split, left.value, right.value));
  }

  method SinkBulkInsertAt(c: Codec, s: Source, d: Digest, es: Entries, k: Constraint, sink: ConstructionSink)
    returns (r: Result<Digest, SinkError>)
    requires StagedValid(c, s) && Floor(k) <= MAX_KEY_BITS
    modifies sink
    ensures Sinking(r, sink.View()) == SinkMerge(c, s, sink.full, d, es, k, old(sink.View()))
    decreases MAX_KEY_BITS - Floor(k), |es|, 1
  {
    hide SinkNode, PartitionBytes, CommonPrefixBits, MaskedPrefix, ReadStaged, SharedWithNode, StagedValid, ValidPath, KeyBit;
    ReadWithinBounds(c, s, d, k);
    var read := ReadStaged(c, s, d);
    if read.Err? {
      return Err(Patricia(read.error));
    }
    var node := read.value;
    if !ValidPath(node, k) || |es| == 0 {
      return Err(Patricia(Malformed));
    }
    var shared := SharedWithNode(node, es);
    if shared < NodePrefixBits(node) {
      r := SinkBulkAbove(c, s, d, node, es, k, sink, shared);
      return;
    }
    if node.LeafNode? {
      if |es| != 1 || es[0].key != node.key {
        return Err(Patricia(Malformed));
      }
      if es[0].value == node.value {
        return Ok(d);
      }
      r := sink.TakeNode(c, NewLeaf(es[0].key, es[0].value));
      return;
    }
    var split := node.prefixBits;
    var partition := BulkPartition(es, split);
    PartitionBytesBounds(es, split);
    if partition.Err? {
      return Err(Patricia(partition.error));
    }
    var n := partition.value;
    var left := Ok(node.left);
    if n > 0 {
      left := SinkBulkInsertAt(c, s, node.left, es[..n], Below(node.prefix, split, false), sink);
    }
    if left.Err? {
      return left;
    }
    var right := Ok(node.right);
    if n < |es| {
      right := SinkBulkInsertAt(c, s, node.right, es[n..], Below(node.prefix, split, true), sink);
    }
    if right.Err? {
      return right;
    }
    r := sink.TakeNode(c, BranchNode(NODE_SCHEMA_VERSION, node.prefix, split, left.value, right.value));
  }

  method SinkBulkAbove(c: Codec, s: Source, d: Digest, node: Node, es: Entries, k: Constraint, sink: ConstructionSink, shared: nat)
    returns (r: Result<Digest, SinkError>)
    requires StagedValid(c, s) && Floor(k) <= MAX_KEY_BITS && |es| > 0
    modifies sink
    ensures Sinking(r, sink.View()) == SinkAbove(c, s, sink.full, d, node, es, k, old(sink.View()), shared)
    decreases MAX_KEY_BITS - Floor(k), |es|, 0
  {
    hide SinkNode, PartitionBytes, CommonPrefixBits, MaskedPrefix, ReadStaged, SharedWithNode, StagedValid, ValidPath, KeyBit, SinkMerge, SinkRecords;
    var prefix := NodePrefix(node);
    var partition := BulkPartition(es, shared);
    PartitionBytesBounds(es, shared);
    if partition.Err? {
      return Err(Patricia(partition.error));
    }
    var n := partition.value;
    if shared >= BitLen(prefix) {
      return Err(Patricia(Malformed));
    }
    var left, right := Ok(d), Ok(d);
    if KeyBit(prefix, shared) {
      if n == 0 {
        return Err(Patricia(Malformed));
      }
      left := SinkBulkRecords(c, es[..n], sink);
      if left.Err? {
        return left;
      }
      if n < |es| {
        right := SinkBulkInsertAt(c, s, d, es[n..], k, sink);
      }
    } else {
      if n == |es| {
        return Err(Patricia(Malformed));
      }
      if n > 0 {
        left := SinkBulkInsertAt(c, s, d, es[..n], k, sink);
      }
      if left.Err? {
        return left;
      }
      right := SinkBulkRecords(c, es[n..], sink);
    }
    if right.Err? {
      return right;
    }
    r := sink.TakeNode(c, BranchNode(NODE_SCHEMA_VERSION, MaskedPrefix(prefix, shared), shared, left.value, right.value));
  }
}
