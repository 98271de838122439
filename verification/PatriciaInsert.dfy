/**
 Path-copying insertion: read down from a root, stage the new leaf and split,
 then stage a copy of every branch on the way back up.

 `InsertFrom` is the insertion as a function of any store, whether well-formed or
 not, which the loop computes; over a readable tree it is the insertion of
 `PatriciaPoint`, node for node.
 */
module PatriciaInsert {
  import opened Wrappers
  import opened BitStrings
  import opened KeyBits
  import opened PrefixBytes
  import opened ContentAddress
  import opened PatriciaTree
  import opened PatriciaPoint
  import opened PatriciaNodes
  import opened PatriciaLookup

  /** An outcome together with the staged nodes it leaves, also on failure. */
  datatype Staging = Staging(outcome: Outcome<Digest>, staged: map<Digest, Node>)

  /** A branch on the path, remembered while descending. */
  datatype Frame = Frame(prefix: Bytes, bits: nat, left: Digest, right: Digest, rightward: bool)

  /** Checks a node and adds it under its digest unless that is taken. */
  function Stage(c: Codec, staged: map<Digest, Node>, n: Node): Staging {
    if !ValidNode(c, n) || |c.encode(n)| > MAX_VALID_NODE_BYTES || |c.encode(n)| > MAX_NODE_BYTES then
      Staging(Err(Malformed), staged)
    else
      Staging(Ok(DigestOf(c, n)), if DigestOf(c, n) in staged then staged else staged[DigestOf(c, n) := n])
  }

  function NewLeaf(key: Bytes, value: Bytes): Node {
    LeafNode(NODE_SCHEMA_VERSION, key, value)
  }

  /** The branch over an existing node and a leaf that part at bit `shared`. */
  function StageSplit(c: Codec, staged: map<Digest, Node>, key: Bytes, shared: nat, existing: Digest, prefix: Bytes, leaf: Digest): Staging {
    if shared >= BitLen(key) || shared >= BitLen(prefix) || KeyBit(key, shared) == KeyBit(prefix, shared) then
      Staging(Err(Malformed), staged)
    else if KeyBit(key, shared) then
      Stage(c, staged, BranchNode(NODE_SCHEMA_VERSION, MaskedPrefix(key, shared), shared, existing, leaf))
    else
      Stage(c, staged, BranchNode(NODE_SCHEMA_VERSION, MaskedPrefix(key, shared), shared, leaf, existing))
  }

  function StageLeafAndSplit(c: Codec, staged: map<Digest, Node>, key: Bytes, value: Bytes, shared: nat, existing: Digest, prefix: Bytes): Staging {
    var leaf := Stage(c, staged, NewLeaf(key, value));
    if leaf.outcome.Err? then leaf
    else StageSplit(c, leaf.staged, key, shared, existing, prefix, leaf.outcome.value)
  }

  /** One ancestor copied over its changed child; failures pass through. */
  function Rebuild(c: Codec, f: Frame, child: Staging): Staging {
    if child.outcome.Err? then child
    else
      var d := child.outcome.value;
      Stage(c, child.staged,
            BranchNode(NODE_SCHEMA_VERSION, f.prefix, f.bits, if f.rightward then f.left else d, if f.rightward then d else f.right))
  }

  function FrameOf(n: Node, rightward: bool): Frame
    requires n.BranchNode?
  {
    Frame(n.prefix, n.prefixBits, n.left, n.right, rightward)
  }

  /** The insertion below one digest of any store. */
  function InsertFrom(c: Codec, s: Source, d: Digest, k: Constraint, key: Bytes, value: Bytes, remaining: nat): Staging
    decreases remaining
  {
    if remaining == 0 then Staging(Err(BudgetExhausted), s.staged)
    else match ReadStaged(c, s, d)
      case Err(e) => Staging(Err(e), s.staged)
      case Ok(node) =>
        if !ValidPath(node, k) then Staging(Err(Malformed), s.staged)
        else InsertAt(c, s, d, node, key, value, remaining)
  }

  function InsertAt(c: Codec, s: Source, d: Digest, node: Node, key: Bytes, value: Bytes, remaining: nat): Staging
    requires remaining > 0
    decreases remaining, 0
  {
    var shared := CommonPrefixBits(key, NodePrefix(node), NodePrefixBits(node));
    if shared < NodePrefixBits(node) then
      StageLeafAndSplit(c, s.staged, key, value, shared, d, NodePrefix(node))
    else if node.LeafNode? then
      if node.key != key then
        StageLeafAndSplit(c, s.staged, key, value, CommonPrefixBits(key, node.key, BitLen(key)), d, node.key)
      else if node.value == value then Staging(Ok(d), s.staged)
      else Stage(c, s.staged, NewLeaf(key, value))
    else if node.prefixBits >= BitLen(key) then Staging(Err(Malformed), s.staged)
    else
      var rightward := KeyBit(key, node.prefixBits);
      Rebuild(c, FrameOf(node, rightward),
              InsertFrom(c, s, if rightward then node.right else node.left,
                         Below(node.prefix, node.prefixBits, rightward), key, value, remaining - 1))
  }

  function InsertRoot(c: Codec, s: Source, root: Digest, key: Bytes, value: Bytes): Staging {
    if root == EmptyRoot(c) then Stage(c, s.staged, NewLeaf(key, value))
    else InsertFrom(c, s, root, Unconstrained, key, value, NodeBudget(|key|))
  }

  /** Copying all remembered ancestors, nearest first. */
  function Climb(c: Codec, frames: seq<Frame>, r: Staging): Staging
    decreases |frames|
  {
    if |frames| == 0 then r
    else Climb(c, frames[..|frames| - 1], Rebuild(c, frames[|frames| - 1], r))
  }

  lemma {:induction false} ClimbFailure(c: Codec, frames: seq<Frame>, r: Staging)
    requires r.outcome.Err?
    ensures Climb(c, frames, r) == r
    decreases |frames|
  {
    if |frames| > 0 {
      ClimbFailure(c, frames[..|frames| - 1], r);
    }
  }

  /** In-memory nodes that a mutation has produced but not yet published. */
  class StagedNodes {
    var nodes: map<Digest, Node>

    constructor ()
      ensures nodes == map[]
    {
      nodes := map[];
    }

    method StageNode(c: Codec, n: Node) returns (r: Outcome<Digest>)
      modifies this
      ensures Staging(r, nodes) == Stage(c, old(nodes), n)
    {
      if !ValidNode(c, n) {
        return Err(Malformed);
      }
      var bytes := c.encode(n);
      if |bytes| > MAX_VALID_NODE_BYTES || |bytes| > MAX_NODE_BYTES {
        return Err(Malformed);
      }
      var digest := c.of(bytes);
      if digest !in nodes {
        nodes := nodes[digest := n];
      }
      return Ok(digest);
    }
  }

  method StageLeafThenSplit(c: Codec, staged: StagedNodes, key: Bytes, value: Bytes, shared: nat, existing: Digest, prefix: Bytes)
    returns (r: Outcome<Digest>)
    modifies staged
    ensures Staging(r, staged.nodes) == StageLeafAndSplit(c, old(staged.nodes), key, value, shared, existing, prefix)
  {
    var leaf := staged.StageNode(c, NewLeaf(key, value));
    if leaf.Err? {
      return leaf;
    }
    if shared >= BitLen(key) || shared >= BitLen(prefix) {
      return Err(Malformed);
    }
    var keyRight, existingRight := KeyBit(key, shared), KeyBit(prefix, shared);
    if keyRight == existingRight {
      return Err(Malformed);
    }
    var left, right := if keyRight then existing else leaf.value, if keyRight then leaf.value else existing;
    r := staged.StageNode(c, BranchNode(NODE_SCHEMA_VERSION, MaskedPrefix(key, shared), shared, left, right));
  }

  /** Staging the copies of all ancestors, nearest first. */
  method RebuildAncestors(c: Codec, staged: StagedNodes, ancestors: seq<Frame>, replacement: Digest) returns (r: Outcome<Digest>)
    modifies staged
    ensures Staging(r, staged.nodes) == Climb(c, ancestors, Staging(Ok(replacement), old(staged.nodes)))
  {
    hide Stage;
    var child, n := replacement, |ancestors|;
    assert ancestors[..n] == ancestors;
    while n > 0
      invariant 0 <= n <= |ancestors|
      invariant Climb(c, ancestors[..n], Staging(Ok(child), staged.nodes)) == Climb(c, ancestors, Staging(Ok(replacement), old(staged.nodes)))
    {
      var f := ancestors[n - 1];
      assert ancestors[..n] == ancestors[..n - 1] + [f];
      r := staged.StageNode(c, BranchNode(NODE_SCHEMA_VERSION, f.prefix, f.bits,
                                          if f.rightward then f.left else child, if f.rightward then child else f.right));
      if r.Err? {
        ClimbFailure(c, ancestors[..n - 1], Staging(r, staged.nodes));
        return;
      }
      child, n := r.value, n - 1;
    }
    return Ok(child);
  }

  /** The insertion loop: descend, change the bottom, rebuild the path. */
  method InsertAtStaged(c: Codec, loose: map<Digest, Bytes>, packed: map<Digest, Bytes>, root: Digest, key: Bytes, value: Bytes, staged: StagedNodes)
    returns (r: Outcome<Digest>)
    modifies staged
    ensures Staging(r, staged.nodes)
         == InsertFrom(c, Source(loose, packed, old(staged.nodes)), root, Unconstrained, key, value, NodeBudget(|key|))
  {
    hide ReadStaged, ValidPath, CommonPrefixBits, KeyBit, Rebuild, StageLeafAndSplit, Stage;
    var s := Source(loose, packed, staged.nodes);
    var digest, constraint, remaining, ancestors := root, Unconstrained, NodeBudget(|key|), [];
    while true
      invariant staged.nodes == s.staged
      invariant Climb(c, ancestors, InsertFrom(c, s, digest, constraint, key, value, remaining))
             == InsertFrom(c, s, root, Unconstrained, key, value, NodeBudget(|key|))
      decreases remaining
    {
      ghost var here := InsertFrom(c, s, digest, constraint, key, value, remaining);
      if here.outcome.Err? {
        ClimbFailure(c, ancestors, here);
      }
      if remaining == 0 {
        return Err(BudgetExhausted);
      }
      var read := ReadStaged(c, s, digest);
      if read.Err? {
        return Err(read.error);
      }
      var node := read.value;
      if !ValidPath(node, constraint) {
        return Err(Malformed);
      }
      assert here == InsertAt(c, s, digest, node, key, value, remaining);
      var shared := CommonPrefixBits(key, NodePrefix(node), NodePrefixBits(node));
      if shared < NodePrefixBits(node) || node.LeafNode? {
        var bottom := ChangeBottom(c, staged, digest, node, shared, key, value);
        assert Staging(bottom, staged.nodes) == here;
        if bottom.Err? {
          return bottom;
        }
        r := RebuildAncestors(c, staged, ancestors, bottom.value);
        return;
      }
      if node.prefixBits >= BitLen(key) {
        return Err(Malformed);
      }
      var rightward := KeyBit(key, node.prefixBits);
      digest := if rightward then node.right else node.left;
      constraint := Below(node.prefix, node.prefixBits, rightward);
      remaining := remaining - 1;
      ancestors := ancestors + [FrameOf(node, rightward)];
    }
  }

  /** The node where the descent ends: a split above it, or a leaf replaced or kept. */
  method ChangeBottom(c: Codec, staged: StagedNodes, digest: Digest, node: Node, shared: nat, key: Bytes, value: Bytes)
    returns (r: Outcome<Digest>)
    requires shared == CommonPrefixBits(key, NodePrefix(node), NodePrefixBits(node))
    requires shared < NodePrefixBits(node) || node.LeafNode?
    modifies staged
    ensures forall s: Source, remaining: nat :: s.staged == old(staged.nodes) && remaining > 0 ==>
      Staging(r, staged.nodes) == InsertAt(c, s, digest, node, key, value, remaining)
  {
    hide CommonPrefixBits, StageLeafAndSplit, Stage;
    if shared < NodePrefixBits(node) {
      r := StageLeafThenSplit(c, staged, key, value, shared, digest, NodePrefix(node));
    } else if node.key == key {
      if node.value == value {
        return Ok(digest);
      }
      r := staged.StageNode(c, NewLeaf(key, value));
    } else {
      var common := CommonPrefixBits(key, node.key, BitLen(key));
      r := StageLeafThenSplit(c, staged, key, value, common, digest, node.key);
    }
  }

  // ----- what the insertion does to trees -----

  /** Every staged node kept, and only nodes in play added, at their own digests. */
  ghost predicate Grown(c: Codec, before: map<Digest, Node>, after: map<Digest, Node>) {
    && (forall d :: d in before ==> d in after && after[d] == before[d])
    && (forall d :: d in after && d !in before ==> Played(c, d, after[d]))
  }

  function WithStaged(s: Source, staged: map<Digest, Node>): Source {
    s.(staged := staged)
  }

  lemma PlayedNode(c: Codec, t: Tree, n: Node)
    requires Faithful(c) && Fit(c, t) && Played(c, TreeDigest(c, t), n)
    ensures n == NodeOf(c, t)
  {
    hide Faithful, Fit;
    var u :| Fit(c, u) && TreeDigest(c, u) == TreeDigest(c, t) && NodeOf(c, u) == n;
    SameNode(c, u, t);
  }

  /** A readable tree stays readable, node for node, whatever is staged later. */
  lemma {:induction false} ReadableGrows(c: Codec, s: Source, staged: map<Digest, Node>, t: Tree)
    requires Faithful(c) && Fit(c, t) && Grown(c, s.staged, staged) && Readable(c, s, t)
    ensures Readable(c, WithStaged(s, staged), t)
  {
    hide Faithful;
    var d := TreeDigest(c, t);
    if d in staged && d !in s.staged {
      PlayedNode(c, t, staged[d]);
    }
    if t.Branch? {
      ReadableGrows(c, s, staged, t.left);
      ReadableGrows(c, s, staged, t.right);
    }
  }

  lemma TopsGrows(c: Codec, s: Source, staged: map<Digest, Node>, e: Digest)
    requires Faithful(c) && Authentic(c, s) && e in s.staged && Grown(c, s.staged, staged)
    ensures Tops(c, WithStaged(s, staged), e)
  {
    var u := StagedTree(c, s, e);
    ReadableGrows(c, s, staged, u);
  }

  /** Staging the node of a tree whose children are readable makes the tree readable. */
  lemma StageTree(c: Codec, s: Source, t: Tree)
    requires Faithful(c) && Fit(c, t) && Authentic(c, s)
    requires t.Branch? ==> Readable(c, s, t.left) && Readable(c, s, t.right)
    ensures var r := Stage(c, s.staged, NodeOf(c, t));
      && r.outcome == Ok(TreeDigest(c, t))
      && Grown(c, s.staged, r.staged) && Authentic(c, WithStaged(s, r.staged))
      && Readable(c, WithStaged(s, r.staged), t)
  {
    hide Stage, ReadStaged, Grown, NodeOf, Authentic, Readable, WF;
    var r := Stage(c, s.staged, NodeOf(c, t));
    NodeStaged(c, s, t);
    NowReadable(c, s, r.staged, t);
    StillAuthentic(c, s, r.staged, t);
  }

  lemma NodeStaged(c: Codec, s: Source, t: Tree)
    requires Faithful(c) && Fit(c, t) && Authentic(c, s)
    ensures var r, d := Stage(c, s.staged, NodeOf(c, t)), TreeDigest(c, t);
      && r.outcome == Ok(d) && Grown(c, s.staged, r.staged) && r.staged.Keys <= s.staged.Keys + {d}
      && ReadStaged(c, WithStaged(s, r.staged), d) == Ok(NodeOf(c, t))
  {
    hide Authentic, Readable, Fit, NodeOf, Faithful;
    NodeOfIsValid(c, t);
    NodeIsOwn(c, t);
    var d := TreeDigest(c, t);
    assert Played(c, d, NodeOf(c, t));
    if d in s.staged {
      var u := StagedTree(c, s, d);
      SameNode(c, u, t);
    }
  }

  lemma NowReadable(c: Codec, s: Source, staged: map<Digest, Node>, t: Tree)
    requires Faithful(c) && Fit(c, t) && Grown(c, s.staged, staged)
    requires t.Branch? ==> Readable(c, s, t.left) && Readable(c, s, t.right)
    requires ReadStaged(c, WithStaged(s, staged), TreeDigest(c, t)) == Ok(NodeOf(c, t))
    ensures Readable(c, WithStaged(s, staged), t)
  {
    hide ReadStaged, NodeOf, Grown, Faithful;
    if t.Branch? {
      ReadableGrows(c, s, staged, t.left);
      ReadableGrows(c, s, staged, t.right);
    }
  }

  lemma StillAuthentic(c: Codec, s: Source, staged: map<Digest, Node>, t: Tree)
    requires Faithful(c) && Authentic(c, s) && Grown(c, s.staged, staged)
    requires staged.Keys <= s.staged.Keys + {TreeDigest(c, t)} && Fit(c, t) && Readable(c, WithStaged(s, staged), t)
    ensures Authentic(c, WithStaged(s, staged))
  {
    hide Readable, Grown, Fit, NodeOf, Faithful;
    forall e | e in staged ensures Tops(c, WithStaged(s, staged), e) {
      if e in s.staged { TopsGrows(c, s, staged, e); }
    }
  }

  /** The staging delivers tree `u`: its digest, readable, earlier nodes kept. */
  ghost predicate Delivers(c: Codec, s: Source, r: Staging, u: Tree) {
    && r.outcome == Ok(TreeDigest(c, u)) && Fit(c, u)
    && Grown(c, s.staged, r.staged) && Authentic(c, WithStaged(s, r.staged))
    && Readable(c, WithStaged(s, r.staged), u)
  }

  lemma GrownTransitive(c: Codec, x: map<Digest, Node>, y: map<Digest, Node>, z: map<Digest, Node>)
    requires Grown(c, x, y) && Grown(c, y, z)
    ensures Grown(c, x, z)
  {
  }

  lemma LeafDelivered(c: Codec, s: Source, key: Bytes, value: Bytes)
    requires Faithful(c) && Authentic(c, s) && ValidByteKey(key) && ValidValue(value)
    requires c.plays(Record(ToBits(key), value))
    ensures Fit(c, Leaf(ToBits(key), value))
    ensures Delivers(c, s, Stage(c, s.staged, NewLeaf(key, value)), Leaf(ToBits(key), value))
  {
    PackOfKey(key);
    StageTree(c, s, Leaf(ToBits(key), value));
  }

  lemma CommonWithStart(a: Bits, b: Bits, n: nat)
    requires n <= |b|
    ensures CommonPrefix(a, b[..n]) == Least(n, CommonPrefix(a, b))
  {
  }

  /** Counting common bits with a node's prefix bytes counts them with the tree's path. */
  lemma SharedIs(c: Codec, t: Tree, key: Bytes)
    requires WF(t)
    ensures var n := NodeOf(c, t);
      CommonPrefixBits(key, NodePrefix(n), NodePrefixBits(n)) == CommonPrefix(ToBits(key), Path(t))
  {
    var n := NodeOf(c, t);
    PrefixSpellsPath(c, t);
    CommonPrefixBitsIs(key, NodePrefix(n), NodePrefixBits(n));
    CommonWithStart(ToBits(key), ToBits(NodePrefix(n)), |Path(t)|);
  }

  lemma PrefixBit(c: Codec, t: Tree, bit: nat)
    requires WF(t) && bit < |Path(t)|
    ensures var n := NodeOf(c, t); bit < BitLen(NodePrefix(n)) && KeyBit(NodePrefix(n), bit) == Path(t)[bit]
  {
    var n := NodeOf(c, t);
    PrefixSpellsPath(c, t);
    KeyBitIs(NodePrefix(n), bit);
    assert ToBits(NodePrefix(n))[..|Path(t)|][bit] == Path(t)[bit];
  }

  lemma SplitNode(c: Codec, s: Source, t: Tree, key: Bytes, value: Bytes, shared: nat)
    requires WF(t) && shared < |Path(t)| && Split(t, ToBits(key), value, shared).Ok?
    ensures StageSplit(c, s.staged, key, shared, TreeDigest(c, t), NodePrefix(NodeOf(c, t)), DigestOf(c, NewLeaf(key, value)))
         == Stage(c, s.staged, NodeOf(c, Split(t, ToBits(key), value, shared).value))
  {
    hide Stage, KeyBit, MaskedPrefix, WF, DigestOf;
    PrefixBit(c, t, shared);
    KeyBitIs(key, shared);
    MaskedPrefixIs(key, shared);
    PackOfKey(key);
    var leaf := Leaf(ToBits(key), value);
    assert NodeOf(c, leaf) == NewLeaf(key, value);
    assert TreeDigest(c, leaf) == DigestOf(c, NewLeaf(key, value));
    var u := Split(t, ToBits(key), value, shared).value;
    assert Pack(u.path) == MaskedPrefix(key, shared);
    if ToBits(key)[shared] {
      assert u == Branch(ToBits(key)[..shared], t, leaf);
    } else {
      assert u == Branch(ToBits(key)[..shared], leaf, t);
    }
  }

  /** A refused change leaves only well-placed nodes behind. */
  ghost predicate Refuses(c: Codec, s: Source, r: Staging) {
    r.outcome == Err(Malformed) && Grown(c, s.staged, r.staged) && Authentic(c, WithStaged(s, r.staged))
  }

  /** The staging does at the store what `o` says happens to the tree. */
  ghost predicate Mirrors(c: Codec, s: Source, r: Staging, o: Outcome<Tree>) {
    if o.Ok? then Delivers(c, s, r, o.value) else Refuses(c, s, r)
  }

  lemma SplitRefused(c: Codec, t: Tree, key: Bytes, value: Bytes, shared: nat, staged: map<Digest, Node>, existing: Digest, leaf: Digest)
    requires WF(t) && shared == CommonPrefix(ToBits(key), Path(t)) && (shared < |Path(t)| || t.Leaf?)
    requires Split(t, ToBits(key), value, shared).Err?
    ensures StageSplit(c, staged, key, shared, existing, NodePrefix(NodeOf(c, t)), leaf) == Staging(Err(Malformed), staged)
  {
    hide Stage, MaskedPrefix, KeyBit;
    if t.Leaf? {
      PackedKey(t.key);
    }
  }

  lemma SplitDelivered(c: Codec, s: Source, t: Tree, key: Bytes, value: Bytes, shared: nat)
    requires Faithful(c) && Authentic(c, s) && Fit(c, t) && Readable(c, s, t)
    requires ValidByteKey(key) && ValidValue(value) && c.plays(Record(ToBits(key), value))
    requires shared == CommonPrefix(ToBits(key), Path(t)) && (shared < |Path(t)| || t.Leaf?)
    requires Split(t, ToBits(key), value, shared).Ok? ==> WF(Split(t, ToBits(key), value, shared).value)
    ensures Mirrors(c, s,
                    StageLeafAndSplit(c, s.staged, key, value, shared, TreeDigest(c, t), NodePrefix(NodeOf(c, t))),
                    Split(t, ToBits(key), value, shared))
  {
    hide Stage, StageSplit, Split, Readable, Authentic, Grown, WF, NodeOf, TreeDigest, Path, ToBits;
    LeafDelivered(c, s, key, value);
    var leaf := Stage(c, s.staged, NewLeaf(key, value));
    var mid := WithStaged(s, leaf.staged);
    ReadableGrows(c, s, leaf.staged, t);
    if Split(t, ToBits(key), value, shared).Ok? {
      SplitInPlay(c, t, ToBits(key), value, shared);
    }
    SplitLands(c, s, mid, t, key, value, shared, leaf.outcome.value);
  }

  lemma SplitInPlay(c: Codec, t: Tree, key: Bits, value: Bytes, shared: nat)
    requires InPlay(c, t) && c.plays(Record(key, value)) && shared <= |key| && shared <= |Path(t)| && Split(t, key, value, shared).Ok?
    ensures InPlay(c, Split(t, key, value, shared).value)
  {
  }

  lemma SplitLands(c: Codec, s: Source, mid: Source, t: Tree, key: Bytes, value: Bytes, shared: nat, leaf: Digest)
    requires Faithful(c) && Authentic(c, mid) && Fit(c, t) && Readable(c, mid, t)
    requires mid == WithStaged(s, mid.staged) && Grown(c, s.staged, mid.staged)
    requires shared == CommonPrefix(ToBits(key), Path(t)) && (shared < |Path(t)| || t.Leaf?)
    requires Split(t, ToBits(key), value, shared).Ok? ==> Fit(c, Split(t, ToBits(key), value, shared).value)
    requires leaf == TreeDigest(c, Leaf(ToBits(key), value)) && Readable(c, mid, Leaf(ToBits(key), value))
    ensures Mirrors(c, s,
                    StageSplit(c, mid.staged, key, shared, TreeDigest(c, t), NodePrefix(NodeOf(c, t)), leaf),
                    Split(t, ToBits(key), value, shared))
  {
    hide Stage, StageSplit, Readable, Authentic, WF, NodeOf, TreeDigest, ToBits, Grown;
    var o := Split(t, ToBits(key), value, shared);
    var r := StageSplit(c, mid.staged, key, shared, TreeDigest(c, t), NodePrefix(NodeOf(c, t)), leaf);
    if o.Ok? {
      assert leaf == DigestOf(c, NewLeaf(key, value)) by {
        LeafDigest(c, key, value);
      }
      SplitNode(c, mid, t, key, value, shared);
      StageTree(c, mid, o.value);
      GrownTransitive(c, s.staged, mid.staged, r.staged);
    } else {
      SplitRefused(c, t, key, value, shared, mid.staged, TreeDigest(c, t), leaf);
    }
  }

  lemma LeafDigest(c: Codec, key: Bytes, value: Bytes)
    ensures TreeDigest(c, Leaf(ToBits(key), value)) == DigestOf(c, NewLeaf(key, value))
  {
    PackOfKey(key);
  }

  function WithSide(t: Tree, side: Tree, rightward: bool): Tree
    requires t.Branch?
  {
    if rightward then Branch(t.path, t.left, side) else Branch(t.path, side, t.right)
  }

  /** Copying a branch over a delivered child delivers the branch. */
  lemma RebuildDelivers(c: Codec, s: Source, t: Tree, side: Tree, rightward: bool, child: Staging)
    requires Faithful(c) && Fit(c, t) && t.Branch? && Readable(c, s, t)
    requires Delivers(c, s, child, side) && WF(WithSide(t, side, rightward))
    ensures Delivers(c, s, Rebuild(c, FrameOf(NodeOf(c, t), rightward), child), WithSide(t, side, rightward))
  {
    hide Stage, Authentic, WF, ReadStaged, Grown, Faithful;
    FitSides(c, t);
    ReadableGrows(c, s, child.staged, t.left);
    ReadableGrows(c, s, child.staged, t.right);
    var mid := WithStaged(s, child.staged);
    var u := WithSide(t, side, rightward);
    StageTree(c, mid, u);
    var r := Stage(c, child.staged, NodeOf(c, u));
    assert r == Rebuild(c, FrameOf(NodeOf(c, t), rightward), child);
    GrownTransitive(c, s.staged, child.staged, r.staged);
  }

  lemma InsertAtLeaf(c: Codec, s: Source, t: Tree, key: Bytes, value: Bytes, remaining: nat)
    requires Faithful(c) && Authentic(c, s) && Fit(c, t) && Readable(c, s, t) && remaining > 0
    requires ValidByteKey(key) && ValidValue(value) && c.plays(Record(ToBits(key), value))
    requires t.Leaf? && t.key == ToBits(key)
    ensures Mirrors(c, s, InsertAt(c, s, TreeDigest(c, t), NodeOf(c, t), key, value, remaining), Insert(t, ToBits(key), value))
  {
    hide Stage, StageLeafAndSplit, Readable, Authentic, Split;
    SharedIs(c, t, key);
    PackOfKey(key);
    CommonPrefixUnique(t.key, t.key, |t.key|);
    LeafDelivered(c, s, key, value);
  }

  lemma InsertAtSplit(c: Codec, s: Source, t: Tree, key: Bytes, value: Bytes, remaining: nat)
    requires Faithful(c) && Authentic(c, s) && Fit(c, t) && Readable(c, s, t) && remaining > 0
    requires ValidByteKey(key) && ValidValue(value) && c.plays(Record(ToBits(key), value))
    requires CommonPrefix(ToBits(key), Path(t)) < |Path(t)| || (t.Leaf? && t.key != ToBits(key))
    ensures Mirrors(c, s, InsertAt(c, s, TreeDigest(c, t), NodeOf(c, t), key, value, remaining), Insert(t, ToBits(key), value))
  {
    hide StageLeafAndSplit, Split, Readable, Authentic, Mirrors, TreeDigest, CommonPrefixBits, KeyBit, ToBits, WF, Pack;
    InsertSpec(t, ToBits(key), value);
    var shared := CommonPrefix(ToBits(key), Path(t));
    SharedIs(c, t, key);
    PrefixSpellsPath(c, t);
    SplitDelivered(c, s, t, key, value, shared);
    if shared >= |Path(t)| {
      LeafNodeKey(c, t);
      CommonPrefixBitsIs(key, NodeOf(c, t).key, BitLen(key));
      PackOfKey(key);
    }
  }

  lemma LeafNodeKey(c: Codec, t: Tree)
    requires WF(t) && t.Leaf?
    ensures NodeOf(c, t).LeafNode? && ToBits(NodeOf(c, t).key) == t.key
  {
    PackedKey(t.key);
  }

  lemma InsertAtBranch(c: Codec, s: Source, t: Tree, key: Bytes, value: Bytes, remaining: nat)
    requires Faithful(c) && Authentic(c, s) && Fit(c, t) && Readable(c, s, t) && remaining > 0
    requires ValidByteKey(key) && ValidValue(value) && c.plays(Record(ToBits(key), value))
    requires t.Branch? && CommonPrefix(ToBits(key), t.path) == |t.path| < BitLen(key)
    requires var rightward := ToBits(key)[|t.path|];
      var child := if rightward then t.right else t.left;
      Mirrors(c, s, InsertFrom(c, s, TreeDigest(c, child), ChildConstraint(t.path, rightward), key, value, remaining - 1),
              Insert(child, ToBits(key), value))
    ensures Mirrors(c, s, InsertAt(c, s, TreeDigest(c, t), NodeOf(c, t), key, value, remaining), Insert(t, ToBits(key), value))
  {
    hide CommonPrefixBits, KeyBit, ToBits, WF, Pack, Readable, Authentic, Stage, InsertFrom, ReadStaged, Grown;
    SharedIs(c, t, key);
    InsertSpec(t, ToBits(key), value);
    KeyBitIs(key, |t.path|);
    var rightward := ToBits(key)[|t.path|];
    var child := if rightward then t.right else t.left;
    var o := Insert(child, ToBits(key), value);
    if o.Ok? {
      RebuildDelivers(c, s, t, o.value, rightward,
                      InsertFrom(c, s, TreeDigest(c, child), ChildConstraint(t.path, rightward), key, value, remaining - 1));
    }
  }

  lemma InsertReads(c: Codec, s: Source, t: Tree, k: Constraint, key: Bytes, value: Bytes, remaining: nat)
    requires Readable(c, s, t) && ValidPath(NodeOf(c, t), k) && remaining > 0
    ensures InsertFrom(c, s, TreeDigest(c, t), k, key, value, remaining)
         == InsertAt(c, s, TreeDigest(c, t), NodeOf(c, t), key, value, remaining)
  {
  }

  lemma BudgetBelow(c: Codec, t: Tree, k: Constraint, key: Bytes, remaining: nat)
    requires WF(t) && t.Branch? && ValidPath(NodeOf(c, t), k) && |t.path| < BitLen(key)
    requires remaining + Floor(k) >= NodeBudget(|key|)
    ensures remaining - 1 > 0 && remaining - 1 + |t.path| + 1 >= NodeBudget(|key|)
  {
  }

  /** Over a readable tree the stored insertion is the tree's own insertion. */
  lemma {:induction false} InsertFromTree(c: Codec, s: Source, t: Tree, k: Constraint, key: Bytes, value: Bytes, remaining: nat)
    requires Faithful(c) && Authentic(c, s) && Fit(c, t) && Readable(c, s, t) && ValidPath(NodeOf(c, t), k)
    requires ValidByteKey(key) && ValidValue(value) && c.plays(Record(ToBits(key), value))
    requires remaining + Floor(k) >= NodeBudget(|key|) && remaining > 0
    ensures Mirrors(c, s, InsertFrom(c, s, TreeDigest(c, t), k, key, value, remaining), Insert(t, ToBits(key), value))
    decreases t
  {
    hide ValidPath, ReadStaged, Mirrors, InsertAt, InsertFrom, NodeOf, TreeDigest, ToBits, ValidValue, Pack, Authentic;
    hide Insert, CommonPrefix, Faithful, ValidByteKey;
    InsertReads(c, s, t, k, key, value, remaining);
    var shared := CommonPrefix(ToBits(key), Path(t));
    if shared < |Path(t)| || (t.Leaf? && t.key != ToBits(key)) {
      InsertAtSplit(c, s, t, key, value, remaining);
    } else if t.Leaf? {
      InsertAtLeaf(c, s, t, key, value, remaining);
    } else if |t.path| < BitLen(key) {
      var rightward := ToBits(key)[|t.path|];
      var child := if rightward then t.right else t.left;
      BudgetBelow(c, t, k, key, remaining);
      ChildPathValid(c, t.path, rightward, child);
      InsertFromTree(c, s, child, ChildConstraint(t.path, rightward), key, value, remaining - 1);
      InsertAtBranch(c, s, t, key, value, remaining);
    } else {
      InsertAtEnd(c, s, t, key, value, remaining);
    }
  }

  /** A key that ends exactly at a branch is refused and changes nothing. */
  lemma InsertAtEnd(c: Codec, s: Source, t: Tree, key: Bytes, value: Bytes, remaining: nat)
    requires Faithful(c) && Authentic(c, s) && Fit(c, t) && remaining > 0
    requires t.Branch? && CommonPrefix(ToBits(key), t.path) == |t.path| == BitLen(key)
    ensures Mirrors(c, s, InsertAt(c, s, TreeDigest(c, t), NodeOf(c, t), key, value, remaining), Insert(t, ToBits(key), value))
  {
    hide CommonPrefixBits, KeyBit, ToBits, WF, Pack, Stage, InsertFrom;
    SharedIs(c, t, key);
  }

  /** Inserting at a root is inserting into the index the root stands for. */
  lemma InsertRootIndex(c: Codec, s: Source, i: Index, key: Bytes, value: Bytes)
    requires Faithful(c) && Authentic(c, s) && FitIndex(c, i) && IndexReadable(c, s, i)
    requires ValidByteKey(key) && ValidValue(value) && c.plays(Record(ToBits(key), value))
    ensures var r, o := InsertRoot(c, s, RootDigest(c, i), key, value), IndexInsert(i, ToBits(key), value);
      if o.Ok? then o.value.Root? && Delivers(c, s, r, o.value.tree) else Refuses(c, s, r)
  {
    hide Stage, InsertFrom, Readable, Authentic, Grown, TreeDigest, ToBits, WF;
    if i.Empty? {
      LeafDelivered(c, s, key, value);
    } else {
      NodeIsOwn(c, i.tree);
      InsertFromTree(c, s, i.tree, Unconstrained, key, value, NodeBudget(|key|));
    }
  }

  /** No insertion into any store runs out of its node budget. */
  lemma {:induction false} InsertIsBounded(c: Codec, s: Source, d: Digest, k: Constraint, key: Bytes, value: Bytes, remaining: nat)
    requires remaining + Floor(k) >= NodeBudget(|key|) && remaining > 0
    ensures InsertFrom(c, s, d, k, key, value, remaining).outcome != Err(BudgetExhausted)
    decreases remaining
  {
    hide ReadStaged, Stage, CommonPrefixBits, KeyBit, PrefixMatches, StageSplit;
    ReadSpendsNoBudget(c, s, d);
    var r := ReadStaged(c, s, d);
    if r.Ok? && ValidPath(r.value, k) {
      var n := r.value;
      StagesSpendNoBudget(c);
      if n.BranchNode? && n.prefixBits < BitLen(key) {
        var rightward := KeyBit(key, n.prefixBits);
        InsertIsBounded(c, s, if rightward then n.right else n.left,
                        Below(n.prefix, n.prefixBits, rightward), key, value, remaining - 1);
      }
    }
  }

  lemma StagesSpendNoBudget(c: Codec)
    ensures forall staged, n :: Stage(c, staged, n).outcome != Err(BudgetExhausted)
    ensures forall staged, key, shared, existing, prefix, leaf ::
      StageSplit(c, staged, key, shared, existing, prefix, leaf).outcome != Err(BudgetExhausted)
  {
  }
}
