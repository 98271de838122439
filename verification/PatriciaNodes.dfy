/**
 Nodes as stored bytes: encoding, reading, the two checks every read node
 passes, and what it means that a whole tree can be read below a digest.
 */
module PatriciaNodes {
  import opened Wrappers
  import opened BitStrings
  import opened KeyBits
  import opened PrefixBytes
  import opened ContentAddress
  import opened PatriciaTree
  import opened PatriciaPoint

  const NODE_SCHEMA_VERSION: nat := 1
  const MAX_KEY_BYTES: nat := 96
  const MAX_NODE_BYTES: nat := 128 * 1024
  /** Largest encoding a valid node may have: value, key and 512 bytes of framing. */
  const MAX_VALID_NODE_BYTES: nat := MAX_VALUE_BYTES + MAX_KEY_BYTES + 512

  datatype Node =
    | LeafNode(version: nat, key: Bytes, value: Bytes)
    | BranchNode(version: nat, prefix: Bytes, prefixBits: nat, left: Digest, right: Digest)

  /**
   The node serialiser, the hash, the constant whose digest names the empty root, and
   the records in play: all that any index of interest ever holds.
   */
  datatype Codec = Codec(encode: Node -> Bytes, decode: Bytes -> Option<Node>, of: Bytes -> Digest, seed: Bytes, plays: Record -> bool)

  function EmptyRoot(c: Codec): Digest {
    c.of(c.seed)
  }

  function DigestOf(c: Codec, n: Node): Digest {
    c.of(c.encode(n))
  }

  predicate ValidByteKey(key: Bytes) {
    0 < |key| <= MAX_KEY_BYTES
  }

  /** The node check without its digest comparisons. */
  predicate ValidShape(n: Node) {
    && n.version == NODE_SCHEMA_VERSION
    && match n
       case LeafNode(_, key, value) => ValidByteKey(key) && ValidValue(value)
       case BranchNode(_, prefix, bits, _, _) =>
         bits < MAX_KEY_BITS && |prefix| == BytesFor(bits) && MaskedPrefix(prefix, bits) == prefix
  }

  predicate ValidNode(c: Codec, n: Node) {
    && ValidShape(n)
    && (n.BranchNode? ==> n.left != n.right && n.left != EmptyRoot(c) && n.right != EmptyRoot(c))
  }

  function NodePrefix(n: Node): Bytes {
    if n.LeafNode? then n.key else n.prefix
  }

  function NodePrefixBits(n: Node): nat {
    if n.LeafNode? then BitLen(n.key) else n.prefixBits
  }

  /** What a parent demands of a child's prefix. */
  datatype Constraint = Unconstrained | Below(prefix: Bytes, bits: nat, right: bool)

  predicate ValidPath(n: Node, k: Constraint) {
    k.Below? ==>
      && NodePrefixBits(n) > k.bits
      && PrefixMatches(NodePrefix(n), k.prefix, k.bits)
      && k.bits < BitLen(NodePrefix(n))
      && KeyBit(NodePrefix(n), k.bits) == k.right
  }

  /** Node files, node bytes served by the packed catalog, and nodes staged in memory. */
  datatype Source = Source(loose: map<Digest, Bytes>, packed: map<Digest, Bytes>, staged: map<Digest, Node>)

  function ReadNode(c: Codec, s: Source, d: Digest): Outcome<Node> {
    if d in s.loose && c.of(s.loose[d]) != d then Err(PathMismatch(d))
    else if d in s.loose && d in s.packed && s.loose[d] != s.packed[d] then Err(PathMismatch(d))
    else if d !in s.loose && d !in s.packed then Err(MissingNode(d))
    else
      var bytes := if d in s.loose then s.loose[d] else s.packed[d];
      match c.decode(bytes)
      case None => Err(Malformed)
      case Some(n) => if ValidNode(c, n) && c.encode(n) == bytes then Ok(n) else Err(Malformed)
  }

  function ReadStaged(c: Codec, s: Source, d: Digest): Outcome<Node> {
    if d in s.staged then Ok(s.staged[d]) else ReadNode(c, s, d)
  }

  // ----- trees in a store -----

  /** The node at the top of a tree, naming its children by digest. */
  function NodeOf(c: Codec, t: Tree): Node
    decreases t, 0
  {
    match t
    case Leaf(key, value) => LeafNode(NODE_SCHEMA_VERSION, Pack(key), value)
    case Branch(path, l, r) =>
      BranchNode(NODE_SCHEMA_VERSION, Pack(path), |path|, TreeDigest(c, l), TreeDigest(c, r))
  }

  function TreeDigest(c: Codec, t: Tree): Digest
    decreases t, 1
  {
    DigestOf(c, NodeOf(c, t))
  }

  function RootDigest(c: Codec, i: Index): Digest {
    if i.Empty? then EmptyRoot(c) else TreeDigest(c, i.tree)
  }

  // ----- hypotheses on the serialiser and the hash -----

  ghost predicate InPlay(c: Codec, t: Tree) {
    match t
    case Leaf(key, value) => c.plays(Record(key, value))
    case Branch(_, l, r) => InPlay(c, l) && InPlay(c, r)
  }

  /** A well-formed tree of records in play. */
  ghost predicate Fit(c: Codec, t: Tree) {
    WF(t) && InPlay(c, t)
  }

  lemma FitSides(c: Codec, t: Tree)
    requires Fit(c, t) && t.Branch?
    ensures Fit(c, t.left) && Fit(c, t.right)
  {
  }

  ghost predicate FitIndex(c: Codec, i: Index) {
    i.Root? ==> Fit(c, i.tree)
  }

  /** The node of a tree in play is restored from its bytes, which have a valid size and not the digest of the empty root. */
  ghost predicate Serialised(c: Codec, t: Tree) {
    && c.decode(c.encode(NodeOf(c, t))) == Some(NodeOf(c, t))
    && 0 < |c.encode(NodeOf(c, t))| <= MAX_VALID_NODE_BYTES
    && TreeDigest(c, t) != EmptyRoot(c)
  }

  /** The nodes of trees in play are serialised, and no two of them collide. */
  ghost predicate Faithful(c: Codec) {
    && (forall t :: Fit(c, t) ==> Serialised(c, t))
    && (forall t, u :: Fit(c, t) && Fit(c, u) && TreeDigest(c, t) == TreeDigest(c, u) ==>
         c.encode(NodeOf(c, t)) == c.encode(NodeOf(c, u)))
  }

  ghost predicate AllPlay(c: Codec, m: map<Bits, Value>) {
    forall k :: k in m ==> c.plays(Record(k, m[k]))
  }

  /** Being in play is a property of the stored map. */
  lemma {:induction false} InPlayByContents(c: Codec, t: Tree)
    requires WF(t)
    ensures InPlay(c, t) <==> AllPlay(c, Contents(t))
  {
    if t.Leaf? {
      assert t.key in Contents(t);
    }
    if t.Branch? {
      var m, l, r := Contents(t), Contents(t.left), Contents(t.right);
      InPlayByContents(c, t.left);
      InPlayByContents(c, t.right);
      hide Contents, WF;
      forall k ensures k in l ==> k in m && m[k] == l[k]
               ensures k in r ==> k in m && m[k] == r[k]
               ensures k in m ==> k in l || k in r {
        Side(t, k);
      }
      if AllPlay(c, m) {
        assert AllPlay(c, l) by { forall k | k in l ensures c.plays(Record(k, l[k])) { assert k in m; } }
        assert AllPlay(c, r) by { forall k | k in r ensures c.plays(Record(k, r[k])) { assert k in m; } }
      }
      if AllPlay(c, l) && AllPlay(c, r) {
        assert AllPlay(c, m) by { forall k | k in m ensures c.plays(Record(k, m[k])) { assert k in l || k in r; } }
      }
    }
  }

  /** Every node of the tree can be read. */
  ghost predicate Readable(c: Codec, s: Source, t: Tree) {
    && ReadStaged(c, s, TreeDigest(c, t)) == Ok(NodeOf(c, t))
    && (t.Branch? ==> Readable(c, s, t.left) && Readable(c, s, t.right))
  }

  /** Every node of the tree can be read without the staged ones. */
  ghost predicate Persisted(c: Codec, s: Source, t: Tree) {
    && ReadNode(c, s, TreeDigest(c, t)) == Ok(NodeOf(c, t))
    && (t.Branch? ==> Persisted(c, s, t.left) && Persisted(c, s, t.right))
  }

  ghost predicate IndexReadable(c: Codec, s: Source, i: Index) {
    i.Root? ==> Readable(c, s, i.tree)
  }

  /** The node is that of a tree in play. */
  ghost predicate Played(c: Codec, d: Digest, n: Node) {
    exists t :: Fit(c, t) && TreeDigest(c, t) == d && NodeOf(c, t) == n
  }

  /** The bytes have this digest, and collide with no node in play. */
  ghost predicate Own(c: Codec, d: Digest, bytes: Bytes) {
    && c.of(bytes) == d
    && forall t :: Fit(c, t) && TreeDigest(c, t) == d ==> bytes == c.encode(NodeOf(c, t))
  }

  /** Stored bytes sit under their own digests. */
  ghost predicate Intact(c: Codec, s: Source) {
    && (forall d :: d in s.loose ==> Own(c, d, s.loose[d]))
    && (forall d :: d in s.packed ==> Own(c, d, s.packed[d]))
  }

  /** The digest names a well-formed tree, every node of which can be read. */
  ghost predicate Tops(c: Codec, s: Source, d: Digest) {
    exists t :: Fit(c, t) && TreeDigest(c, t) == d && Readable(c, s, t)
  }

  /** The digest names a well-formed tree that needs no staged node. */
  ghost predicate Saved(c: Codec, s: Source, d: Digest) {
    exists t :: Fit(c, t) && TreeDigest(c, t) == d && Persisted(c, s, t)
  }

  /** Stored bytes are intact, and no staged node has lost a descendant. */
  ghost predicate Authentic(c: Codec, s: Source) {
    Intact(c, s) && forall d :: d in s.staged ==> Tops(c, s, d)
  }

  /** A staged node is the node of the tree it tops, hence valid and at its own digest. */
  lemma StagedTree(c: Codec, s: Source, d: Digest) returns (t: Tree)
    requires Faithful(c) && Authentic(c, s) && d in s.staged
    ensures Fit(c, t) && TreeDigest(c, t) == d && Readable(c, s, t)
    ensures s.staged[d] == NodeOf(c, t) && ValidNode(c, s.staged[d]) && DigestOf(c, s.staged[d]) == d
  {
    assert Tops(c, s, d);
    t :| Fit(c, t) && TreeDigest(c, t) == d && Readable(c, s, t);
    NodeOfIsValid(c, t);
  }

  /** Nodes in play with the same digest are the same node. */
  lemma SameNode(c: Codec, t: Tree, u: Tree)
    requires Faithful(c) && Fit(c, t) && Fit(c, u) && TreeDigest(c, t) == TreeDigest(c, u)
    ensures NodeOf(c, t) == NodeOf(c, u)
  {
    hide Fit;
    assert Serialised(c, t) && Serialised(c, u);
  }

  /** The bytes of a node in play are its own. */
  lemma NodeIsOwn(c: Codec, t: Tree)
    requires Faithful(c) && Fit(c, t)
    ensures Own(c, TreeDigest(c, t), c.encode(NodeOf(c, t)))
    ensures c.decode(c.encode(NodeOf(c, t))) == Some(NodeOf(c, t))
    ensures 0 < |c.encode(NodeOf(c, t))| <= MAX_VALID_NODE_BYTES && TreeDigest(c, t) != EmptyRoot(c)
  {
    hide Fit;
    assert Serialised(c, t);
  }

  lemma SameTop(c: Codec, t: Tree, u: Tree)
    requires Faithful(c) && Fit(c, t) && Fit(c, u) && TreeDigest(c, t) == TreeDigest(c, u)
    ensures t.Leaf? ==> t == u
    ensures t.Branch? ==> u.Branch? && t.path == u.path
    ensures t.Branch? ==> TreeDigest(c, t.left) == TreeDigest(c, u.left)
    ensures t.Branch? ==> TreeDigest(c, t.right) == TreeDigest(c, u.right)
  {
    hide Faithful, InPlay;
    SameNode(c, t, u);
    if t.Leaf? {
      assert u.Leaf?;
      PackedKey(t.key);
      PackedKey(u.key);
    } else {
      assert u.Branch?;
      PackInjective(t.path, u.path);
    }
  }

  lemma {:induction false} TreeDigestInjective(c: Codec, t: Tree, u: Tree)
    requires Faithful(c) && Fit(c, t) && Fit(c, u) && TreeDigest(c, t) == TreeDigest(c, u)
    ensures t == u
  {
    hide Faithful;
    SameTop(c, t, u);
    if t.Branch? {
      TreeDigestInjective(c, t.left, u.left);
      TreeDigestInjective(c, t.right, u.right);
    }
  }

  /** Equal roots are equal indexes, the empty one included. */
  lemma RootDigestInjective(c: Codec, i: Index, j: Index)
    requires Faithful(c) && FitIndex(c, i) && FitIndex(c, j) && RootDigest(c, i) == RootDigest(c, j)
    ensures i == j
  {
    hide Faithful, Fit;
    if i.Root? {
      NodeIsOwn(c, i.tree);
    }
    if j.Root? {
      NodeIsOwn(c, j.tree);
    }
    if i.Root? && j.Root? {
      TreeDigestInjective(c, i.tree, j.tree);
    }
  }

  lemma {:induction false} PersistedReadable(c: Codec, s: Source, t: Tree)
    requires Faithful(c) && Authentic(c, s) && Fit(c, t) && Persisted(c, s, t)
    ensures Readable(c, s, t)
  {
    hide Faithful, Authentic;
    var d := TreeDigest(c, t);
    if d in s.staged {
      var u := StagedTree(c, s, d);
      SameNode(c, u, t);
    }
    if t.Branch? {
      PersistedReadable(c, s, t.left);
      PersistedReadable(c, s, t.right);
    }
  }

  /** More stored bytes never disturb a persisted tree. */
  lemma {:induction false} PersistedGrows(c: Codec, s: Source, z: Source, t: Tree)
    requires Faithful(c) && Intact(c, s) && Intact(c, z) && Fit(c, t) && Persisted(c, s, t)
    requires forall d :: d in s.loose || d in s.packed ==> d in z.loose || d in z.packed
    ensures Persisted(c, z, t)
  {
    hide Faithful;
    StoredNodeReads(c, z, t);
    if t.Branch? {
      PersistedGrows(c, s, z, t.left);
      PersistedGrows(c, s, z, t.right);
    }
  }

  /** Bytes stored under the digest of a node in play are read as that node. */
  lemma StoredNodeReads(c: Codec, z: Source, t: Tree)
    requires Faithful(c) && Intact(c, z) && Fit(c, t)
    requires TreeDigest(c, t) in z.loose || TreeDigest(c, t) in z.packed
    ensures ReadNode(c, z, TreeDigest(c, t)) == Ok(NodeOf(c, t))
  {
    hide Faithful, Fit;
    NodeIsOwn(c, t);
    NodeOfIsValid(c, t);
  }

  lemma PackedKey(key: Bits)
    requires ValidKey(key)
    ensures ValidByteKey(Pack(key)) && ToBits(Pack(key)) == key
  {
    PackSpells(key);
    assert key + Zeros(0) == key;
  }

  lemma PackedPath(path: Bits)
    ensures |Pack(path)| == BytesFor(|path|) && MaskedPrefix(Pack(path), |path|) == Pack(path)
    ensures |path| <= BitLen(Pack(path)) && ToBits(Pack(path))[..|path|] == path
  {
    PackSpells(path);
    assert ToBits(Pack(path))[..|path|] == path;
    CanonicalPrefix(Pack(path), |path|);
  }

  /** The prefix bytes of a tree's node spell its path. */
  lemma PrefixSpellsPath(c: Codec, t: Tree)
    requires WF(t)
    ensures var n := NodeOf(c, t);
      && NodePrefixBits(n) == |Path(t)| <= BitLen(NodePrefix(n))
      && ToBits(NodePrefix(n))[..|Path(t)|] == Path(t)
      && ValidShape(n)
  {
    if t.Leaf? {
      PackedKey(t.key);
    } else {
      PackedPath(t.path);
    }
  }

  /** The node of a well-formed tree passes the node check. */
  lemma NodeOfIsValid(c: Codec, t: Tree)
    requires Faithful(c) && Fit(c, t)
    ensures ValidNode(c, NodeOf(c, t))
  {
    hide Faithful;
    PrefixSpellsPath(c, t);
    if t.Branch? {
      Disjunct(t);
      if TreeDigest(c, t.left) == TreeDigest(c, t.right) {
        TreeDigestInjective(c, t.left, t.right);
      }
      NodeIsOwn(c, t.left);
      NodeIsOwn(c, t.right);
    }
  }

  lemma Disjunct(t: Tree)
    requires WF(t) && t.Branch?
    ensures t.left != t.right
  {
    assert (t.path + [false])[|t.path|] == Path(t.left)[|t.path|];
    assert (t.path + [true])[|t.path|] == Path(t.right)[|t.path|];
  }

  /** The constraint a branch places on one of its children. */
  function ChildConstraint(path: Bits, right: bool): Constraint {
    Below(Pack(path), |path|, right)
  }

  /** Children of a well-formed tree pass the path check. */
  lemma ChildPathValid(c: Codec, path: Bits, right: bool, t: Tree)
    requires WF(t) && path + [right] <= Path(t)
    ensures ValidPath(NodeOf(c, t), ChildConstraint(path, right))
  {
    var n := NodeOf(c, t);
    PrefixSpellsPath(c, t);
    PackedPath(path);
    PrefixMatchesIs(NodePrefix(n), Pack(path), |path|);
    KeyBitIs(NodePrefix(n), |path|);
    var x := ToBits(NodePrefix(n));
    assert x[..|path|] == x[..|Path(t)|][..|path|] == Path(t)[..|path|] == (path + [right])[..|path|] == path;
    assert x[|path|] == x[..|Path(t)|][|path|] == Path(t)[|path|] == (path + [right])[|path|];
  }
}
