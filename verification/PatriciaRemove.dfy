/**
 Path-copying removal: a removed leaf's sibling takes its parent's place, and
 every branch above the parent is copied. An absent key stages nothing.
 */
module PatriciaRemove {
  import opened Wrappers
  import opened BitStrings
  import opened KeyBits
  import opened PrefixBytes
  import opened ContentAddress
  import opened PatriciaTree
  import opened PatriciaPoint
  import opened PatriciaNodes
  import opened PatriciaLookup
  import opened PatriciaInsert

  datatype Removal = Unchanged | Emptied | Replaced(digest: Digest) | Failed(error: PatriciaError)

  /** What happened to a subtree, together with the staged nodes. */
  datatype Removing = Removing(result: Removal, staged: map<Digest, Node>)

  function Replacing(r: Staging): Removing {
    Removing(if r.outcome.Ok? then Replaced(r.outcome.value) else Failed(r.outcome.error), r.staged)
  }

  /** The effect on a branch of what happened to one of its children. */
  function CopyUp(c: Codec, f: Frame, child: Removing): Removing {
    match child.result
    case Unchanged => child
    case Failed(_) => child
    case Emptied => Removing(Replaced(if f.rightward then f.left else f.right), child.staged)
    case Replaced(d) => Replacing(Rebuild(c, f, Staging(Ok(d), child.staged)))
  }

  /** The removal below one digest of any store. */
  function RemoveFrom(c: Codec, s: Source, d: Digest, k: Constraint, key: Bytes, remaining: nat): Removing
    decreases remaining
  {
    if remaining == 0 then Removing(Failed(BudgetExhausted), s.staged)
    else match ReadStaged(c, s, d)
      case Err(e) => Removing(Failed(e), s.staged)
      case Ok(node) =>
        if !ValidPath(node, k) then Removing(Failed(Malformed), s.staged)
        else if node.LeafNode? then Removing(if node.key == key then Emptied else Unchanged, s.staged)
        else if !PrefixMatches(key, node.prefix, node.prefixBits) then Removing(Unchanged, s.staged)
        else if node.prefixBits >= BitLen(key) then Removing(Failed(Malformed), s.staged)
        else
          var rightward := KeyBit(key, node.prefixBits);
          CopyUp(c, FrameOf(node, rightward),
                 RemoveFrom(c, s, if rightward then node.right else node.left,
                            Below(node.prefix, node.prefixBits, rightward), key, remaining - 1))
  }

  function RemoveRoot(c: Codec, s: Source, root: Digest, key: Bytes): Staging {
    if root == EmptyRoot(c) then Staging(Ok(root), s.staged)
    else
      var r := RemoveFrom(c, s, root, Unconstrained, key, NodeBudget(|key|));
      match r.result
      case Unchanged => Staging(Ok(root), r.staged)
      case Emptied => Staging(Ok(EmptyRoot(c)), r.staged)
      case Replaced(d) => Staging(Ok(d), r.staged)
      case Failed(e) => Staging(Err(e), r.staged)
  }

  function ClimbRemoval(c: Codec, frames: seq<Frame>, r: Removing): Removing
    decreases |frames|
  {
    if |frames| == 0 then r
    else ClimbRemoval(c, frames[..|frames| - 1], CopyUp(c, frames[|frames| - 1], r))
  }

  lemma {:induction false} ClimbStops(c: Codec, frames: seq<Frame>, r: Removing)
    requires r.result.Unchanged? || r.result.Failed?
    ensures ClimbRemoval(c, frames, r) == r
    decreases |frames|
  {
    if |frames| > 0 {
      ClimbStops(c, frames[..|frames| - 1], r);
    }
  }

  /** Above a replaced child, removal copies branches exactly as insertion does. */
  lemma {:induction false} ClimbReplaced(c: Codec, frames: seq<Frame>, r: Staging)
    ensures ClimbRemoval(c, frames, Replacing(r)) == Replacing(Climb(c, frames, r))
    decreases |frames|
  {
    hide Stage;
    if |frames| > 0 {
      ClimbReplaced(c, frames[..|frames| - 1], Rebuild(c, frames[|frames| - 1], r));
    }
  }

  /** The removal loop: descend to the leaf, promote its sibling, rebuild the path. */
  method RemoveConstructed(c: Codec, loose: map<Digest, Bytes>, packed: map<Digest, Bytes>, root: Digest, key: Bytes, staged: StagedNodes)
    returns (r: Outcome<Digest>)
    modifies staged
    ensures Staging(r, staged.nodes) == RemoveRoot(c, Source(loose, packed, old(staged.nodes)), root, key)
  {
    hide ReadStaged, ValidPath, PrefixMatches, KeyBit, Stage, Rebuild;
    if root == EmptyRoot(c) {
      return Ok(root);
    }
    var s := Source(loose, packed, staged.nodes);
    var digest, constraint, remaining, ancestors := root, Unconstrained, NodeBudget(|key|), [];
    while true
      invariant staged.nodes == s.staged
      invariant ClimbRemoval(c, ancestors, RemoveFrom(c, s, digest, constraint, key, remaining))
             == RemoveFrom(c, s, root, Unconstrained, key, NodeBudget(|key|))
      decreases remaining
    {
      ghost var here := RemoveFrom(c, s, digest, constraint, key, remaining);
      if here.result.Unchanged? || here.result.Failed? {
        ClimbStops(c, ancestors, here);
      }
      if remaining == 0 {
        return Err(BudgetExhausted);
      }
      var read := ReadStaged(c, s, digest);
      if read.Err? {
        return Err(read.error);
      }
      var node := read.value;
      if !ValidPath(node, constraint) {
        return Err(Malformed);
      }
      if node.LeafNode? {
        if node.key != key {
          return Ok(root);
        }
        break;
      }
      if !PrefixMatches(key, node.prefix, node.prefixBits) {
        return Ok(root);
      }
      if node.prefixBits >= BitLen(key) {
        return Err(Malformed);
      }
      var rightward := KeyBit(key, node.prefixBits);
      digest := if rightward then node.right else node.left;
      constraint := Below(node.prefix, node.prefixBits, rightward);
      remaining := remaining - 1;
      ancestors := ancestors + [FrameOf(node, rightward)];
    }
    if |ancestors| == 0 {
      return Ok(EmptyRoot(c));
    }
    var parent, above := ancestors[|ancestors| - 1], ancestors[..|ancestors| - 1];
    var replacement := if parent.rightward then parent.left else parent.right;
    ClimbReplaced(c, above, Staging(Ok(replacement), s.staged));
    r := RebuildAncestors(c, staged, above, replacement);
  }

  // ----- what the removal does to trees -----

  ghost predicate RemovesFrom(c: Codec, s: Source, t: Tree, r: Removing, o: Outcome<Index>) {
    match r.result
    case Unchanged => o == Ok(Root(t)) && r.staged == s.staged
    case Emptied => o == Ok(Empty) && r.staged == s.staged
    case Replaced(d) => o.Ok? && o.value.Root? && Delivers(c, s, Staging(Ok(d), r.staged), o.value.tree)
    case Failed(e) => e == Malformed && o == Err(Malformed) && r.staged == s.staged
  }

  lemma GrownReflexive(c: Codec, m: map<Digest, Node>)
    ensures Grown(c, m, m)
  {
  }

  lemma RemoveAtBranch(c: Codec, s: Source, t: Tree, key: Bits, rightward: bool, child: Removing)
    requires Faithful(c) && Authentic(c, s) && Fit(c, t) && Readable(c, s, t)
    requires t.Branch? && t.path <= key && |t.path| < |key| && rightward == key[|t.path|]
    requires var side := if rightward then t.right else t.left;
      RemovesFrom(c, s, side, child, Remove(side, key))
    ensures RemovesFrom(c, s, t, CopyUp(c, FrameOf(NodeOf(c, t), rightward), child), Remove(t, key))
  {
    hide Stage, ReadStaged, Authentic, Rebuild, WF, Grown, Faithful, Contents;
    var side := if rightward then t.right else t.left;
    GrownReflexive(c, s.staged);
    match child.result {
      case Replaced(d) =>
        SideRemoved(t, key, rightward);
        RebuildDelivers(c, s, t, Remove(side, key).value.tree, rightward, Staging(Ok(d), child.staged));
      case Emptied =>
        EmptiedSide(c, s, t, rightward);
      case _ =>
    }
  }

  lemma SideRemoved(t: Tree, key: Bits, rightward: bool)
    requires WF(t) && t.Branch? && t.path <= key && |t.path| < |key| && rightward == key[|t.path|]
    requires var o := Remove(if rightward then t.right else t.left, key); o.Ok? && o.value.Root?
    ensures var u := WithSide(t, Remove(if rightward then t.right else t.left, key).value.tree, rightward);
      Remove(t, key) == Ok(Root(u)) && WF(u)
  {
    hide Contents, WF;
    Side(t, key);
    if key in Contents(t) {
      RemoveDrops(t, key);
    } else {
      RemoveOfAbsent(t, key);
    }
  }

  /** The sibling of an emptied side was staged or stored already. */
  lemma EmptiedSide(c: Codec, s: Source, t: Tree, rightward: bool)
    requires Faithful(c) && Authentic(c, s) && Fit(c, t) && t.Branch? && Readable(c, s, t)
    ensures Delivers(c, s, Staging(Ok(TreeDigest(c, if rightward then t.left else t.right)), s.staged), if rightward then t.left else t.right)
  {
    hide Faithful, Authentic;
    FitSides(c, t);
  }

  lemma RemoveAtLeaf(c: Codec, s: Source, t: Tree, k: Constraint, key: Bytes, remaining: nat)
    requires WF(t) && Readable(c, s, t) && t.Leaf? && ValidPath(NodeOf(c, t), k) && remaining > 0
    ensures RemovesFrom(c, s, t, RemoveFrom(c, s, TreeDigest(c, t), k, key, remaining), Remove(t, ToBits(key)))
  {
    hide ReadStaged, PrefixMatches, KeyBit, ValidPath, Pack, ToBits, DigestOf, Authentic, CopyUp;
    PackedKey(t.key);
    PackOfKey(key);
  }

  /** Over a readable tree the stored removal is the tree's own removal. */
  lemma {:induction false} RemoveFromTree(c: Codec, s: Source, t: Tree, k: Constraint, key: Bytes, remaining: nat)
    requires Faithful(c) && Authentic(c, s) && Fit(c, t) && Readable(c, s, t) && ValidPath(NodeOf(c, t), k)
    requires remaining + Floor(k) >= NodeBudget(|key|) && remaining > 0
    ensures RemovesFrom(c, s, t, RemoveFrom(c, s, TreeDigest(c, t), k, key, remaining), Remove(t, ToBits(key)))
    decreases t
  {
    hide ReadStaged, PrefixMatches, KeyBit, ValidPath, Pack, ToBits, DigestOf, Authentic, CopyUp;
    if t.Leaf? {
      RemoveAtLeaf(c, s, t, k, key, remaining);
    } else {
      BranchStep(c, t, key);
      if t.path <= ToBits(key) && |t.path| < BitLen(key) {
        var rightward := KeyBit(key, |t.path|);
        var child := if rightward then t.right else t.left;
        ChildPathValid(c, t.path, rightward, child);
        BudgetBelow(c, t, k, key, remaining);
        RemoveFromTree(c, s, child, ChildConstraint(t.path, rightward), key, remaining - 1);
        RemoveAtBranch(c, s, t, ToBits(key), rightward,
                       RemoveFrom(c, s, TreeDigest(c, child), ChildConstraint(t.path, rightward), key, remaining - 1));
      }
    }
  }

  /** Removing at a root is removing from the index the root stands for. */
  lemma RemoveRootIndex(c: Codec, s: Source, i: Index, key: Bytes)
    requires Faithful(c) && Authentic(c, s) && FitIndex(c, i) && IndexReadable(c, s, i)
    ensures var r, o := RemoveRoot(c, s, RootDigest(c, i), key), IndexRemove(i, ToBits(key));
      if o.Ok? then
        && r.outcome == Ok(RootDigest(c, o.value)) && FitIndex(c, o.value)
        && Grown(c, s.staged, r.staged) && Authentic(c, WithStaged(s, r.staged))
        && IndexReadable(c, WithStaged(s, r.staged), o.value)
      else r == Staging(Err(Malformed), s.staged)
  {
    hide RemoveFrom, Readable, Authentic, TreeDigest, ToBits, WF;
    assert WithStaged(s, s.staged) == s;
    if i.Root? {
      NodeIsOwn(c, i.tree);
      RemoveFromTree(c, s, i.tree, Unconstrained, key, NodeBudget(|key|));
    }
  }

  /** No removal from any store runs out of its node budget. */
  lemma {:induction false} RemoveIsBounded(c: Codec, s: Source, d: Digest, k: Constraint, key: Bytes, remaining: nat)
    requires remaining + Floor(k) >= NodeBudget(|key|) && remaining > 0
    ensures RemoveFrom(c, s, d, k, key, remaining).result != Failed(BudgetExhausted)
    decreases remaining
  {
    hide ReadStaged, Stage, KeyBit, PrefixMatches;
    ReadSpendsNoBudget(c, s, d);
    var r := ReadStaged(c, s, d);
    if r.Ok? && ValidPath(r.value, k) {
      var n := r.value;
      StagesSpendNoBudget(c);
      if n.BranchNode? && n.prefixBits < BitLen(key) {
        var rightward := KeyBit(key, n.prefixBits);
        RemoveIsBounded(c, s, if rightward then n.right else n.left,
                        Below(n.prefix, n.prefixBits, rightward), key, remaining - 1);
      }
    }
  }
}
