/**
 Point lookup over stored nodes. `LookupFrom` is the traversal as a function of
 any store, well-formed or not; the method walks it with a loop.
 */
module PatriciaLookup {
  import opened Wrappers
  import opened KeyBits
  import opened PrefixBytes
  import opened ContentAddress
  import opened PatriciaTree
  import opened PatriciaPoint
  import opened PatriciaNodes

  /** The node budget of a traversal for a key of `bytes` bytes. */
  function NodeBudget(bytes: nat): nat {
    8 * bytes + 1
  }

  /** The traversal below one digest, with the budget it may still spend. */
  function LookupFrom(c: Codec, s: Source, d: Digest, k: Constraint, key: Bytes, remaining: nat): Outcome<Option<Bytes>>
    decreases remaining
  {
    if remaining == 0 then Err(BudgetExhausted)
    else match ReadStaged(c, s, d)
      case Err(e) => Err(e)
      case Ok(node) =>
        if !ValidPath(node, k) then Err(Malformed)
        else match node
          case LeafNode(_, found, value) => Ok(if found == key then Some(value) else None)
          case BranchNode(_, prefix, split, left, right) =>
            if !PrefixMatches(key, prefix, split) then Ok(None)
            else if split >= BitLen(key) then Err(Malformed)
            else
              var rightward := KeyBit(key, split);
              LookupFrom(c, s, if rightward then right else left, Below(prefix, split, rightward), key, remaining - 1)
  }

  /** Nodes read by the traversal. */
  function ReadsFrom(c: Codec, s: Source, d: Digest, k: Constraint, key: Bytes, remaining: nat): nat
    decreases remaining
  {
    if remaining == 0 then 0
    else match ReadStaged(c, s, d)
      case Err(_) => 1
      case Ok(node) =>
        if !ValidPath(node, k) || node.LeafNode? then 1
        else if !PrefixMatches(key, node.prefix, node.prefixBits) || node.prefixBits >= BitLen(key) then 1
        else
          var rightward := KeyBit(key, node.prefixBits);
          1 + ReadsFrom(c, s, if rightward then node.right else node.left,
                        Below(node.prefix, node.prefixBits, rightward), key, remaining - 1)
  }

  function LookupRoot(c: Codec, s: Source, root: Digest, key: Bytes): Outcome<Option<Bytes>> {
    if !ValidByteKey(key) then Err(Malformed)
    else if root == EmptyRoot(c) then Ok(None)
    else LookupFrom(c, s, root, Unconstrained, key, NodeBudget(|key|))
  }

  /** Prefix bits a child must exceed: accepted prefixes strictly lengthen. */
  function Floor(k: Constraint): nat {
    if k.Below? then k.bits + 1 else 0
  }

  lemma ReadSpendsNoBudget(c: Codec, s: Source, d: Digest)
    ensures ReadStaged(c, s, d) != Err(BudgetExhausted)
  {
  }

  /**
   In any store at all, a budget of one node per bit left in the key, and one
   more, is never exhausted.
   */
  lemma {:induction false} BudgetSuffices(c: Codec, s: Source, d: Digest, k: Constraint, key: Bytes, remaining: nat)
    requires remaining + Floor(k) >= NodeBudget(|key|) && remaining > 0
    ensures LookupFrom(c, s, d, k, key, remaining) != Err(BudgetExhausted)
    ensures ReadsFrom(c, s, d, k, key, remaining) <= remaining
    decreases remaining
  {
    hide ReadStaged, PrefixMatches, KeyBit;
    ReadSpendsNoBudget(c, s, d);
    var r := ReadStaged(c, s, d);
    if r.Ok? && ValidPath(r.value, k) && r.value.BranchNode? {
      var n := r.value;
      if PrefixMatches(key, n.prefix, n.prefixBits) && n.prefixBits < BitLen(key) {
        var rightward := KeyBit(key, n.prefixBits);
        BudgetSuffices(c, s, if rightward then n.right else n.left,
                       Below(n.prefix, n.prefixBits, rightward), key, remaining - 1);
      }
    }
  }

  /** Every lookup in every store reads at most one node per key bit, and one more. */
  lemma LookupIsBounded(c: Codec, s: Source, root: Digest, key: Bytes)
    ensures LookupRoot(c, s, root, key) != Err(BudgetExhausted)
    ensures ReadsFrom(c, s, root, Unconstrained, key, NodeBudget(|key|)) <= NodeBudget(|key|)
  {
    BudgetSuffices(c, s, root, Unconstrained, key, NodeBudget(|key|));
  }

  lemma PathAboveFloor(n: Node, k: Constraint)
    requires ValidPath(n, k)
    ensures Floor(k) <= NodePrefixBits(n)
  {
  }

  lemma BranchStep(c: Codec, t: Tree, key: Bytes)
    requires WF(t) && t.Branch?
    ensures PrefixMatches(key, Pack(t.path), |t.path|) <==> t.path <= ToBits(key)
    ensures |t.path| < BitLen(key) ==> KeyBit(key, |t.path|) == ToBits(key)[|t.path|]
  {
    PackedPath(t.path);
    PrefixMatchesIs(key, Pack(t.path), |t.path|);
    if |t.path| < BitLen(key) {
      KeyBitIs(key, |t.path|);
    }
  }

  /** Over a readable tree the traversal is the tree's own lookup. */
  lemma {:induction false} LookupFromTree(c: Codec, s: Source, t: Tree, k: Constraint, key: Bytes, remaining: nat)
    requires WF(t) && Readable(c, s, t) && ValidPath(NodeOf(c, t), k)
    requires remaining + Floor(k) >= NodeBudget(|key|) && remaining > 0
    ensures LookupFrom(c, s, TreeDigest(c, t), k, key, remaining) == Lookup(t, ToBits(key))
    decreases t
  {
    hide ReadStaged, PrefixMatches, KeyBit, ValidPath, Pack, ToBits, DigestOf;
    if t.Leaf? {
      PackedKey(t.key);
      PackOfKey(key);
    } else {
      BranchStep(c, t, key);
      PathAboveFloor(NodeOf(c, t), k);
      if t.path <= ToBits(key) && |t.path| < BitLen(key) {
        var rightward := KeyBit(key, |t.path|);
        var child := if rightward then t.right else t.left;
        ChildPathValid(c, t.path, rightward, child);
        LookupFromTree(c, s, child, ChildConstraint(t.path, rightward), key, remaining - 1);
      }
    }
  }

  /** A stored lookup answers exactly as the index the root stands for. */
  lemma LookupAnswersIndex(c: Codec, s: Source, i: Index, key: Bytes)
    requires Faithful(c) && FitIndex(c, i) && IndexReadable(c, s, i) && ValidByteKey(key)
    ensures LookupRoot(c, s, RootDigest(c, i), key) == IndexLookup(i, ToBits(key))
  {
    if i.Root? {
      NodeIsOwn(c, i.tree);
      LookupFromTree(c, s, i.tree, Unconstrained, key, NodeBudget(|key|));
    }
  }

  /** The stored lookup against the map: value, absence, or the one refused family. */
  lemma LookupAnswersMap(c: Codec, s: Source, i: Index, key: Bytes)
    requires Faithful(c) && FitIndex(c, i) && IndexReadable(c, s, i) && ValidByteKey(key)
    ensures var m, r := IndexContents(i), LookupRoot(c, s, RootDigest(c, i), key);
      && (ToBits(key) in m ==> r == Ok(Some(m[ToBits(key)])))
      && (ToBits(key) !in m ==> r == if ForksAt(m, ToBits(key)) then Err(Malformed) else Ok(None))
  {
    LookupAnswersIndex(c, s, i, key);
    if i.Root? {
      if ToBits(key) in IndexContents(i) {
        LookupFinds(i.tree, ToBits(key));
      } else {
        LookupOfAbsent(i.tree, ToBits(key));
      }
    }
  }

  /** The lookup loop, over persisted nodes and any staged ones. */
  method LookupKey(c: Codec, s: Source, root: Digest, key: Bytes) returns (r: Outcome<Option<Bytes>>)
    ensures r == LookupRoot(c, s, root, key)
  {
    hide ReadStaged, PrefixMatches, KeyBit, ValidPath;
    if !ValidByteKey(key) {
      return Err(Malformed);
    }
    if root == EmptyRoot(c) {
      return Ok(None);
    }
    var digest, constraint, remaining := root, Unconstrained, NodeBudget(|key|);
    while true
      invariant LookupFrom(c, s, digest, constraint, key, remaining) == LookupRoot(c, s, root, key)
      decreases remaining
    {
      if remaining == 0 {
        return Err(BudgetExhausted);
      }
      remaining := remaining - 1;
      var read := ReadStaged(c, s, digest);
      if read.Err? {
        return Err(read.error);
      }
      var node := read.value;
      if !ValidPath(node, constraint) {
        return Err(Malformed);
      }
      match node {
        case LeafNode(_, found, value) =>
          return Ok(if found == key then Some(value) else None);
        case BranchNode(_, prefix, split, left, right) =>
          if !PrefixMatches(key, prefix, split) {
            return Ok(None);
          }
          if split >= BitLen(key) {
            return Err(Malformed);
          }
          var rightward := KeyBit(key, split);
          digest := if rightward then right else left;
          constraint := Below(prefix, split, rightward);
      }
    }
  }
}
