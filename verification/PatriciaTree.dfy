/**
 The trie as a value, over keys as bit strings. Its central fact is `Canonical`: a
 well-formed tree is determined by the map it stores.
 */
module PatriciaTree {
  import opened BitStrings
  import opened KeyBits

  const MAX_KEY_BITS: nat := 96 * 8
  const MAX_VALUE_BYTES: nat := 4 * 1024

  type Value = Bytes

  datatype Record = Record(key: Bits, value: Value)

  datatype Tree =
    | Leaf(key: Bits, value: Value)
    | Branch(path: Bits, left: Tree, right: Tree)

  /** An empty index has no node at all. */
  datatype Index = Empty | Root(tree: Tree)

  predicate ValidKey(key: Bits) {
    0 < |key| <= MAX_KEY_BITS && |key| % 8 == 0
  }

  predicate ValidValue(value: Value) {
    0 < |value| <= MAX_VALUE_BYTES
  }

  predicate ValidRecord(r: Record) {
    ValidKey(r.key) && ValidValue(r.value)
  }

  /** The bits that every key below a node starts with. */
  function Path(t: Tree): Bits {
    match t
    case Leaf(key, _) => key
    case Branch(path, _, _) => path
  }

  /** Every node passes the store's node check and its parent's path check. */
  predicate WF(t: Tree) {
    match t
    case Leaf(key, value) => ValidRecord(Record(key, value))
    case Branch(path, left, right) =>
      && |path| < MAX_KEY_BITS
      && WF(left) && WF(right)
      && path + [false] <= Path(left)
      && path + [true] <= Path(right)
  }

  function Contents(t: Tree): map<Bits, Value> {
    match t
    case Leaf(key, value) => map[key := value]
    case Branch(_, left, right) => Contents(left) + Contents(right)
  }

  predicate WFIndex(i: Index) {
    i.Root? ==> WF(i.tree)
  }

  function IndexContents(i: Index): map<Bits, Value> {
    if i.Empty? then map[] else Contents(i.tree)
  }

  /** No key is a proper prefix of another. */
  ghost predicate PrefixFree(keys: set<Bits>) {
    forall a, b :: a in keys && b in keys && a <= b ==> a == b
  }

  /** Some key of the tree, which therefore is never empty. */
  ghost function SomeKey(t: Tree): (k: Bits)
    ensures k in Contents(t)
  {
    if t.Leaf? then t.key else SomeKey(t.left)
  }

  lemma UnderPath(t: Tree, k: Bits)
    requires WF(t) && k in Contents(t)
    ensures Path(t) <= k && ValidKey(k) && ValidValue(Contents(t)[k])
  {
    if t.Branch? {
      if k in Contents(t.right) {
        UnderPath(t.right, k);
        assert t.path + [true] <= k;
      } else {
        UnderPath(t.left, k);
        assert t.path + [false] <= k;
      }
    }
  }

  /** A branch sends each key to the side its next bit names. */
  lemma Side(t: Tree, k: Bits)
    requires WF(t) && t.Branch?
    ensures k in Contents(t.left) <==> k in Contents(t) && |t.path| < |k| && !k[|t.path|]
    ensures k in Contents(t.right) <==> k in Contents(t) && |t.path| < |k| && k[|t.path|]
    ensures k in Contents(t.left) ==> Contents(t)[k] == Contents(t.left)[k]
    ensures k in Contents(t.right) ==> Contents(t)[k] == Contents(t.right)[k]
    ensures k in Contents(t) ==> t.path <= k
  {
    if k in Contents(t.left) {
      UnderPath(t.left, k);
      assert (t.path + [false])[|t.path|] == k[|t.path|];
    }
    if k in Contents(t.right) {
      UnderPath(t.right, k);
      assert (t.path + [true])[|t.path|] == k[|t.path|];
    }
  }

  /** A branch's path is exactly what its keys share: keys fork right below it. */
  lemma Fork(t: Tree) returns (l: Bits, r: Bits)
    requires WF(t) && t.Branch?
    ensures l in Contents(t) && t.path + [false] <= l && l in Contents(t.left)
    ensures r in Contents(t) && t.path + [true] <= r && r in Contents(t.right)
  {
    l, r := SomeKey(t.left), SomeKey(t.right);
    UnderPath(t.left, l);
    UnderPath(t.right, r);
  }

  lemma NotEmpty(t: Tree)
    ensures Contents(t) != map[]
  {
    var k := SomeKey(t);
  }

  /** What two forking keys share is no longer than where they fork. */
  lemma ForkBound(path: Bits, l: Bits, r: Bits, p: Bits)
    requires path + [false] <= l && path + [true] <= r
    requires p <= l && p <= r
    ensures p <= path
  {
    assert l[|path|] == (path + [false])[|path|] && r[|path|] == (path + [true])[|path|];
    assert l[..|path|] == (path + [false])[..|path|] == path;
    assert r[..|path|] == (path + [true])[..|path|] == path;
    CommonPrefixUnique(l, r, |path|);
    SharedWithinCommon(l, r, p);
  }

  /** Whatever all keys of a tree share is a prefix of its path. */
  lemma PathIsLongest(t: Tree, p: Bits)
    requires WF(t)
    requires forall k :: k in Contents(t) ==> p <= k
    ensures p <= Path(t)
  {
    if t.Branch? {
      var l, r := Fork(t);
      ForkBound(t.path, l, r, p);
    } else {
      assert t.key in Contents(t);
    }
  }

  lemma PathsAgree(t: Tree, u: Tree)
    requires WF(t) && WF(u) && Contents(t) == Contents(u)
    ensures Path(t) == Path(u)
  {
    forall k | k in Contents(t) ensures Path(t) <= k && Path(u) <= k {
      UnderPath(t, k);
      UnderPath(u, k);
    }
    PathIsLongest(t, Path(u));
    PathIsLongest(u, Path(t));
  }

  lemma BranchKeepsTwoKeys(t: Tree, u: Tree)
    requires WF(t) && WF(u) && Contents(t) == Contents(u)
    requires t.Branch?
    ensures u.Branch?
  {
    var l, r := Fork(t);
    assert l[|t.path|] == (t.path + [false])[|t.path|];
    assert r[|t.path|] == (t.path + [true])[|t.path|];
    assert l in Contents(u) && r in Contents(u) && l != r;
  }

  lemma SidesAgree(t: Tree, u: Tree)
    requires WF(t) && WF(u) && t.Branch? && u.Branch?
    requires t.path == u.path && Contents(t) == Contents(u)
    ensures Contents(t.left) == Contents(u.left)
    ensures Contents(t.right) == Contents(u.right)
  {
    hide Contents, WF;
    forall k ensures k in Contents(t.left) <==> k in Contents(u.left)
             ensures k in Contents(t.right) <==> k in Contents(u.right)
             ensures k in Contents(t.left) ==> Contents(t.left)[k] == Contents(u.left)[k]
             ensures k in Contents(t.right) ==> Contents(t.right)[k] == Contents(u.right)[k]
    {
      Side(t, k);
      Side(u, k);
    }
  }

  /** Two well-formed trees with the same contents are the same tree. */
  lemma {:induction false} Canonical(t: Tree, u: Tree)
    requires WF(t) && WF(u)
    requires Contents(t) == Contents(u)
    ensures t == u
  {
    PathsAgree(t, u);
    if t.Branch? {
      BranchKeepsTwoKeys(t, u);
      SidesAgree(t, u);
      Canonical(t.left, u.left);
      Canonical(t.right, u.right);
    } else if u.Branch? {
      BranchKeepsTwoKeys(u, t);
    } else {
      assert t.key in Contents(t) && Contents(t)[t.key] == Contents(u)[t.key];
    }
  }

  lemma CanonicalIndex(i: Index, j: Index)
    requires WFIndex(i) && WFIndex(j)
    requires IndexContents(i) == IndexContents(j)
    ensures i == j
  {
    if i.Root? {
      NotEmpty(i.tree);
    }
    if j.Root? {
      NotEmpty(j.tree);
    }
    if i.Root? && j.Root? {
      Canonical(i.tree, j.tree);
    }
  }

  /** A well-formed tree never stores a key beside its own extension. */
  lemma {:induction false} ContentsPrefixFree(t: Tree)
    requires WF(t)
    ensures PrefixFree(Contents(t).Keys)
  {
    if t.Branch? {
      ContentsPrefixFree(t.left);
      ContentsPrefixFree(t.right);
      forall a, b | a in Contents(t) && b in Contents(t) && a <= b ensures a == b {
        Side(t, a);
        Side(t, b);
        assert a[|t.path|] == b[|t.path|];
        if a in Contents(t.left) {
          assert b in Contents(t.left);
        } else {
          assert a in Contents(t.right) && b in Contents(t.right);
        }
      }
    }
  }
}
