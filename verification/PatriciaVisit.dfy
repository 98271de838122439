/**
 Ordered traversals: the prefix lookup with a limit, and the full visit, which
 is the prefix lookup of the empty prefix stopped by its visitor.
 */
module PatriciaVisit {
  import opened Wrappers
  import opened BitStrings
  import opened KeyBits
  import opened PrefixBytes
  import opened ContentAddress
  import opened PatriciaTree
  import opened PatriciaPoint
  import opened PatriciaNodes
  import opened PatriciaLookup

  datatype Entry = Entry(key: Bytes, value: Bytes)
  type Entries = seq<Entry>

  /** A node still to be visited, with its constraint and its path's budget. */
  datatype Pending = Pending(digest: Digest, constraint: Constraint, remaining: nat)

  /** Visits one subtree depth first, left before right, until `limit` entries are found. */
  function CollectFrom(c: Codec, s: Source, p: Pending, requested: Bytes, limit: nat, found: Entries): Outcome<Entries>
    decreases p.remaining
  {
    if p.remaining == 0 then Err(BudgetExhausted)
    else match ReadStaged(c, s, p.digest)
      case Err(e) => Err(e)
      case Ok(node) =>
        if !ValidPath(node, p.constraint) then Err(Malformed)
        else if node.LeafNode? then
          Ok(if requested <= node.key then found + [Entry(node.key, node.value)] else found)
        else if !PrefixMatches(requested, node.prefix, Least(node.prefixBits, BitLen(requested))) then Ok(found)
        else if BitLen(requested) <= node.prefixBits then
          var first := CollectFrom(c, s, Child(node, false, p.remaining - 1), requested, limit, found);
          if first.Err? || |first.value| == limit then first
          else CollectFrom(c, s, Child(node, true, p.remaining - 1), requested, limit, first.value)
        else
          CollectFrom(c, s, Child(node, KeyBit(requested, node.prefixBits), p.remaining - 1), requested, limit, found)
  }

  function Child(n: Node, right: bool, remaining: nat): Pending
    requires n.BranchNode?
  {
    Pending(if right then n.right else n.left, Below(n.prefix, n.prefixBits, right), remaining)
  }

  /** Visits a stack of subtrees, last one first. */
  function CollectAll(c: Codec, s: Source, stack: seq<Pending>, requested: Bytes, limit: nat, found: Entries): Outcome<Entries>
    decreases |stack|
  {
    if |stack| == 0 || |found| == limit then Ok(found)
    else
      var r := CollectFrom(c, s, stack[|stack| - 1], requested, limit, found);
      if r.Err? then r else CollectAll(c, s, stack[..|stack| - 1], requested, limit, r.value)
  }

  /** Going on with the next subtree, unless the visit failed or is full. */
  function CollectMore(c: Codec, s: Source, p: Pending, requested: Bytes, limit: nat, r: Outcome<Entries>): Outcome<Entries> {
    if r.Err? || |r.value| == limit then r else CollectFrom(c, s, p, requested, limit, r.value)
  }

  function CollectRest(c: Codec, s: Source, stack: seq<Pending>, requested: Bytes, limit: nat, r: Outcome<Entries>): Outcome<Entries> {
    if r.Err? then r else CollectAll(c, s, stack, requested, limit, r.value)
  }

  /** Up to `limit` stored entries whose key starts with `requested`. */
  function CollectRoot(c: Codec, s: Source, root: Digest, requested: Bytes, limit: nat): Outcome<Entries> {
    if root == EmptyRoot(c) || limit == 0 then Ok([])
    else CollectFrom(c, s, Pending(root, Unconstrained, NodeBudget(MAX_KEY_BYTES)), requested, limit, [])
  }

  function LookupPrefixLimited(c: Codec, s: Source, root: Digest, requested: Bytes, limit: nat): Outcome<Entries> {
    if !ValidByteKey(requested) then Err(Malformed) else CollectRoot(c, s, root, requested, limit)
  }

  lemma CollectTwo(c: Codec, s: Source, rest: seq<Pending>, l: Pending, r: Pending, requested: Bytes, limit: nat, found: Entries)
    requires |found| != limit
    ensures CollectAll(c, s, rest + [r, l], requested, limit, found)
         == CollectRest(c, s, rest, requested, limit,
                        CollectMore(c, s, r, requested, limit, CollectFrom(c, s, l, requested, limit, found)))
  {
    hide CollectFrom;
    var stack := rest + [r, l];
    assert stack[..|stack| - 1] == rest + [r];
    assert (rest + [r])[..|rest|] == rest;
  }

  lemma CollectOne(c: Codec, s: Source, rest: seq<Pending>, p: Pending, requested: Bytes, limit: nat, found: Entries)
    requires |found| != limit
    ensures CollectAll(c, s, rest + [p], requested, limit, found)
         == CollectRest(c, s, rest, requested, limit, CollectFrom(c, s, p, requested, limit, found))
  {
  }

  /** Visits that the stack's budgets still admit: each node makes way for two cheaper ones. */
  ghost function Weight(remaining: nat): nat {
    if remaining == 0 then 1 else 2 * Weight(remaining - 1) + 1
  }

  ghost function StackWeight(stack: seq<Pending>): nat {
    if |stack| == 0 then 0
    else StackWeight(stack[..|stack| - 1]) + Weight(stack[|stack| - 1].remaining)
  }

  lemma WeightOfOne(rest: seq<Pending>, p: Pending)
    ensures StackWeight(rest + [p]) == StackWeight(rest) + Weight(p.remaining)
  {
  }

  lemma WeightOfTwo(rest: seq<Pending>, r: Pending, l: Pending)
    ensures StackWeight(rest + [r, l]) == StackWeight(rest) + Weight(r.remaining) + Weight(l.remaining)
  {
    WeightOfOne(rest, r);
    WeightOfOne(rest + [r], l);
    assert rest + [r] + [l] == rest + [r, l];
  }

  /** The prefix lookup's loop over an explicit stack. */
  method CollectPrefix(c: Codec, s: Source, root: Digest, requested: Bytes, limit: nat) returns (r: Outcome<Entries>)
    requires limit > 0
    ensures r == CollectFrom(c, s, Pending(root, Unconstrained, NodeBudget(MAX_KEY_BYTES)), requested, limit, [])
  {
    hide CollectFrom, ReadStaged, ValidPath, PrefixMatches, KeyBit;
    var first := Pending(root, Unconstrained, NodeBudget(MAX_KEY_BYTES));
    var pending, found := [first], [];
    CollectOne(c, s, [], first, requested, limit, found);
    assert [] + [first] == [first];
    ghost var goal := CollectAll(c, s, pending, requested, limit, found);
    while |pending| > 0
      invariant |found| != limit
      invariant CollectAll(c, s, pending, requested, limit, found) == goal
      decreases StackWeight(pending)
    {
      var p, rest := pending[|pending| - 1], pending[..|pending| - 1];
      assert pending == rest + [p];
      CollectOne(c, s, rest, p, requested, limit, found);
      WeightOfOne(rest, p);
      CollectUnfolds(c, s, p, requested, limit, found);
      pending := rest;
      if p.remaining == 0 {
        return Err(BudgetExhausted);
      }
      var read := ReadStaged(c, s, p.digest);
      if read.Err? {
        return Err(read.error);
      }
      var node := read.value;
      if !ValidPath(node, p.constraint) {
        return Err(Malformed);
      }
      if node.LeafNode? {
        if requested <= node.key {
          found := found + [Entry(node.key, node.value)];
          if |found| == limit {
            return Ok(found);
          }
        }
      } else if PrefixMatches(requested, node.prefix, Least(node.prefixBits, BitLen(requested))) {
        if BitLen(requested) <= node.prefixBits {
          var right, left := Child(node, true, p.remaining - 1), Child(node, false, p.remaining - 1);
          CollectTwo(c, s, rest, left, right, requested, limit, found);
          WeightOfTwo(rest, right, left);
          pending := rest + [right, left];
        } else {
          var child := Child(node, KeyBit(requested, node.prefixBits), p.remaining - 1);
          CollectOne(c, s, rest, child, requested, limit, found);
          WeightOfOne(rest, child);
          pending := rest + [child];
        }
      }
    }
    return Ok(found);
  }

  /** One step of `CollectFrom`, spelled out. */
  lemma CollectUnfolds(c: Codec, s: Source, p: Pending, requested: Bytes, limit: nat, found: Entries)
    ensures p.remaining == 0 ==> CollectFrom(c, s, p, requested, limit, found) == Err(BudgetExhausted)
    ensures p.remaining > 0 && ReadStaged(c, s, p.digest).Err? ==>
              CollectFrom(c, s, p, requested, limit, found) == Err(ReadStaged(c, s, p.digest).error)
    ensures p.remaining > 0 && ReadStaged(c, s, p.digest).Ok? ==>
              CollectFrom(c, s, p, requested, limit, found) == CollectNode(c, s, p, ReadStaged(c, s, p.digest).value, requested, limit, found)
  {
  }

  function CollectNode(c: Codec, s: Source, p: Pending, node: Node, requested: Bytes, limit: nat, found: Entries): Outcome<Entries>
    requires p.remaining > 0
  {
    if !ValidPath(node, p.constraint) then Err(Malformed)
    else if node.LeafNode? then
      Ok(if requested <= node.key then found + [Entry(node.key, node.value)] else found)
    else if !PrefixMatches(requested, node.prefix, Least(node.prefixBits, BitLen(requested))) then Ok(found)
    else if BitLen(requested) <= node.prefixBits then
      CollectMore(c, s, Child(node, true, p.remaining - 1), requested, limit,
                  CollectFrom(c, s, Child(node, false, p.remaining - 1), requested, limit, found))
    else
      CollectFrom(c, s, Child(node, KeyBit(requested, node.prefixBits), p.remaining - 1), requested, limit, found)
  }

  // ----- what the traversals find -----

  /** The stored entries from left to right. */
  function EntriesOf(t: Tree): Entries {
    match t
    case Leaf(key, value) => [Entry(Pack(key), value)]
    case Branch(_, left, right) => EntriesOf(left) + EntriesOf(right)
  }

  function Matching(es: Entries, requested: Bytes): Entries {
    if |es| == 0 then []
    else (if requested <= es[0].key then [es[0]] else []) + Matching(es[1..], requested)
  }

  function Take(es: Entries, n: nat): Entries {
    if n <= |es| then es[..n] else es
  }

  lemma {:induction false} MatchingAppend(a: Entries, b: Entries, requested: Bytes)
    ensures Matching(a + b, requested) == Matching(a, requested) + Matching(b, requested)
  {
    if |a| == 0 {
      assert a + b == b;
    } else {
      MatchingAppend(a[1..], b, requested);
      assert (a + b)[1..] == a[1..] + b && (a + b)[0] == a[0];
      var head := if requested <= a[0].key then [a[0]] else [];
      assert head + (Matching(a[1..], requested) + Matching(b, requested)) == (head + Matching(a[1..], requested)) + Matching(b, requested);
    }
  }

  lemma MatchingNone(es: Entries, requested: Bytes)
    requires forall e :: e in es ==> !(requested <= e.key)
    ensures Matching(es, requested) == []
  {
  }

  lemma EntryUnder(t: Tree, e: Entry)
    requires WF(t) && e in EntriesOf(t)
    ensures ToBits(e.key) in Contents(t) && Contents(t)[ToBits(e.key)] == e.value && Path(t) <= ToBits(e.key)
  {
    if t.Leaf? {
      PackedKey(t.key);
    } else if e in EntriesOf(t.left) {
      EntryUnder(t.left, e);
      Side(t, ToBits(e.key));
    } else {
      EntryUnder(t.right, e);
      Side(t, ToBits(e.key));
    }
  }

  lemma EntryOfKey(t: Tree, k: Bits)
    requires WF(t) && k in Contents(t)
    ensures Entry(Pack(k), Contents(t)[k]) in EntriesOf(t) && ToBits(Pack(k)) == k
  {
    if t.Leaf? {
      PackedKey(t.key);
    } else {
      Side(t, k);
      EntryOfKey(if k in Contents(t.left) then t.left else t.right, k);
    }
  }

  /** Byte keys in strictly ascending order. */
  ghost predicate Ascending(es: Entries) {
    forall i, j :: 0 <= i < j < |es| ==> Less(es[i].key, es[j].key)
  }

  lemma SidesInOrder(path: Bits, a: Bytes, b: Bytes)
    requires path + [false] <= ToBits(a) && path + [true] <= ToBits(b)
    ensures Less(a, b)
  {
    var x, y := ToBits(a), ToBits(b);
    assert x[..|path|] == (path + [false])[..|path|] == path == (path + [true])[..|path|] == y[..|path|];
    assert x[|path|] == (path + [false])[|path|] && y[|path|] == (path + [true])[|path|];
    LessAt(x, y, |path|);
    LessIsBitLess(a, b);
  }

  lemma {:induction false} EntriesAscend(t: Tree)
    requires WF(t)
    ensures Ascending(EntriesOf(t))
  {
    if t.Branch? {
      EntriesAscend(t.left);
      EntriesAscend(t.right);
      forall a, b | a in EntriesOf(t.left) && b in EntriesOf(t.right) ensures Less(a.key, b.key) {
        EntryUnder(t.left, a);
        EntryUnder(t.right, b);
        SidesInOrder(t.path, a.key, b.key);
      }
    }
  }

  /** Entries of a tree can start with `requested` only if its path and `requested` agree. */
  lemma MatchAgrees(t: Tree, requested: Bytes, e: Entry)
    requires WF(t) && e in EntriesOf(t) && requested <= e.key
    ensures var n := Least(|Path(t)|, BitLen(requested)); ToBits(requested)[..n] == Path(t)[..n]
    ensures |Path(t)| < BitLen(requested) ==> t.Branch? ==> ToBits(requested)[|Path(t)|] == ToBits(e.key)[|Path(t)|]
  {
    hide WF, EntriesOf, Contents, ToBits;
    EntryUnder(t, e);
    PrefixIsBytePrefix(requested, e.key);
    var x, y := ToBits(requested), ToBits(e.key);
    var n := Least(|Path(t)|, |x|);
    assert x[..n] == y[..|x|][..n] == y[..n] == y[..|Path(t)|][..n];
  }

  lemma NoMatch(c: Codec, t: Tree, requested: Bytes)
    requires WF(t) && t.Branch?
    requires !PrefixMatches(requested, Pack(t.path), Least(|t.path|, BitLen(requested)))
    ensures Matching(EntriesOf(t), requested) == []
  {
    var n := Least(|t.path|, BitLen(requested));
    PackedPath(t.path);
    PrefixMatchesIs(requested, Pack(t.path), n);
    assert ToBits(Pack(t.path))[..n] == ToBits(Pack(t.path))[..|t.path|][..n] == t.path[..n];
    forall e | e in EntriesOf(t) ensures !(requested <= e.key) {
      if requested <= e.key {
        MatchAgrees(t, requested, e);
      }
    }
    MatchingNone(EntriesOf(t), requested);
  }

  /** A request longer than a branch's path can match on one side only. */
  lemma MatchOneSide(t: Tree, requested: Bytes)
    requires WF(t) && t.Branch? && |t.path| < BitLen(requested)
    ensures var right := KeyBit(requested, |t.path|);
      Matching(EntriesOf(t), requested) == Matching(EntriesOf(if right then t.right else t.left), requested)
  {
    var right := KeyBit(requested, |t.path|);
    KeyBitIs(requested, |t.path|);
    MatchingAppend(EntriesOf(t.left), EntriesOf(t.right), requested);
    var other := if right then t.left else t.right;
    forall e | e in EntriesOf(other) ensures !(requested <= e.key) {
      EntryUnder(other, e);
      Side(t, ToBits(e.key));
      if requested <= e.key {
        MatchAgrees(t, requested, e);
      }
    }
    MatchingNone(EntriesOf(other), requested);
  }

  lemma TakeTwice(found: Entries, a: Entries, b: Entries, limit: nat)
    requires |found| < limit
    ensures var first := found + Take(a, limit - |found|);
      |first| <= limit &&
      found + Take(a + b, limit - |found|)
        == if |first| == limit then first else first + Take(b, limit - |first|)
  {
  }

  /** Over a readable tree a visit appends the matching entries, in order, up to the limit. */
  lemma {:induction false} CollectTree(c: Codec, s: Source, t: Tree, p: Pending, requested: Bytes, limit: nat, found: Entries)
    requires WF(t) && Readable(c, s, t) && p.digest == TreeDigest(c, t) && ValidPath(NodeOf(c, t), p.constraint)
    requires p.remaining + Floor(p.constraint) >= NodeBudget(MAX_KEY_BYTES) && p.remaining > 0
    requires |found| < limit
    ensures CollectFrom(c, s, p, requested, limit, found)
         == Ok(found + Take(Matching(EntriesOf(t), requested), limit - |found|))
    decreases t
  {
    hide ReadStaged, ValidPath, PrefixMatches, KeyBit, CollectFrom, Pack, Matching, Take, WF, Path;
    CollectUnfolds(c, s, p, requested, limit, found);
    if t.Leaf? {
      CollectLeaf(t, requested, limit, found);
    } else if !PrefixMatches(requested, Pack(t.path), Least(|t.path|, BitLen(requested))) {
      NoMatch(c, t, requested);
      TakeNone(found, limit);
    } else if BitLen(requested) <= |t.path| {
      CollectBoth(c, s, t, p, requested, limit, found);
    } else {
      var right := KeyBit(requested, |t.path|);
      MatchOneSide(t, requested);
      PendingChild(c, t, p, right);
      CollectTree(c, s, if right then t.right else t.left, Child(NodeOf(c, t), right, p.remaining - 1), requested, limit, found);
    }
  }

  lemma CollectLeaf(t: Tree, requested: Bytes, limit: nat, found: Entries)
    requires t.Leaf? && |found| < limit
    ensures found + Take(Matching(EntriesOf(t), requested), limit - |found|)
         == if requested <= Pack(t.key) then found + [Entry(Pack(t.key), t.value)] else found
  {
  }

  lemma TakeNone(found: Entries, limit: nat)
    requires |found| < limit
    ensures found + Take([], limit - |found|) == found
  {
  }

  lemma PendingChild(c: Codec, t: Tree, p: Pending, right: bool)
    requires WF(t) && t.Branch? && ValidPath(NodeOf(c, t), p.constraint)
    requires p.remaining + Floor(p.constraint) >= NodeBudget(MAX_KEY_BYTES) && p.remaining > 0
    ensures p.remaining > 1
    ensures var child, q := if right then t.right else t.left, Child(NodeOf(c, t), right, p.remaining - 1);
      && WF(child) && q.digest == TreeDigest(c, child) && ValidPath(NodeOf(c, child), q.constraint)
      && q.remaining + Floor(q.constraint) >= NodeBudget(MAX_KEY_BYTES) && q.remaining > 0
  {
    hide ValidPath;
    PathAboveFloor(NodeOf(c, t), p.constraint);
    ChildPathValid(c, t.path, right, if right then t.right else t.left);
  }

  lemma {:induction false} CollectBoth(c: Codec, s: Source, t: Tree, p: Pending, requested: Bytes, limit: nat, found: Entries)
    requires WF(t) && Readable(c, s, t) && t.Branch? && ValidPath(NodeOf(c, t), p.constraint)
    requires p.remaining + Floor(p.constraint) >= NodeBudget(MAX_KEY_BYTES) && p.remaining > 0
    requires |found| < limit
    ensures p.remaining > 1
    ensures CollectMore(c, s, Child(NodeOf(c, t), true, p.remaining - 1), requested, limit,
                        CollectFrom(c, s, Child(NodeOf(c, t), false, p.remaining - 1), requested, limit, found))
         == Ok(found + Take(Matching(EntriesOf(t), requested), limit - |found|))
    decreases t, 0
  {
    hide ReadStaged, ValidPath, PrefixMatches, KeyBit, CollectFrom, Pack, Matching, Take, WF, Path;
    PendingChild(c, t, p, false);
    PendingChild(c, t, p, true);
    var a, b := Matching(EntriesOf(t.left), requested), Matching(EntriesOf(t.right), requested);
    MatchingAppend(EntriesOf(t.left), EntriesOf(t.right), requested);
    TakeTwice(found, a, b, limit);
    CollectTree(c, s, t.left, Child(NodeOf(c, t), false, p.remaining - 1), requested, limit, found);
    var first := found + Take(a, limit - |found|);
    if |first| < limit {
      CollectTree(c, s, t.right, Child(NodeOf(c, t), true, p.remaining - 1), requested, limit, first);
    }
  }

  lemma MatchingIn(es: Entries, requested: Bytes, e: Entry)
    ensures e in Matching(es, requested) <==> e in es && requested <= e.key
  {
  }

  lemma {:induction false} MatchingAscends(es: Entries, requested: Bytes)
    requires Ascending(es)
    ensures Ascending(Matching(es, requested))
  {
    if |es| > 0 {
      MatchingAscends(es[1..], requested);
      forall e | e in Matching(es[1..], requested) ensures Less(es[0].key, e.key) {
        MatchingIn(es[1..], requested, e);
        var i :| 0 <= i < |es[1..]| && es[1..][i] == e;
        assert e == es[i + 1];
      }
    }
  }

  /** The first `limit` entries of map `m`, in key order, whose key starts with `requested`. */
  ghost predicate FirstMatches(es: Entries, m: map<Bits, Value>, requested: Bytes, limit: nat) {
    && Ascending(es) && |es| <= limit
    && (forall e :: e in es ==> requested <= e.key && ToBits(e.key) in m && m[ToBits(e.key)] == e.value)
    && (forall key: Bytes :: ToBits(key) in m && requested <= key ==>
          Entry(key, m[ToBits(key)]) in es || (|es| == limit && forall e :: e in es ==> Less(e.key, key)))
  }

  lemma TakeIsFirst(es: Entries, e: Entry, limit: nat)
    requires Ascending(es) && e in es
    ensures e in Take(es, limit) || (|Take(es, limit)| == limit && forall f :: f in Take(es, limit) ==> Less(f.key, e.key))
  {
  }

  lemma FirstMatchesOfTree(t: Tree, requested: Bytes, limit: nat)
    requires WF(t)
    ensures FirstMatches(Take(Matching(EntriesOf(t), requested), limit), Contents(t), requested, limit)
  {
    hide ToBits, Pack, WF, Less, Contents, EntriesOf;
    var all := Matching(EntriesOf(t), requested);
    EntriesAscend(t);
    MatchingAscends(EntriesOf(t), requested);
    forall e | e in Take(all, limit)
      ensures requested <= e.key && ToBits(e.key) in Contents(t) && Contents(t)[ToBits(e.key)] == e.value
    {
      MatchingIn(EntriesOf(t), requested, e);
      EntryUnder(t, e);
    }
    forall key: Bytes | ToBits(key) in Contents(t) && requested <= key
      ensures var e, es := Entry(key, Contents(t)[ToBits(key)]), Take(all, limit);
        e in es || (|es| == limit && forall f :: f in es ==> Less(f.key, key))
    {
      var e := Entry(key, Contents(t)[ToBits(key)]);
      EntryOfKey(t, ToBits(key));
      PackOfKey(key);
      MatchingIn(EntriesOf(t), requested, e);
      TakeIsFirst(all, e, limit);
    }
  }

  /** A prefix visit returns exactly the first matching records of the map, in key order. */
  lemma CollectAnswersMap(c: Codec, s: Source, i: Index, requested: Bytes, limit: nat)
    requires Faithful(c) && FitIndex(c, i) && IndexReadable(c, s, i)
    ensures var r := CollectRoot(c, s, RootDigest(c, i), requested, limit);
      r.Ok? && FirstMatches(r.value, IndexContents(i), requested, limit)
  {
    hide Matching, EntriesOf, TreeDigest, ToBits, WF, Take, Readable, Contents, ValidPath, CollectFrom;
    if i.Root? {
      NodeIsOwn(c, i.tree);
      if limit > 0 {
        assert ValidPath(NodeOf(c, i.tree), Unconstrained) by { NoConstraint(NodeOf(c, i.tree)); }
        CollectTree(c, s, i.tree, Pending(TreeDigest(c, i.tree), Unconstrained, NodeBudget(MAX_KEY_BYTES)), requested, limit, []);
        FirstMatchesOfTree(i.tree, requested, limit);
        assert [] + Take(Matching(EntriesOf(i.tree), requested), limit) == Take(Matching(EntriesOf(i.tree), requested), limit);
      }
    }
  }

  lemma NoConstraint(n: Node)
    ensures ValidPath(n, Unconstrained)
  {
  }

  /** The full visit yields every record once, in strictly ascending key order. */
  lemma VisitAllAnswersMap(c: Codec, s: Source, i: Index, limit: nat)
    requires Faithful(c) && FitIndex(c, i) && IndexReadable(c, s, i)
    requires i.Root? ==> limit > |EntriesOf(i.tree)|
    ensures var r := CollectRoot(c, s, RootDigest(c, i), [], limit);
      && r.Ok? && Ascending(r.value)
      && (forall key: Bytes, value :: ToBits(key) in IndexContents(i) && IndexContents(i)[ToBits(key)] == value <==> Entry(key, value) in r.value)
  {
    CollectAnswersMap(c, s, i, [], limit);
    VisitFits(c, s, i, limit);
  }

  lemma VisitFits(c: Codec, s: Source, i: Index, limit: nat)
    requires Faithful(c) && FitIndex(c, i) && IndexReadable(c, s, i)
    requires i.Root? ==> limit > |EntriesOf(i.tree)|
    ensures var r := CollectRoot(c, s, RootDigest(c, i), [], limit); r.Ok? && (i.Root? ==> |r.value| < limit)
  {
    hide TreeDigest, ToBits, WF, Readable, CollectFrom, EntriesOf, ValidPath, Matching;
    if i.Root? {
      NodeIsOwn(c, i.tree);
      NoConstraint(NodeOf(c, i.tree));
      CollectTree(c, s, i.tree, Pending(TreeDigest(c, i.tree), Unconstrained, NodeBudget(MAX_KEY_BYTES)), [], limit, []);
      MatchingShort(EntriesOf(i.tree), []);
    }
  }

  lemma MatchingShort(es: Entries, requested: Bytes)
    ensures |Matching(es, requested)| <= |es|
  {
  }

  // ----- what holds in any store -----

  ghost predicate StagedValid(c: Codec, s: Source) {
    forall d :: d in s.staged ==> ValidNode(c, s.staged[d])
  }

  lemma ReadBranchBits(c: Codec, s: Source, d: Digest)
    requires StagedValid(c, s)
    ensures ReadStaged(c, s, d) != Err(BudgetExhausted)
    ensures var r := ReadStaged(c, s, d); r.Ok? && r.value.BranchNode? ==> r.value.prefixBits < MAX_KEY_BITS
  {
  }

  /** In any store no path of a visit runs out of its node budget. */
  lemma {:induction false} CollectIsBounded(c: Codec, s: Source, p: Pending, requested: Bytes, limit: nat, found: Entries)
    requires StagedValid(c, s)
    requires p.remaining + Floor(p.constraint) >= NodeBudget(MAX_KEY_BYTES) && p.remaining > 0
    ensures CollectFrom(c, s, p, requested, limit, found) != Err(BudgetExhausted)
    decreases p.remaining
  {
    hide ReadStaged, PrefixMatches, KeyBit, CollectFrom;
    CollectUnfolds(c, s, p, requested, limit, found);
    ReadBranchBits(c, s, p.digest);
    var read := ReadStaged(c, s, p.digest);
    if read.Ok? && ValidPath(read.value, p.constraint) && read.value.BranchNode? {
      var n := read.value;
      PathAboveFloor(n, p.constraint);
      if BitLen(requested) <= n.prefixBits {
        CollectIsBounded(c, s, Child(n, false, p.remaining - 1), requested, limit, found);
        var first := CollectFrom(c, s, Child(n, false, p.remaining - 1), requested, limit, found);
        if first.Ok? {
          CollectIsBounded(c, s, Child(n, true, p.remaining - 1), requested, limit, first.value);
        }
      } else {
        CollectIsBounded(c, s, Child(n, KeyBit(requested, n.prefixBits), p.remaining - 1), requested, limit, found);
      }
    }
  }

  /** The key lies where the constraint puts every key below it. */
  ghost predicate Within(key: Bytes, k: Constraint) {
    k.Below? ==>
      && k.bits < BitLen(key) && k.bits <= BitLen(k.prefix)
      && ToBits(key)[..k.bits] == ToBits(k.prefix)[..k.bits] && ToBits(key)[k.bits] == k.right
  }

  ghost predicate Fresh(before: Entries, after: Entries, k: Constraint) {
    && before <= after && Ascending(after[|before|..])
    && forall e :: e in after[|before|..] ==> Within(e.key, k)
  }

  lemma PathWithin(n: Node, k: Constraint)
    requires ValidPath(n, k)
    ensures Within(NodePrefix(n), k)
    ensures n.BranchNode? && k.Below? ==> k.bits < n.prefixBits
  {
    if k.Below? {
      PrefixMatchesIs(NodePrefix(n), k.prefix, k.bits);
      KeyBitIs(NodePrefix(n), k.bits);
    }
  }

  lemma WithinParent(key: Bytes, prefix: Bytes, bits: nat, right: bool, k: Constraint)
    requires Within(key, Below(prefix, bits, right)) && Within(prefix, k)
    requires k.Below? ==> k.bits < bits
    ensures Within(key, k)
  {
  }

  lemma WithinInOrder(a: Bytes, b: Bytes, prefix: Bytes, bits: nat)
    requires Within(a, Below(prefix, bits, false)) && Within(b, Below(prefix, bits, true))
    ensures Less(a, b)
  {
    LessAt(ToBits(a), ToBits(b), bits);
    LessIsBitLess(a, b);
  }

  lemma FreshNarrowed(before: Entries, after: Entries, n: Node, right: bool, k: Constraint)
    requires n.BranchNode? && ValidPath(n, k)
    requires Fresh(before, after, Below(n.prefix, n.prefixBits, right))
    ensures Fresh(before, after, k)
  {
    hide Within, ValidPath, Less;
    PathWithin(n, k);
    forall e | e in after[|before|..] ensures Within(e.key, k) {
      WithinParent(e.key, n.prefix, n.prefixBits, right, k);
    }
  }

  lemma FreshJoined(before: Entries, mid: Entries, after: Entries, n: Node, k: Constraint)
    requires n.BranchNode? && ValidPath(n, k)
    requires Fresh(before, mid, Below(n.prefix, n.prefixBits, false))
    requires Fresh(mid, after, Below(n.prefix, n.prefixBits, true))
    ensures Fresh(before, after, k)
  {
    hide Within, ValidPath, Less;
    var a, b := mid[|before|..], after[|mid|..];
    assert after[|before|..] == a + b;
    forall x, y | x in a && y in b ensures Less(x.key, y.key) {
      WithinInOrder(x.key, y.key, n.prefix, n.prefixBits);
    }
    FreshNarrowed(before, mid, n, false, k);
    FreshNarrowed(mid, after, n, true, k);
  }

  /**
   In any store, well-formed or not, a visit finds keys in strictly ascending
   order, so none of them twice: accepted paths keep subtrees apart.
   */
  lemma {:induction false} CollectInOrder(c: Codec, s: Source, p: Pending, requested: Bytes, limit: nat, found: Entries)
    requires CollectFrom(c, s, p, requested, limit, found).Ok?
    ensures Fresh(found, CollectFrom(c, s, p, requested, limit, found).value, p.constraint)
    decreases p.remaining
  {
    hide ReadStaged, PrefixMatches, KeyBit, CollectFrom, Within, ValidPath, Less;
    CollectUnfolds(c, s, p, requested, limit, found);
    var n := ReadStaged(c, s, p.digest).value;
    if n.LeafNode? {
      PathWithin(n, p.constraint);
    } else if PrefixMatches(requested, n.prefix, Least(n.prefixBits, BitLen(requested))) {
      if BitLen(requested) <= n.prefixBits {
        var first := CollectFrom(c, s, Child(n, false, p.remaining - 1), requested, limit, found);
        CollectInOrder(c, s, Child(n, false, p.remaining - 1), requested, limit, found);
        if |first.value| == limit {
          FreshNarrowed(found, first.value, n, false, p.constraint);
        } else {
          CollectInOrder(c, s, Child(n, true, p.remaining - 1), requested, limit, first.value);
          FreshJoined(found, first.value, CollectFrom(c, s, p, requested, limit, found).value, n, p.constraint);
        }
      } else {
        var right := KeyBit(requested, n.prefixBits);
        CollectInOrder(c, s, Child(n, right, p.remaining - 1), requested, limit, found);
        FreshNarrowed(found, CollectFrom(c, s, p, requested, limit, found).value, n, right, p.constraint);
      }
    }
  }
}
