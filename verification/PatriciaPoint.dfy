/**
 Point operations on trie values: lookup, insert and remove of one key, and
 what any run of them leaves behind.
 */
module PatriciaPoint {
  import opened Wrappers
  import opened BitStrings
  import opened ContentAddress
  import opened PatriciaTree

  type Outcome<+T> = Result<T, PatriciaError>

  function Lookup(t: Tree, key: Bits): Outcome<Option<Value>> {
    match t
    case Leaf(found, value) => Ok(if found == key then Some(value) else None)
    case Branch(path, left, right) =>
      if !(path <= key) then Ok(None)
      else if |key| == |path| then Err(Malformed)
      else Lookup(if key[|path|] then right else left, key)
  }

  /** A branch over an existing subtree and a new leaf that part at bit `shared`. */
  function Split(t: Tree, key: Bits, value: Value, shared: nat): Outcome<Tree> {
    if shared >= |key| || shared >= |Path(t)| || key[shared] == Path(t)[shared] then
      Err(Malformed)
    else if key[shared] then
      Ok(Branch(key[..shared], t, Leaf(key, value)))
    else
      Ok(Branch(key[..shared], Leaf(key, value), t))
  }

  function Insert(t: Tree, key: Bits, value: Value): Outcome<Tree> {
    var shared := CommonPrefix(key, Path(t));
    if shared < |Path(t)| then
      Split(t, key, value, shared)
    else
      match t
      case Leaf(found, kept) =>
        if found != key then Split(t, key, value, shared)
        else if kept == value then Ok(t)
        else Ok(Leaf(key, value))
      case Branch(path, left, right) =>
        if |key| == |path| then Err(Malformed)
        else if key[|path|] then
          (match Insert(right, key, value)
           case Ok(r) => Ok(Branch(path, left, r))
           case Err(e) => Err(e))
        else
          (match Insert(left, key, value)
           case Ok(l) => Ok(Branch(path, l, right))
           case Err(e) => Err(e))
  }

  /** Removing from a tree: a leaf's removal promotes its sibling. */
  function Remove(t: Tree, key: Bits): Outcome<Index> {
    match t
    case Leaf(found, _) => Ok(if found == key then Empty else Root(t))
    case Branch(path, left, right) =>
      if !(path <= key) then Ok(Root(t))
      else if |key| == |path| then Err(Malformed)
      else if key[|path|] then
        (match Remove(right, key)
         case Ok(Empty) => Ok(Root(left))
         case Ok(Root(r)) => Ok(Root(Branch(path, left, r)))
         case Err(e) => Err(e))
      else
        (match Remove(left, key)
         case Ok(Empty) => Ok(Root(right))
         case Ok(Root(l)) => Ok(Root(Branch(path, l, right)))
         case Err(e) => Err(e))
  }

  /** Stored keys extend `key` on both sides, so a branch sits exactly at it. */
  ghost predicate ForksAt(m: map<Bits, Value>, key: Bits) {
    && (exists a :: a in m && key + [false] <= a)
    && (exists b :: b in m && key + [true] <= b)
  }

  // ----- lookup -----

  lemma {:induction false} LookupFinds(t: Tree, key: Bits)
    requires WF(t) && key in Contents(t)
    ensures Lookup(t, key) == Ok(Some(Contents(t)[key]))
  {
    if t.Branch? {
      Side(t, key);
      LookupFinds(if key[|t.path|] then t.right else t.left, key);
    }
  }

  lemma ForkOfBranch(t: Tree)
    requires WF(t) && t.Branch?
    ensures ForksAt(Contents(t), t.path)
  {
    var l, r := Fork(t);
  }

  /** A key outside a branch's path, or shorter, forks nowhere below it. */
  lemma NoForkBeside(t: Tree, key: Bits)
    requires WF(t)
    requires t.Leaf? || |key| < |t.path| || !(t.path <= key)
    ensures !ForksAt(Contents(t), key)
  {
    if ForksAt(Contents(t), key) {
      var a :| a in Contents(t) && key + [false] <= a;
      var b :| b in Contents(t) && key + [true] <= b;
      assert a[|key|] == (key + [false])[|key|] && b[|key|] == (key + [true])[|key|];
      UnderPath(t, a);
      UnderPath(t, b);
      ForkBound(key, a, b, Path(t));
    }
  }

  lemma ForkBelow(t: Tree, key: Bits)
    requires WF(t) && t.Branch? && t.path <= key && |t.path| < |key|
    ensures ForksAt(Contents(t), key) <==> ForksAt(Contents(if key[|t.path|] then t.right else t.left), key)
  {
    var child := if key[|t.path|] then t.right else t.left;
    forall a | key + [false] <= a || key + [true] <= a
      ensures a in Contents(t) <==> a in Contents(child)
    {
      Side(t, a);
      assert key <= a by {
        assert (key + [false])[..|key|] == key && (key + [true])[..|key|] == key;
      }
      assert a[|t.path|] == key[|t.path|];
    }
  }

  /**
   A lookup of an absent key answers "absent", except that it reports the tree
   malformed exactly when stored keys extend the key on both sides.
   */
  lemma {:induction false} LookupOfAbsent(t: Tree, key: Bits)
    requires WF(t) && key !in Contents(t)
    ensures Lookup(t, key) == if ForksAt(Contents(t), key) then Err(Malformed) else Ok(None)
  {
    if t.Leaf? || !(t.path <= key) {
      NoForkBeside(t, key);
    } else if |key| == |t.path| {
      ForkOfBranch(t);
    } else {
      Side(t, key);
      ForkBelow(t, key);
      LookupOfAbsent(if key[|t.path|] then t.right else t.left, key);
    }
  }

  // ----- insert -----

  lemma PartedFromPath(t: Tree, key: Bits)
    requires WF(t)
    requires var shared := CommonPrefix(key, Path(t)); shared < |key| && shared < |Path(t)|
    ensures key !in Contents(t)
  {
    if key in Contents(t) {
      UnderPath(t, key);
    }
  }

  lemma OneMoreBit(a: Bits, n: nat)
    requires n < |a|
    ensures a[..n] + [a[n]] <= a
  {
  }

  lemma SplitStores(t: Tree, key: Bits, value: Value, shared: nat)
    requires WF(t) && ValidRecord(Record(key, value))
    requires shared == CommonPrefix(key, Path(t)) && shared < |Path(t)| && shared < |key|
    ensures Split(t, key, value, shared).Ok?
    ensures Stores(Split(t, key, value, shared).value, t, key, value)
  {
    PartedFromPath(t, key);
    OneMoreBit(key, shared);
    OneMoreBit(Path(t), shared);
    assert WF(Leaf(key, value)) && Path(Leaf(key, value)) == key;
    assert Contents(Leaf(key, value)) == map[key := value];
    var u := Split(t, key, value, shared).value;
    if key[shared] {
      assert u == Branch(key[..shared], t, Leaf(key, value));
      assert WF(u);
    } else {
      assert u == Branch(key[..shared], Leaf(key, value), t);
      assert WF(u);
    }
  }

  lemma UpdateLeft(m: map<Bits, Value>, n: map<Bits, Value>, key: Bits, value: Value)
    requires key !in n
    ensures m[key := value] + n == (m + n)[key := value]
  {
  }

  lemma UpdateRight(m: map<Bits, Value>, n: map<Bits, Value>, key: Bits, value: Value)
    ensures m + n[key := value] == (m + n)[key := value]
  {
  }

  lemma BelowBranch(path: Bits, child: Bits, key: Bits)
    requires path <= key && |path| < |key|
    requires path + [key[|path|]] <= child
    ensures path + [key[|path|]] <= key[..CommonPrefix(key, child)]
  {
  }

  lemma InsertRight(t: Tree, key: Bits, value: Value, side: Tree)
    requires WF(t) && t.Branch? && t.path <= key && |t.path| < |key| && key[|t.path|]
    requires Stores(side, t.right, key, value)
    ensures WF(Branch(t.path, t.left, side))
    ensures Contents(Branch(t.path, t.left, side)) == Contents(t)[key := value]
  {
    BelowBranch(t.path, Path(t.right), key);
    UpdateRight(Contents(t.left), Contents(t.right), key, value);
  }

  lemma InsertLeft(t: Tree, key: Bits, value: Value, side: Tree)
    requires WF(t) && t.Branch? && t.path <= key && |t.path| < |key| && !key[|t.path|]
    requires Stores(side, t.left, key, value)
    ensures WF(Branch(t.path, side, t.right))
    ensures Contents(Branch(t.path, side, t.right)) == Contents(t)[key := value]
  {
    BelowBranch(t.path, Path(t.left), key);
    Side(t, key);
    UpdateLeft(Contents(t.left), Contents(t.right), key, value);
  }

  /** A key that ends inside a tree's path is a proper prefix of all its keys. */
  lemma EndsInside(t: Tree, key: Bits)
    requires WF(t) && key < Path(t)
    ensures !PrefixFree(Contents(t).Keys + {key})
  {
    var k := SomeKey(t);
    UnderPath(t, k);
    assert key <= k && key != k;
  }

  lemma PrefixFreeBelow(t: Tree, key: Bits)
    requires WF(t) && t.Branch? && t.path <= key && |t.path| < |key|
    ensures var child := if key[|t.path|] then t.right else t.left;
      PrefixFree(Contents(t).Keys + {key}) <==> PrefixFree(Contents(child).Keys + {key})
  {
    var child := if key[|t.path|] then t.right else t.left;
    ContentsPrefixFree(t);
    forall k | k in Contents(t) && (k <= key || key <= k) ensures k in Contents(child) {
      Side(t, k);
      assert k[|t.path|] == key[|t.path|];
    }
    forall k | k in Contents(child) ensures k in Contents(t) {
      Side(t, k);
    }
  }

  lemma InsertSplits(t: Tree, key: Bits, value: Value)
    requires WF(t) && ValidRecord(Record(key, value))
    requires var shared := CommonPrefix(key, Path(t)); shared < |Path(t)| || (t.Leaf? && t.key != key)
    ensures Insert(t, key, value).Ok? <==> PrefixFree(Contents(t).Keys + {key})
    ensures Insert(t, key, value).Ok? ==> Stores(Insert(t, key, value).value, t, key, value)
  {
    var shared := CommonPrefix(key, Path(t));
    assert shared == |key| && shared == |Path(t)| ==> key == Path(t) by {
      assert key[..|key|] == key && Path(t)[..|Path(t)|] == Path(t);
    }
    var r := Insert(t, key, value);
    if shared < |key| && shared < |Path(t)| {
      SplitStores(t, key, value, shared);
      ContentsPrefixFree(r.value);
      assert Contents(r.value).Keys == Contents(t).Keys + {key};
    } else if shared == |key| {
      assert key == key[..shared] == Path(t)[..shared];
      EndsInside(t, key);
    } else {
      assert t.key in Contents(t) && t.key == t.key[..shared] <= key;
    }
  }

  /** What a successful insert into `t` leaves. */
  ghost predicate Stores(u: Tree, t: Tree, key: Bits, value: Value) {
    WF(u) && Contents(u) == Contents(t)[key := value] && Path(u) == key[..CommonPrefix(key, Path(t))]
  }

  lemma ThroughBranch(t: Tree, key: Bits)
    requires WF(t) && t.Branch? && CommonPrefix(key, t.path) == |t.path|
    ensures t.path <= key && key[..CommonPrefix(key, t.path)] == t.path
    ensures |key| == |t.path| ==> !PrefixFree(Contents(t).Keys + {key})
  {
    assert t.path[..|t.path|] == t.path;
    if |key| == |t.path| {
      var l, r := Fork(t);
      assert key <= l && key != l;
    }
  }

  /** Insert succeeds exactly on prefix-free keys, and then stores the record. */
  lemma {:induction false} InsertSpec(t: Tree, key: Bits, value: Value)
    requires WF(t) && ValidRecord(Record(key, value))
    ensures Insert(t, key, value).Ok? <==> PrefixFree(Contents(t).Keys + {key})
    ensures Insert(t, key, value).Ok? ==> Stores(Insert(t, key, value).value, t, key, value)
  {
    var shared := CommonPrefix(key, Path(t));
    if shared < |Path(t)| || (t.Leaf? && t.key != key) {
      InsertSplits(t, key, value);
    } else if t.Leaf? {
      ContentsPrefixFree(t);
      assert Contents(t).Keys + {key} == Contents(t).Keys;
    } else {
      ThroughBranch(t, key);
      if |key| > |t.path| {
        PrefixFreeBelow(t, key);
        if key[|t.path|] {
          InsertSpec(t.right, key, value);
          if Insert(t.right, key, value).Ok? {
            InsertRight(t, key, value, Insert(t.right, key, value).value);
          }
        } else {
          InsertSpec(t.left, key, value);
          if Insert(t.left, key, value).Ok? {
            InsertLeft(t, key, value, Insert(t.left, key, value).value);
          }
        }
      }
    }
  }

  // ----- remove -----

  /** What removing a stored key leaves of `t`. */
  ghost predicate Drops(i: Index, t: Tree, key: Bits) {
    WFIndex(i) && IndexContents(i) == Contents(t) - {key} && (i.Root? ==> Path(t) <= Path(i.tree))
  }

  lemma DropRight(m: map<Bits, Value>, n: map<Bits, Value>, key: Bits)
    requires key !in m
    ensures m + (n - {key}) == (m + n) - {key}
  {
  }

  lemma RemoveRight(t: Tree, key: Bits, rest: Index)
    requires WF(t) && t.Branch? && key in Contents(t.right)
    requires Drops(rest, t.right, key)
    ensures Drops(Root(if rest.Empty? then t.left else Branch(t.path, t.left, rest.tree)), t, key)
  {
    Side(t, key);
    DropRight(Contents(t.left), Contents(t.right), key);
    assert t.path <= t.path + [true] && t.path <= t.path + [false];
  }

  lemma RemoveLeft(t: Tree, key: Bits, rest: Index)
    requires WF(t) && t.Branch? && key in Contents(t.left)
    requires Drops(rest, t.left, key)
    ensures Drops(Root(if rest.Empty? then t.right else Branch(t.path, rest.tree, t.right)), t, key)
  {
    Side(t, key);
    assert t.path <= t.path + [true] && t.path <= t.path + [false];
  }

  lemma {:induction false} RemoveDrops(t: Tree, key: Bits)
    requires WF(t) && key in Contents(t)
    ensures Remove(t, key).Ok? && Drops(Remove(t, key).value, t, key)
  {
    if t.Branch? {
      Side(t, key);
      if key[|t.path|] {
        RemoveDrops(t.right, key);
        RemoveRight(t, key, Remove(t.right, key).value);
      } else {
        RemoveDrops(t.left, key);
        RemoveLeft(t, key, Remove(t.left, key).value);
      }
    }
  }

  /** Removing an absent key changes nothing, or is refused just as its lookup is. */
  lemma {:induction false} RemoveOfAbsent(t: Tree, key: Bits)
    requires WF(t) && key !in Contents(t)
    ensures Remove(t, key) == if ForksAt(Contents(t), key) then Err(Malformed) else Ok(Root(t))
  {
    if t.Leaf? || !(t.path <= key) {
      NoForkBeside(t, key);
    } else if |key| == |t.path| {
      ForkOfBranch(t);
    } else {
      Side(t, key);
      ForkBelow(t, key);
      RemoveOfAbsent(if key[|t.path|] then t.right else t.left, key);
    }
  }

  // ----- whole indexes and runs -----

  function IndexLookup(i: Index, key: Bits): Outcome<Option<Value>> {
    if i.Empty? then Ok(None) else Lookup(i.tree, key)
  }

  function IndexInsert(i: Index, key: Bits, value: Value): Outcome<Index> {
    if i.Empty? then Ok(Root(Leaf(key, value)))
    else match Insert(i.tree, key, value)
      case Ok(t) => Ok(Root(t))
      case Err(e) => Err(e)
  }

  function IndexRemove(i: Index, key: Bits): Outcome<Index> {
    if i.Empty? then Ok(Empty) else Remove(i.tree, key)
  }

  lemma IndexInsertSpec(i: Index, key: Bits, value: Value)
    requires WFIndex(i) && ValidRecord(Record(key, value))
    ensures IndexInsert(i, key, value).Ok? <==> PrefixFree(IndexContents(i).Keys + {key})
    ensures var r := IndexInsert(i, key, value);
      r.Ok? ==> r.value.Root? && WFIndex(r.value) && IndexContents(r.value) == IndexContents(i)[key := value]
  {
    if i.Root? {
      InsertSpec(i.tree, key, value);
    }
  }

  lemma IndexRemoveSpec(i: Index, key: Bits)
    requires WFIndex(i)
    ensures IndexRemove(i, key).Ok? <==> key in IndexContents(i) || !ForksAt(IndexContents(i), key)
    ensures var r := IndexRemove(i, key);
      r.Ok? ==> WFIndex(r.value) && IndexContents(r.value) == IndexContents(i) - {key}
  {
    if i.Root? {
      if key in Contents(i.tree) {
        RemoveDrops(i.tree, key);
      } else {
        RemoveOfAbsent(i.tree, key);
        assert Contents(i.tree) - {key} == Contents(i.tree);
      }
    }
  }

  /** Removing a key that an insert added gives the earlier root back. */
  lemma RemoveUndoesInsert(i: Index, key: Bits, value: Value)
    requires WFIndex(i) && ValidRecord(Record(key, value))
    requires key !in IndexContents(i) && IndexInsert(i, key, value).Ok?
    ensures IndexRemove(IndexInsert(i, key, value).value, key) == Ok(i)
  {
    IndexInsertSpec(i, key, value);
    var j := IndexInsert(i, key, value).value;
    IndexRemoveSpec(j, key);
    assert IndexContents(i)[key := value] - {key} == IndexContents(i);
    CanonicalIndex(IndexRemove(j, key).value, i);
  }

  datatype Op = Put(key: Bits, value: Value) | Delete(key: Bits)

  predicate ValidOp(op: Op) {
    if op.Put? then ValidRecord(Record(op.key, op.value)) else ValidKey(op.key)
  }

  function Step(i: Index, op: Op): Outcome<Index> {
    if op.Put? then IndexInsert(i, op.key, op.value) else IndexRemove(i, op.key)
  }

  function MapStep(m: map<Bits, Value>, op: Op): map<Bits, Value> {
    if op.Put? then m[op.key := op.value] else m - {op.key}
  }

  function Run(i: Index, ops: seq<Op>): Outcome<Index>
    decreases |ops|
  {
    if |ops| == 0 then Ok(i)
    else match Step(i, ops[0])
      case Ok(j) => Run(j, ops[1..])
      case Err(e) => Err(e)
  }

  function MapRun(m: map<Bits, Value>, ops: seq<Op>): map<Bits, Value>
    decreases |ops|
  {
    if |ops| == 0 then m else MapRun(MapStep(m, ops[0]), ops[1..])
  }

  lemma StepSpec(i: Index, op: Op, universe: set<Bits>)
    requires WFIndex(i) && ValidOp(op)
    requires PrefixFree(universe) && IndexContents(i).Keys <= universe && op.key in universe
    ensures var r := Step(i, op);
      r.Ok? && WFIndex(r.value) && IndexContents(r.value) == MapStep(IndexContents(i), op)
  {
    if op.Put? {
      IndexInsertSpec(i, op.key, op.value);
    } else {
      IndexRemoveSpec(i, op.key);
      forall a | a in IndexContents(i) ensures !(op.key + [false] <= a) {
        assert op.key + [false] <= a ==> op.key <= a && |op.key| < |a|;
      }
    }
  }

  /** Over prefix-free keys no operation is refused and a run computes its map. */
  lemma {:induction false} RunSpec(i: Index, ops: seq<Op>, universe: set<Bits>)
    requires WFIndex(i) && (forall op :: op in ops ==> ValidOp(op) && op.key in universe)
    requires PrefixFree(universe) && IndexContents(i).Keys <= universe
    ensures var r := Run(i, ops);
      r.Ok? && WFIndex(r.value) && IndexContents(r.value) == MapRun(IndexContents(i), ops)
    decreases |ops|
  {
    if |ops| > 0 {
      StepSpec(i, ops[0], universe);
      RunSpec(Step(i, ops[0]).value, ops[1..], universe);
    }
  }

  /** The root depends on the resulting map only, never on the order of edits. */
  lemma HistoryIndependent(i: Index, ops: seq<Op>, j: Index, others: seq<Op>, universe: set<Bits>)
    requires WFIndex(i) && WFIndex(j) && PrefixFree(universe)
    requires IndexContents(i).Keys <= universe && IndexContents(j).Keys <= universe
    requires forall op :: op in ops || op in others ==> ValidOp(op) && op.key in universe
    requires MapRun(IndexContents(i), ops) == MapRun(IndexContents(j), others)
    ensures Run(i, ops).Ok? && Run(i, ops) == Run(j, others)
  {
    RunSpec(i, ops, universe);
    RunSpec(j, others, universe);
    CanonicalIndex(Run(i, ops).value, Run(j, others).value);
  }
}
