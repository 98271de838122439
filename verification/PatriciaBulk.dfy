/**
 The two bulk algorithms over sorted record batches: the builder from nothing
 and the merge into an existing tree. Both agree with one-at-a-time inserts.
 */
module PatriciaBulk {
  import opened Wrappers
  import opened BitStrings
  import opened ContentAddress
  import opened PatriciaTree
  import opened PatriciaPoint

  type Records = seq<Record>

  /** The order a sorted map hands its records over in. */
  ghost predicate Sorted(rs: Records) {
    forall i, j :: 0 <= i < j < |rs| ==> BitLess(rs[i].key, rs[j].key)
  }

  ghost predicate Valid(rs: Records) {
    Sorted(rs) && forall r :: r in rs ==> ValidRecord(r)
  }

  function RecordMap(rs: Records): (m: map<Bits, Value>)
  {
    if |rs| == 0 then map[] else map[rs[0].key := rs[0].value] + RecordMap(rs[1..])
  }

  ghost function KeysOf(rs: Records): set<Bits> {
    set r | r in rs :: r.key
  }

  /** How many records go left at bit `split`; all must have that bit, zeros first. */
  function Partition(rs: Records, split: nat): Outcome<nat> {
    if |rs| == 0 then Ok(0)
    else if |rs[0].key| <= split then Err(Malformed)
    else if rs[0].key[split] then
      if forall r :: r in rs ==> split < |r.key| && r.key[split] then Ok(0) else Err(Malformed)
    else match Partition(rs[1..], split)
      case Ok(n) => Ok(n + 1)
      case Err(e) => Err(e)
  }

  lemma PartitionBounds(rs: Records, split: nat)
    ensures Partition(rs, split).Ok? ==> Partition(rs, split).value <= |rs|
  {
  }

  /** The branch over two finished sides; the left side's failure comes first. */
  function Joined(path: Bits, l: Outcome<Tree>, r: Outcome<Tree>): Outcome<Tree> {
    if l.Err? then l else if r.Err? then r else Ok(Branch(path, l.value, r.value))
  }

  function Build(rs: Records): Outcome<Tree>
    decreases |rs|
  {
    if |rs| == 0 then Err(Malformed)
    else if |rs| == 1 then Ok(Leaf(rs[0].key, rs[0].value))
    else
      var split := CommonPrefix(rs[0].key, rs[|rs| - 1].key);
      PartitionBounds(rs, split);
      match Partition(rs, split)
      case Err(e) => Err(e)
      case Ok(n) =>
        if n == 0 || n == |rs| then Err(Malformed)
        else Joined(rs[0].key[..split], Build(rs[..n]), Build(rs[n..]))
  }

  function Min(a: nat, b: nat): nat {
    if a <= b then a else b
  }

  /** The path bits that both ends of a batch, hence all of it, share with a tree. */
  function SharedBits(t: Tree, rs: Records): nat
    requires |rs| > 0
  {
    Min(CommonPrefix(rs[0].key, Path(t)), CommonPrefix(rs[|rs| - 1].key, Path(t)))
  }

  function Merge(t: Tree, rs: Records): Outcome<Tree>
    decreases t, |rs|, 1
  {
    if |rs| == 0 then Err(Malformed)
    else
      var shared := SharedBits(t, rs);
      if shared < |Path(t)| then MergeAbove(t, rs, shared)
      else match t
        case Leaf(key, value) =>
          if |rs| != 1 || rs[0].key != key then Err(Malformed)
          else if rs[0].value == value then Ok(t)
          else Ok(Leaf(rs[0].key, rs[0].value))
        case Branch(path, left, right) =>
          PartitionBounds(rs, |path|);
          match Partition(rs, |path|)
          case Err(e) => Err(e)
          case Ok(n) => Joined(path, MergeSide(left, rs[..n]), MergeSide(right, rs[n..]))
  }

  /** A subtree that receives no record is kept as it is. */
  function MergeSide(t: Tree, rs: Records): Outcome<Tree>
    decreases t, |rs|, 2
  {
    if |rs| == 0 then Ok(t) else Merge(t, rs)
  }

  /** The batch leaves the tree's path at `shared`: a new branch above the tree. */
  function MergeAbove(t: Tree, rs: Records, shared: nat): Outcome<Tree>
    requires |rs| > 0 && shared < |Path(t)|
    decreases t, |rs|, 0
  {
    PartitionBounds(rs, shared);
    match Partition(rs, shared)
    case Err(e) => Err(e)
    case Ok(n) =>
      if Path(t)[shared] then
        if n == 0 then Err(Malformed)
        else Joined(Path(t)[..shared], Build(rs[..n]), MergeSide(t, rs[n..]))
      else
        if n == |rs| then Err(Malformed)
        else Joined(Path(t)[..shared], MergeSide(t, rs[..n]), Build(rs[n..]))
  }

  // ----- record batches -----

  lemma Regroup(a: map<Bits, Value>, b: map<Bits, Value>, c: map<Bits, Value>)
    ensures (a + b) + c == a + (b + c)
  {
  }

  lemma {:induction false} RecordMapSplit(rs: Records, n: nat)
    requires n <= |rs|
    ensures RecordMap(rs) == RecordMap(rs[..n]) + RecordMap(rs[n..])
  {
    if n > 0 {
      RecordMapSplit(rs[1..], n - 1);
      assert rs[..n][1..] == rs[1..][..n - 1] && rs[n..] == rs[1..][n - 1..];
      Regroup(map[rs[0].key := rs[0].value], RecordMap(rs[1..][..n - 1]), RecordMap(rs[n..]));
    } else {
      assert rs[n..] == rs;
    }
  }

  lemma RecordMapKeys(rs: Records)
    ensures RecordMap(rs).Keys == KeysOf(rs)
  {
  }

  lemma KeysOfSplit(rs: Records, n: nat)
    requires n <= |rs|
    ensures KeysOf(rs) == KeysOf(rs[..n]) + KeysOf(rs[n..])
  {
  }

  lemma ValidSplit(rs: Records, n: nat)
    requires Valid(rs) && n <= |rs|
    ensures Valid(rs[..n]) && Valid(rs[n..])
  {
  }

  /** What the ends of a sorted batch share, the whole batch shares. */
  lemma BatchShares(rs: Records, p: Bits)
    requires Sorted(rs) && |rs| > 0
    requires p <= rs[0].key && p <= rs[|rs| - 1].key
    ensures forall r :: r in rs ==> p <= r.key
  {
    forall i | 0 <= i < |rs| ensures p <= rs[i].key {
      Between(rs[0].key, rs[i].key, rs[|rs| - 1].key, p);
    }
  }

  /** A successful partition separates the batch by the bit it looked at. */
  lemma PartitionSeparates(rs: Records, split: nat)
    requires Partition(rs, split).Ok?
    ensures var n := Partition(rs, split).value;
      && n <= |rs|
      && (forall i :: 0 <= i < n ==> split < |rs[i].key| && !rs[i].key[split])
      && (forall i :: n <= i < |rs| ==> split < |rs[i].key| && rs[i].key[split])
  {
  }

  /** Under a shared prefix a sorted batch fails to partition only on a short key. */
  lemma {:induction false} PartitionFails(rs: Records, p: Bits) returns (r: Record)
    requires Sorted(rs) && (forall r :: r in rs ==> p <= r.key)
    requires Partition(rs, |p|).Err?
    ensures r in rs && r.key == p
  {
    if |rs[0].key| <= |p| {
      r := rs[0];
    } else if rs[0].key[|p|] {
      r :| r in rs && !(|p| < |r.key| && r.key[|p|]);
      if |p| < |r.key| {
        var i :| 0 <= i < |rs| && rs[i] == r;
        if i > 0 {
          NextBitMonotone(rs[0].key, r.key, p);
        }
      }
    } else {
      r := PartitionFails(rs[1..], p);
    }
  }

  // ----- the builder -----

  lemma NotFree(some: set<Bits>, all: set<Bits>)
    requires some <= all && !PrefixFree(some)
    ensures !PrefixFree(all)
  {
  }

  /** What building or merging leaves: contents `m` under path `path`. */
  ghost predicate Holds(t: Tree, m: map<Bits, Value>, path: Bits) {
    WF(t) && Contents(t) == m && Path(t) == path
  }

  lemma ShortKeyClashes(rs: Records, p: Bits, other: Bits)
    requires Valid(rs) && (forall r :: r in rs ==> p <= r.key)
    requires Partition(rs, |p|).Err? && p < other
    ensures !PrefixFree(KeysOf(rs) + {other})
  {
    var r := PartitionFails(rs, p);
    assert r.key in KeysOf(rs) && r.key <= other && r.key != other;
  }

  /** The ends of a sorted batch part at a bit that both of them have, or clash. */
  lemma EndsPart(rs: Records) returns (p: Bits)
    requires Valid(rs) && |rs| >= 2
    ensures p == rs[0].key[..CommonPrefix(rs[0].key, rs[|rs| - 1].key)]
    ensures forall r :: r in rs ==> p <= r.key
    ensures Partition(rs, |p|).Err? ==> !PrefixFree(KeysOf(rs))
    ensures Partition(rs, |p|).Ok? ==> 0 < Partition(rs, |p|).value < |rs|
  {
    var a, z := rs[0].key, rs[|rs| - 1].key;
    assert BitLess(a, z);
    p := a[..CommonPrefix(a, z)];
    BatchShares(rs, p);
    if Partition(rs, |p|).Err? {
      var r := PartitionFails(rs, p);
      assert p < z;
      assert r.key in KeysOf(rs) && z in KeysOf(rs) && r.key <= z && r.key != z;
    } else {
      PartitionSeparates(rs, |p|);
    }
  }

  lemma SidePath(a: Bits, b: Bits, p: Bits, bit: bool)
    requires p <= a && p <= b && |p| < |a| && |p| < |b| && a[|p|] == bit && b[|p|] == bit
    ensures p + [bit] <= a[..CommonPrefix(a, b)]
  {
  }

  lemma Join(p: Bits, l: Tree, r: Tree, keys: set<Bits>)
    requires WF(l) && WF(r) && p + [false] <= Path(l) && p + [true] <= Path(r)
    requires keys == Contents(l).Keys + Contents(r).Keys
    ensures Holds(Branch(p, l, r), Contents(l) + Contents(r), p)
    ensures PrefixFree(keys)
  {
    var k := SomeKey(l);
    UnderPath(l, k);
    ContentsPrefixFree(Branch(p, l, r));
    assert Contents(Branch(p, l, r)).Keys == keys;
  }

  lemma BuiltHalves(rs: Records, p: Bits, n: nat, l: Tree, r: Tree)
    requires Valid(rs) && 0 < n < |rs|
    requires p <= rs[0].key && p <= rs[n - 1].key && p <= rs[n].key && p <= rs[|rs| - 1].key
    requires |p| < |rs[0].key| && |p| < |rs[n - 1].key| && |p| < |rs[n].key| && |p| < |rs[|rs| - 1].key|
    requires !rs[0].key[|p|] && !rs[n - 1].key[|p|] && rs[n].key[|p|] && rs[|rs| - 1].key[|p|]
    requires Holds(l, RecordMap(rs[..n]), rs[0].key[..CommonPrefix(rs[0].key, rs[n - 1].key)])
    requires Holds(r, RecordMap(rs[n..]), rs[n].key[..CommonPrefix(rs[n].key, rs[|rs| - 1].key)])
    ensures Holds(Branch(p, l, r), RecordMap(rs), p) && PrefixFree(KeysOf(rs))
  {
    SidePath(rs[0].key, rs[n - 1].key, p, false);
    SidePath(rs[n].key, rs[|rs| - 1].key, p, true);
    RecordMapSplit(rs, n);
    RecordMapKeys(rs);
    Join(p, l, r, KeysOf(rs));
  }

  ghost predicate BuildsRight(rs: Records)
    requires |rs| > 0
  {
    && (Build(rs).Ok? <==> PrefixFree(KeysOf(rs)))
    && (Build(rs).Ok? ==>
        Holds(Build(rs).value, RecordMap(rs), rs[0].key[..CommonPrefix(rs[0].key, rs[|rs| - 1].key)]))
  }

  lemma BuildJoins(rs: Records, p: Bits, n: nat)
    requires Valid(rs) && |rs| >= 2
    requires p == rs[0].key[..CommonPrefix(rs[0].key, rs[|rs| - 1].key)]
    requires forall r :: r in rs ==> p <= r.key
    requires Partition(rs, |p|) == Ok(n) && 0 < n < |rs|
    requires BuildsRight(rs[..n]) && BuildsRight(rs[n..])
    requires Build(rs) == Joined(p, Build(rs[..n]), Build(rs[n..]))
    ensures BuildsRight(rs)
  {
    var a, b := rs[..n], rs[n..];
    KeysOfSplit(rs, n);
    if Build(a).Err? {
      NotFree(KeysOf(a), KeysOf(rs));
    } else if Build(b).Err? {
      NotFree(KeysOf(b), KeysOf(rs));
    } else {
      PartitionSeparates(rs, |p|);
      assert a[0] == rs[0] && a[|a| - 1] == rs[n - 1] && b[0] == rs[n] && b[|b| - 1] == rs[|rs| - 1];
      BuiltHalves(rs, p, n, Build(a).value, Build(b).value);
    }
  }

  /** The builder succeeds exactly on prefix-free batches, and then holds them. */
  lemma {:induction false} BuildSpec(rs: Records)
    requires Valid(rs) && |rs| > 0
    ensures BuildsRight(rs)
    decreases |rs|
  {
    if |rs| == 1 {
      CommonPrefixUnique(rs[0].key, rs[0].key, |rs[0].key|);
      assert rs[0].key[..|rs[0].key|] == rs[0].key;
      assert rs == [rs[0]] && rs[1..] == [];
    } else {
      var p := EndsPart(rs);
      if Partition(rs, |p|).Ok? {
        var n := Partition(rs, |p|).value;
        ValidSplit(rs, n);
        BuildSpec(rs[..n]);
        BuildSpec(rs[n..]);
        BuildJoins(rs, p, n);
      }
    }
  }

  // ----- the merge -----

  ghost predicate MergesRight(t: Tree, rs: Records)
    requires |rs| > 0
  {
    && (Merge(t, rs).Ok? <==> PrefixFree(Contents(t).Keys + KeysOf(rs)))
    && (Merge(t, rs).Ok? ==>
        Holds(Merge(t, rs).value, Contents(t) + RecordMap(rs), Path(t)[..SharedBits(t, rs)]))
  }

  /** A side of a merge: contents as expected, still under `q`. */
  ghost predicate SideRight(t: Tree, rs: Records, q: Bits) {
    && (MergeSide(t, rs).Ok? <==> PrefixFree(Contents(t).Keys + KeysOf(rs)))
    && (MergeSide(t, rs).Ok? ==>
        var u := MergeSide(t, rs).value;
        WF(u) && Contents(u) == Contents(t) + RecordMap(rs) && q <= Path(u))
  }

  lemma SideFromMerge(t: Tree, rs: Records, q: Bits)
    requires WF(t) && q <= Path(t) && (forall r :: r in rs ==> q <= r.key)
    requires |rs| > 0 ==> MergesRight(t, rs)
    ensures SideRight(t, rs, q)
  {
    hide PrefixFree, Contents, WF, Merge, SideRight, MergesRight, RecordMap, KeysOf;
    if |rs| == 0 {
      NothingMerged(t, rs, q);
    } else {
      UnderBoth(t, rs, q);
    }
  }

  lemma NothingMerged(t: Tree, rs: Records, q: Bits)
    requires WF(t) && q <= Path(t) && |rs| == 0
    ensures SideRight(t, rs, q)
  {
    hide PrefixFree, Contents, WF, Merge;
    ContentsPrefixFree(t);
    assert Contents(t).Keys + KeysOf(rs) == Contents(t).Keys;
    assert Contents(t) + RecordMap(rs) == Contents(t);
  }

  lemma UnderBoth(t: Tree, rs: Records, q: Bits)
    requires |rs| > 0 && MergesRight(t, rs)
    requires q <= Path(t) && (forall r :: r in rs ==> q <= r.key)
    ensures SideRight(t, rs, q)
  {
    hide Merge, Contents, WF, RecordMap, KeysOf, PrefixFree, CommonPrefix;
    assert rs[0] in rs && rs[|rs| - 1] in rs;
    SharedWithinCommon(rs[0].key, Path(t), q);
    SharedWithinCommon(rs[|rs| - 1].key, Path(t), q);
  }

  lemma Disjoint(t: Tree, u: Tree, p: Bits)
    requires WF(Branch(p, t, u))
    ensures Contents(t).Keys !! Contents(u).Keys
  {
    forall k | k in Contents(t) ensures k !in Contents(u) {
      Side(Branch(p, t, u), k);
    }
  }

  lemma Swap(a: map<Bits, Value>, b: map<Bits, Value>, c: map<Bits, Value>)
    requires a.Keys !! b.Keys
    ensures a + (b + c) == b + (a + c)
  {
  }

  lemma Interleave(l: map<Bits, Value>, a: map<Bits, Value>, r: map<Bits, Value>, b: map<Bits, Value>)
    requires a.Keys !! r.Keys
    ensures (l + a) + (r + b) == (l + r) + (a + b)
  {
  }

  /** Bits that are shared with the path but end before it are a bound on it. */
  lemma PathLength(t: Tree)
    requires WF(t)
    ensures |Path(t)| <= MAX_KEY_BITS
  {
  }

  lemma BatchUnder(t: Tree, rs: Records) returns (p: Bits)
    requires Valid(rs) && |rs| > 0
    ensures p == Path(t)[..SharedBits(t, rs)]
    ensures p <= Path(t) && forall r :: r in rs ==> p <= r.key
  {
    hide CommonPrefix, Path;
    var shared := SharedBits(t, rs);
    var a, z := rs[0].key, rs[|rs| - 1].key;
    p := Path(t)[..shared];
    assert p == a[..CommonPrefix(a, Path(t))][..shared] == Path(t)[..CommonPrefix(a, Path(t))][..shared];
    assert p == z[..CommonPrefix(z, Path(t))][..shared] == Path(t)[..CommonPrefix(z, Path(t))][..shared];
    BatchShares(rs, p);
  }

  lemma MergedAboveRight(p: Bits, t: Tree, rs: Records, n: nat, l: Tree, r: Tree)
    requires n <= |rs|
    requires WF(l) && Contents(l) == RecordMap(rs[..n]) && p + [false] <= Path(l)
    requires WF(t) && p + [true] <= Path(t)
    requires WF(r) && Contents(r) == Contents(t) + RecordMap(rs[n..]) && p + [true] <= Path(r)
    ensures Holds(Branch(p, l, r), Contents(t) + RecordMap(rs), p)
    ensures PrefixFree(Contents(t).Keys + KeysOf(rs))
  {
    PathLength(t);
    Disjoint(l, t, p);
    RecordMapSplit(rs, n);
    RecordMapKeys(rs);
    Swap(Contents(l), Contents(t), RecordMap(rs[n..]));
    Join(p, l, r, Contents(t).Keys + KeysOf(rs));
  }

  lemma MergedAboveLeft(p: Bits, t: Tree, rs: Records, n: nat, l: Tree, r: Tree)
    requires n <= |rs|
    requires WF(l) && Contents(l) == Contents(t) + RecordMap(rs[..n]) && p + [false] <= Path(l)
    requires WF(r) && Contents(r) == RecordMap(rs[n..]) && p + [true] <= Path(r)
    ensures Holds(Branch(p, l, r), Contents(t) + RecordMap(rs), p)
    ensures PrefixFree(Contents(t).Keys + KeysOf(rs))
  {
    RecordMapSplit(rs, n);
    RecordMapKeys(rs);
    Regroup(Contents(t), RecordMap(rs[..n]), RecordMap(rs[n..]));
    Join(p, l, r, Contents(t).Keys + KeysOf(rs));
  }

  lemma MergedBelow(p: Bits, m: map<Bits, Value>, n: map<Bits, Value>, a: Records, b: Records, l: Tree, r: Tree)
    requires WF(l) && Contents(l) == m + RecordMap(a) && p + [false] <= Path(l)
    requires WF(r) && Contents(r) == n + RecordMap(b) && p + [true] <= Path(r)
    ensures Holds(Branch(p, l, r), (m + n) + (RecordMap(a) + RecordMap(b)), p)
    ensures PrefixFree((m + n).Keys + (KeysOf(a) + KeysOf(b)))
  {
    RecordMapKeys(a);
    RecordMapKeys(b);
    Join(p, l, r, (m + n).Keys + (KeysOf(a) + KeysOf(b)));
    Disjoint(l, r, p);
    Interleave(m, RecordMap(a), n, RecordMap(b));
  }

  lemma KeysUnder(rs: Records, p: Bits, from: nat, to: nat, bit: bool)
    requires from <= to <= |rs| && (forall r :: r in rs ==> p <= r.key)
    requires forall i :: from <= i < to ==> |p| < |rs[i].key| && rs[i].key[|p|] == bit
    ensures forall r :: r in rs[from..to] ==> p + [bit] <= r.key
  {
  }

  /** The facts about a partitioned batch that each case of the merge uses. */
  ghost predicate Parted(rs: Records, p: Bits, n: nat) {
    && Valid(rs) && n <= |rs| && Partition(rs, |p|) == Ok(n)
    && (forall r :: r in rs[..n] ==> p + [false] <= r.key)
    && (forall r :: r in rs[n..] ==> p + [true] <= r.key)
  }

  lemma PartUnder(rs: Records, p: Bits) returns (n: nat)
    requires Valid(rs) && (forall r :: r in rs ==> p <= r.key)
    requires Partition(rs, |p|).Ok?
    ensures Parted(rs, p, n)
  {
    n := Partition(rs, |p|).value;
    PartitionSeparates(rs, |p|);
    KeysUnder(rs, p, 0, n, false);
    KeysUnder(rs, p, n, |rs|, true);
    assert rs[0..n] == rs[..n] && rs[n..|rs|] == rs[n..];
  }

  lemma MergeClash(t: Tree, rs: Records, p: Bits)
    requires WF(t) && Valid(rs) && |rs| > 0 && p <= Path(t) && (forall r :: r in rs ==> p <= r.key)
    requires p < Path(t) || t.Branch?
    requires Partition(rs, |p|).Err?
    ensures !PrefixFree(Contents(t).Keys + KeysOf(rs))
  {
    hide KeysOf, Partition, PrefixFree, Sorted;
    var k := SomeKey(t);
    UnderPath(t, k);
    if t.Branch? {
      UnderPath(t.left, SomeKey(t.left));
      assert t.path < t.path + [false] <= k;
    }
    ShortKeyClashes(rs, p, k);
    NotFree(KeysOf(rs) + {k}, Contents(t).Keys + KeysOf(rs));
  }

  lemma BuiltUnder(rs: Records, q: Bits)
    requires |rs| > 0 && BuildsRight(rs) && Build(rs).Ok? && (forall r :: r in rs ==> q <= r.key)
    ensures WF(Build(rs).value) && Contents(Build(rs).value) == RecordMap(rs) && q <= Path(Build(rs).value)
  {
  }

  lemma AboveRight(t: Tree, rs: Records, p: Bits, n: nat)
    requires WF(t) && |rs| > 0 && Parted(rs, p, n) && 0 < n && p + [true] <= Path(t)
    requires BuildsRight(rs[..n]) && SideRight(t, rs[n..], p + [true])
    requires Merge(t, rs) == Joined(p, Build(rs[..n]), MergeSide(t, rs[n..]))
    requires p == Path(t)[..SharedBits(t, rs)]
    ensures MergesRight(t, rs)
  {
    KeysOfSplit(rs, n);
    if Build(rs[..n]).Err? {
      NotFree(KeysOf(rs[..n]), Contents(t).Keys + KeysOf(rs));
    } else if MergeSide(t, rs[n..]).Err? {
      NotFree(Contents(t).Keys + KeysOf(rs[n..]), Contents(t).Keys + KeysOf(rs));
    } else {
      BuiltUnder(rs[..n], p + [false]);
      MergedAboveRight(p, t, rs, n, Build(rs[..n]).value, MergeSide(t, rs[n..]).value);
    }
  }

  lemma AboveLeft(t: Tree, rs: Records, p: Bits, n: nat)
    requires WF(t) && |rs| > 0 && Parted(rs, p, n) && n < |rs| && p + [false] <= Path(t)
    requires BuildsRight(rs[n..]) && SideRight(t, rs[..n], p + [false])
    requires Merge(t, rs) == Joined(p, MergeSide(t, rs[..n]), Build(rs[n..]))
    requires p == Path(t)[..SharedBits(t, rs)]
    ensures MergesRight(t, rs)
  {
    KeysOfSplit(rs, n);
    if MergeSide(t, rs[..n]).Err? {
      NotFree(Contents(t).Keys + KeysOf(rs[..n]), Contents(t).Keys + KeysOf(rs));
    } else if Build(rs[n..]).Err? {
      NotFree(KeysOf(rs[n..]), Contents(t).Keys + KeysOf(rs));
    } else {
      BuiltUnder(rs[n..], p + [true]);
      MergedAboveLeft(p, t, rs, n, MergeSide(t, rs[..n]).value, Build(rs[n..]).value);
    }
  }

  lemma Below(t: Tree, rs: Records, n: nat)
    requires WF(t) && t.Branch? && |rs| > 0 && Parted(rs, t.path, n)
    requires SideRight(t.left, rs[..n], t.path + [false]) && SideRight(t.right, rs[n..], t.path + [true])
    requires Merge(t, rs) == Joined(t.path, MergeSide(t.left, rs[..n]), MergeSide(t.right, rs[n..]))
    requires t.path == Path(t)[..SharedBits(t, rs)]
    ensures MergesRight(t, rs)
  {
    KeysOfSplit(rs, n);
    if MergeSide(t.left, rs[..n]).Err? {
      NotFree(Contents(t.left).Keys + KeysOf(rs[..n]), Contents(t).Keys + KeysOf(rs));
    } else if MergeSide(t.right, rs[n..]).Err? {
      NotFree(Contents(t.right).Keys + KeysOf(rs[n..]), Contents(t).Keys + KeysOf(rs));
    } else {
      RecordMapSplit(rs, n);
      MergedBelow(t.path, Contents(t.left), Contents(t.right), rs[..n], rs[n..],
                  MergeSide(t.left, rs[..n]).value, MergeSide(t.right, rs[n..]).value);
    }
  }

  lemma AtLeaf(t: Tree, rs: Records)
    requires WF(t) && t.Leaf? && Valid(rs) && |rs| > 0
    requires SharedBits(t, rs) == |t.key| && (forall r :: r in rs ==> t.key <= r.key)
    ensures MergesRight(t, rs)
  {
    assert Path(t)[..SharedBits(t, rs)] == t.key;
    if |rs| == 1 && rs[0].key == t.key {
      assert rs == [rs[0]] && rs[1..] == [];
      var u := Merge(t, rs).value;
      assert Contents(u) == Contents(t) + RecordMap(rs);
      ContentsPrefixFree(u);
      assert Contents(t).Keys + KeysOf(rs) == Contents(u).Keys;
    } else {
      assert |rs| > 1 ==> rs[0].key != rs[1].key by {
        if |rs| > 1 {
          assert BitLess(rs[0].key, rs[1].key);
          LessIrreflexive(rs[0].key);
        }
      }
      var r := if rs[0].key != t.key then rs[0] else rs[1];
      assert t.key in Contents(t) && r.key in KeysOf(rs) && t.key <= r.key;
    }
  }

  lemma MergeIntoSides(t: Tree, rs: Records, p: Bits, n: nat)
    requires WF(t) && t.Branch? && |rs| > 0 && Parted(rs, p, n)
    requires p == Path(t)[..SharedBits(t, rs)] && |p| == |Path(t)|
    requires 0 < n ==> MergesRight(t.left, rs[..n])
    requires n < |rs| ==> MergesRight(t.right, rs[n..])
    ensures MergesRight(t, rs)
  {
    assert p == t.path;
    SideFromMerge(t.left, rs[..n], p + [false]);
    SideFromMerge(t.right, rs[n..], p + [true]);
    Below(t, rs, n);
  }

  lemma MergeAboveRight(t: Tree, rs: Records, p: Bits, n: nat)
    requires WF(t) && |rs| > 0 && Parted(rs, p, n)
    requires p == Path(t)[..SharedBits(t, rs)] && |p| < |Path(t)| && Path(t)[|p|]
    requires 0 < n && BuildsRight(rs[..n])
    requires n < |rs| ==> MergesRight(t, rs[n..])
    ensures MergesRight(t, rs)
  {
    OneMoreBit(Path(t), |p|);
    SideFromMerge(t, rs[n..], p + [true]);
    AboveRight(t, rs, p, n);
  }

  lemma MergeAboveLeft(t: Tree, rs: Records, p: Bits, n: nat)
    requires WF(t) && |rs| > 0 && Parted(rs, p, n)
    requires p == Path(t)[..SharedBits(t, rs)] && |p| < |Path(t)| && !Path(t)[|p|]
    requires n < |rs| && BuildsRight(rs[n..])
    requires 0 < n ==> MergesRight(t, rs[..n])
    ensures MergesRight(t, rs)
  {
    OneMoreBit(Path(t), |p|);
    SideFromMerge(t, rs[..n], p + [false]);
    AboveLeft(t, rs, p, n);
  }

  lemma MergeRefused(t: Tree, rs: Records, p: Bits)
    requires WF(t) && Valid(rs) && |rs| > 0
    requires p == Path(t)[..SharedBits(t, rs)] && p <= Path(t) && (forall r :: r in rs ==> p <= r.key)
    requires p < Path(t) || t.Branch?
    requires Partition(rs, |p|).Err?
    ensures MergesRight(t, rs)
  {
    hide Merge, Contents, WF, RecordMap, KeysOf, PrefixFree, CommonPrefix, Partition;
    MergeClash(t, rs, p);
    MergeStops(t, rs, p);
  }

  lemma MergeStops(t: Tree, rs: Records, p: Bits)
    requires WF(t) && |rs| > 0 && |p| == SharedBits(t, rs)
    requires |p| < |Path(t)| || t.Branch?
    requires Partition(rs, |p|).Err?
    ensures Merge(t, rs).Err?
  {
    hide Contents, WF, RecordMap, KeysOf, PrefixFree, CommonPrefix, Partition, Build;
  }

  /** The merge succeeds exactly on prefix-free unions, and then overrides the tree. */
  lemma {:induction false} MergeSpec(t: Tree, rs: Records)
    requires WF(t) && Valid(rs) && |rs| > 0
    ensures MergesRight(t, rs)
    decreases t, |rs|
  {
    var p := BatchUnder(t, rs);
    if |p| == |Path(t)| && t.Leaf? {
      AtLeaf(t, rs);
    } else if Partition(rs, |p|).Err? {
      MergeRefused(t, rs, p);
    } else {
      var n := PartUnder(rs, p);
      ValidSplit(rs, n);
      if |p| == |Path(t)| {
        if 0 < n { MergeSpec(t.left, rs[..n]); }
        if n < |rs| { MergeSpec(t.right, rs[n..]); }
        MergeIntoSides(t, rs, p, n);
      } else {
        MergeAtFork(t, rs, p, n);
      }
    }
  }

  lemma {:induction false} MergeAtFork(t: Tree, rs: Records, p: Bits, n: nat)
    requires WF(t) && |rs| > 0 && Parted(rs, p, n) && Valid(rs[..n]) && Valid(rs[n..])
    requires p == Path(t)[..SharedBits(t, rs)] && |p| < |Path(t)|
    ensures MergesRight(t, rs)
    decreases t, |rs|, 0
  {
    if Path(t)[|p|] {
      BuildSpec(rs[..n]);
      if n < |rs| { MergeSpec(t, rs[n..]); }
      MergeAboveRight(t, rs, p, n);
    } else {
      BuildSpec(rs[n..]);
      if 0 < n { MergeSpec(t, rs[..n]); }
      MergeAboveLeft(t, rs, p, n);
    }
  }

  // ----- the three ways to reach one root -----

  predicate AllValid(rs: Records) {
    forall r :: r in rs ==> ValidRecord(r)
  }

  /** Inserting the records one at a time. */
  function InsertEach(i: Index, rs: Records): Outcome<Index>
    decreases |rs|
  {
    if |rs| == 0 then Ok(i)
    else match IndexInsert(i, rs[0].key, rs[0].value)
      case Ok(j) => InsertEach(j, rs[1..])
      case Err(e) => Err(e)
  }

  /** Every record is checked before the first insert. */
  function InsertMany(i: Index, rs: Records): Outcome<Index> {
    if !AllValid(rs) then Err(Malformed) else InsertEach(i, rs)
  }

  function Rooted(t: Outcome<Tree>): Outcome<Index> {
    match t
    case Ok(u) => Ok(Root(u))
    case Err(e) => Err(e)
  }

  function InsertBulk(i: Index, rs: Records): Outcome<Index> {
    if |rs| == 0 then Ok(i)
    else if !AllValid(rs) then Err(Malformed)
    else Rooted(if i.Empty? then Build(rs) else Merge(i.tree, rs))
  }

  /** The root of a complete record set, built from nothing. */
  function DeriveComplete(rs: Records): Outcome<Index> {
    if |rs| == 0 then Ok(Empty)
    else if !AllValid(rs) then Err(Malformed)
    else Rooted(Build(rs))
  }

  /** The outcome an insertion of valid records must have. */
  ghost predicate Overrides(r: Outcome<Index>, i: Index, rs: Records) {
    && (r.Ok? <==> PrefixFree(IndexContents(i).Keys + KeysOf(rs)))
    && (r.Ok? ==> WFIndex(r.value) && IndexContents(r.value) == IndexContents(i) + RecordMap(rs))
  }

  lemma IndexPrefixFree(i: Index)
    requires WFIndex(i)
    ensures PrefixFree(IndexContents(i).Keys)
  {
    if i.Root? {
      ContentsPrefixFree(i.tree);
    }
  }

  lemma UpdateThenOverride(m: map<Bits, Value>, key: Bits, value: Value, rest: map<Bits, Value>)
    ensures m[key := value] + rest == m + (map[key := value] + rest)
  {
  }

  lemma InsertEachStep(i: Index, rs: Records, j: Index)
    requires |rs| > 0 && IndexInsert(i, rs[0].key, rs[0].value) == Ok(j)
    requires IndexContents(j) == IndexContents(i)[rs[0].key := rs[0].value]
    requires Overrides(InsertEach(j, rs[1..]), j, rs[1..])
    ensures Overrides(InsertEach(i, rs), i, rs)
  {
    assert rs == [rs[0]] + rs[1..];
    assert IndexContents(j).Keys + KeysOf(rs[1..]) == IndexContents(i).Keys + KeysOf(rs);
    UpdateThenOverride(IndexContents(i), rs[0].key, rs[0].value, RecordMap(rs[1..]));
  }

  lemma {:induction false} InsertEachSpec(i: Index, rs: Records)
    requires WFIndex(i) && AllValid(rs)
    ensures Overrides(InsertEach(i, rs), i, rs)
    decreases |rs|
  {
    if |rs| == 0 {
      IndexPrefixFree(i);
      assert IndexContents(i).Keys + KeysOf(rs) == IndexContents(i).Keys;
    } else {
      IndexInsertSpec(i, rs[0].key, rs[0].value);
      var r := IndexInsert(i, rs[0].key, rs[0].value);
      if r.Ok? {
        InsertEachSpec(r.value, rs[1..]);
        InsertEachStep(i, rs, r.value);
      } else {
        NotFree(IndexContents(i).Keys + {rs[0].key}, IndexContents(i).Keys + KeysOf(rs));
      }
    }
  }

  lemma InsertBulkSpec(i: Index, rs: Records)
    requires WFIndex(i) && Valid(rs)
    ensures Overrides(InsertBulk(i, rs), i, rs)
  {
    if |rs| == 0 {
      IndexPrefixFree(i);
      assert IndexContents(i).Keys + KeysOf(rs) == IndexContents(i).Keys;
    } else if i.Empty? {
      BuildSpec(rs);
      assert IndexContents(i).Keys + KeysOf(rs) == KeysOf(rs);
    } else {
      MergeSpec(i.tree, rs);
    }
  }

  lemma UnionKeys(i: Index, rs: Records, all: Records)
    requires RecordMap(all) == IndexContents(i) + RecordMap(rs)
    ensures KeysOf(all) == IndexContents(i).Keys + KeysOf(rs)
  {
    RecordMapKeys(rs);
    RecordMapKeys(all);
  }

  lemma RecordMapAt(rs: Records, k: nat)
    requires Sorted(rs) && k < |rs|
    ensures rs[k].key in RecordMap(rs) && RecordMap(rs)[rs[k].key] == rs[k].value
  {
    if k > 0 {
      RecordMapAt(rs[1..], k - 1);
    } else {
      RecordMapKeys(rs[1..]);
      forall j | 1 <= j < |rs| ensures rs[j].key != rs[0].key {
        LessIrreflexive(rs[j].key);
      }
    }
  }

  /** Validity of a sorted batch is a property of its map. */
  lemma ValidByMap(rs: Records)
    requires Sorted(rs)
    ensures AllValid(rs) <==> forall k :: k in RecordMap(rs) ==> ValidRecord(Record(k, RecordMap(rs)[k]))
  {
    RecordMapKeys(rs);
    forall k | 0 <= k < |rs|
      ensures rs[k].key in RecordMap(rs) && rs[k] == Record(rs[k].key, RecordMap(rs)[rs[k].key])
    {
      RecordMapAt(rs, k);
    }
  }

  lemma ContentsValid(i: Index)
    requires WFIndex(i)
    ensures forall k :: k in IndexContents(i) ==> ValidRecord(Record(k, IndexContents(i)[k]))
  {
    forall k | k in IndexContents(i) ensures ValidRecord(Record(k, IndexContents(i)[k])) {
      UnderPath(i.tree, k);
    }
  }

  lemma UnionValid(i: Index, rs: Records, all: Records)
    requires WFIndex(i) && Sorted(rs) && Sorted(all)
    requires RecordMap(all) == IndexContents(i) + RecordMap(rs)
    ensures AllValid(all) <==> AllValid(rs)
  {
    ContentsValid(i);
    ValidByMap(rs);
    ValidByMap(all);
  }

  lemma Agree(r: Outcome<Index>, o: Outcome<Index>, i: Index, rs: Records)
    requires Overrides(r, i, rs) && Overrides(o, i, rs)
    ensures r.Ok? <==> o.Ok?
    ensures r.Ok? ==> r == o
  {
    if r.Ok? {
      CanonicalIndex(r.value, o.value);
    }
  }

  lemma DeriveOverrides(i: Index, rs: Records, all: Records)
    requires WFIndex(i) && Valid(all)
    requires RecordMap(all) == IndexContents(i) + RecordMap(rs)
    ensures Overrides(DeriveComplete(all), i, rs)
  {
    UnionKeys(i, rs, all);
    if |all| == 0 {
      assert KeysOf(all) == {};
    } else {
      BuildSpec(all);
    }
  }

  /**
   Folding inserts, merging in bulk, and building the overridden map from
   nothing succeed on the same batches, and then give the same root.
   */
  lemma ThreeWaysAgree(i: Index, rs: Records, all: Records)
    requires WFIndex(i) && Sorted(rs) && Sorted(all)
    requires RecordMap(all) == IndexContents(i) + RecordMap(rs)
    ensures InsertMany(i, rs).Ok? <==> AllValid(rs) && PrefixFree(KeysOf(all))
    ensures InsertBulk(i, rs).Ok? <==> InsertMany(i, rs).Ok?
    ensures DeriveComplete(all).Ok? <==> InsertMany(i, rs).Ok?
    ensures InsertMany(i, rs).Ok? ==> InsertBulk(i, rs) == InsertMany(i, rs) == DeriveComplete(all)
  {
    UnionValid(i, rs, all);
    UnionKeys(i, rs, all);
    if AllValid(rs) {
      InsertEachSpec(i, rs);
      InsertBulkSpec(i, rs);
      DeriveOverrides(i, rs, all);
      Agree(InsertMany(i, rs), InsertBulk(i, rs), i, rs);
      Agree(InsertMany(i, rs), DeriveComplete(all), i, rs);
    }
  }

  /** Whatever inserts and removals led to a map, its root is the one derived from the map's records. */
  lemma RunIsDerived(i: Index, ops: seq<Op>, all: Records, universe: set<Bits>)
    requires WFIndex(i) && (forall op :: op in ops ==> ValidOp(op) && op.key in universe)
    requires PrefixFree(universe) && IndexContents(i).Keys <= universe
    requires Sorted(all) && RecordMap(all) == MapRun(IndexContents(i), ops)
    ensures Run(i, ops).Ok? && DeriveComplete(all) == Run(i, ops)
  {
    hide Run, MapRun, DeriveComplete, WFIndex, Sorted, RecordMap;
    RunSpec(i, ops, universe);
    var r := Run(i, ops).value;
    ContentsValid(r);
    ValidByMap(all);
    assert RecordMap(all) == IndexContents(Empty) + RecordMap(all);
    EmptyIsWF();
    DeriveOverrides(Empty, all, all);
    IndexPrefixFree(r);
    RecordMapKeys(all);
    assert IndexContents(Empty).Keys + KeysOf(all) == IndexContents(r).Keys;
    CanonicalIndex(r, DeriveComplete(all).value);
  }

  lemma EmptyIsWF()
    ensures WFIndex(Empty)
  {
  }
}
