/**
 Construction mode: nodes are staged in memory, and publication moves them to
 disk child before parent. Publication may fail at any step and be retried.

 `Sound` holds after every single write: the disk is closed under children, and
 whatever is staged can be read down to its leaves. `Advances` relates two such
 states, the later of which has more on disk; no readable tree is lost between them.
 */
module PatriciaPublication {
  import opened Wrappers
  import opened KeyBits
  import opened ContentAddress
  import opened PatriciaTree
  import opened PatriciaNodes
  import opened PatriciaInsert
  import opened PatriciaSink

  /** Every stored node has its whole subtree stored. */
  ghost predicate Closed(c: Codec, s: Source) {
    forall d :: d in s.loose || d in s.packed ==> Saved(c, s, d)
  }

  ghost predicate Sound(c: Codec, s: Source) {
    Authentic(c, s) && Closed(c, s)
  }

  /** Whatever tree could be read before can be read after. */
  ghost predicate Keeps(c: Codec, s: Source, z: Source) {
    forall t :: Fit(c, t) && Readable(c, s, t) ==> Readable(c, z, t)
  }

  /** Stored bytes only accumulate, and a node leaves the staging only for the disk. */
  ghost predicate Advances(c: Codec, s: Source, z: Source) {
    && Intact(c, z) && s.loose.Keys <= z.loose.Keys && s.packed.Keys <= z.packed.Keys
    && (forall d :: d in z.staged ==> d in s.staged && z.staged[d] == s.staged[d])
    && (forall d :: d in s.staged ==> d in z.staged || d in z.loose || d in z.packed)
  }

  lemma ReadNodeIsOwn(c: Codec, s: Source, d: Digest)
    requires Intact(c, s) && ReadNode(c, s, d).Ok?
    ensures d in s.loose || d in s.packed
    ensures ValidNode(c, ReadNode(c, s, d).value) && DigestOf(c, ReadNode(c, s, d).value) == d
  {
  }

  lemma NodeSurvives(c: Codec, s: Source, z: Source, t: Tree)
    requires Faithful(c) && Fit(c, t) && Advances(c, s, z)
    requires ReadStaged(c, s, TreeDigest(c, t)) == Ok(NodeOf(c, t))
    ensures ReadStaged(c, z, TreeDigest(c, t)) == Ok(NodeOf(c, t))
  {
    hide Faithful, Fit, NodeOf;
    var d := TreeDigest(c, t);
    if d !in z.staged {
      assert d !in s.staged ==> d in s.loose || d in s.packed;
      StoredNodeReads(c, z, t);
    }
  }

  lemma {:induction false} TreeSurvives(c: Codec, s: Source, z: Source, t: Tree)
    requires Faithful(c) && Fit(c, t) && Advances(c, s, z) && Readable(c, s, t)
    ensures Readable(c, z, t)
  {
    hide ReadStaged, Advances, Faithful;
    NodeSurvives(c, s, z, t);
    if t.Branch? {
      TreeSurvives(c, s, z, t.left);
      TreeSurvives(c, s, z, t.right);
    }
  }

  /** Moving nodes to disk loses no tree. */
  lemma AdvancesKeeps(c: Codec, s: Source, z: Source)
    requires Faithful(c) && Advances(c, s, z)
    ensures Keeps(c, s, z)
  {
    hide Faithful, Fit, Advances;
    forall t | Fit(c, t) && Readable(c, s, t) ensures Readable(c, z, t) {
      TreeSurvives(c, s, z, t);
    }
  }

  lemma SavedGrows(c: Codec, s: Source, z: Source, d: Digest)
    requires Faithful(c) && Intact(c, s) && Advances(c, s, z) && Saved(c, s, d)
    ensures Saved(c, z, d)
  {
    var t :| Fit(c, t) && TreeDigest(c, t) == d && Persisted(c, s, t);
    PersistedGrows(c, s, z, t);
  }

  lemma TopsKept(c: Codec, s: Source, z: Source, d: Digest)
    requires Keeps(c, s, z) && Tops(c, s, d)
    ensures Tops(c, z, d)
  {
  }

  /** It stays sound if the newly stored nodes have their subtrees stored. */
  lemma AdvancesSound(c: Codec, s: Source, z: Source)
    requires Faithful(c) && Sound(c, s) && Advances(c, s, z)
    requires forall d :: (d in z.loose && d !in s.loose) || (d in z.packed && d !in s.packed) ==> Saved(c, z, d)
    ensures Sound(c, z)
  {
    hide Saved, Tops;
    AdvancesKeeps(c, s, z);
    forall d | d in z.loose || d in z.packed ensures Saved(c, z, d) {
      if d in s.loose || d in s.packed {
        SavedGrows(c, s, z, d);
      }
    }
    forall d | d in z.staged ensures Tops(c, z, d) {
      TopsKept(c, s, z, d);
    }
  }

  /** A readable tree whose top is not staged is stored down to its leaves. */
  lemma StagedOrStored(c: Codec, s: Source, t: Tree)
    requires Faithful(c) && Sound(c, s) && Fit(c, t) && Readable(c, s, t)
    requires TreeDigest(c, t) !in s.staged
    ensures Persisted(c, s, t)
  {
    hide ReadNode;
    var d := TreeDigest(c, t);
    ReadNodeIsOwn(c, s, d);
    assert Saved(c, s, d);
    var u :| Fit(c, u) && TreeDigest(c, u) == d && Persisted(c, s, u);
    TreeDigestInjective(c, t, u);
  }

  lemma AdvancesTransitive(c: Codec, s: Source, y: Source, z: Source)
    requires Advances(c, s, y) && Advances(c, y, z)
    ensures Advances(c, s, z)
  {
  }

  /** One node written under its digest, its staged copy kept or dropped. */
  ghost function Written(c: Codec, s: Source, t: Tree, dropped: bool): Source {
    var d := TreeDigest(c, t);
    Source(s.loose[d := c.encode(NodeOf(c, t))], s.packed, if dropped then s.staged - {d} else s.staged)
  }

  /** Writing a node after its children leaves the store closed. */
  lemma WritingAdvances(c: Codec, s: Source, t: Tree, dropped: bool)
    requires Faithful(c) && Sound(c, s) && Fit(c, t)
    requires t.Branch? ==> Persisted(c, s, t.left) && Persisted(c, s, t.right)
    ensures Advances(c, s, Written(c, s, t, dropped)) && Sound(c, Written(c, s, t, dropped))
    ensures Persisted(c, Written(c, s, t, dropped), t)
  {
    hide Persisted, NodeOf, WF, InPlay, Saved, Tops, Faithful;
    var z := Written(c, s, t, dropped);
    NodeIsOwn(c, t);
    assert Advances(c, s, z);
    if t.Branch? {
      FitSides(c, t);
      PersistedGrows(c, s, z, t.left);
      PersistedGrows(c, s, z, t.right);
    }
    SavedNode(c, z, t);
    AdvancesSound(c, s, z);
  }

  // ----- the depth-first publication stack -----

  /** A digest waiting on the stack: first to be expanded, then to be published. */
  datatype Visit = Visit(digest: Digest, expanded: bool)

  /** Already on disk, or due before the entries below it. */
  ghost predicate Settled(c: Codec, z: Source, above: seq<Tree>, t: Tree) {
    Persisted(c, z, t) || t in above
  }

  ghost predicate SidesSettled(c: Codec, z: Source, above: seq<Tree>, t: Tree) {
    t.Branch? ==> Settled(c, z, above, t.left) && Settled(c, z, above, t.right)
  }

  /** The stack visits these trees, all readable in `s`. */
  ghost predicate Visited(c: Codec, s: Source, pending: seq<Visit>, trees: seq<Tree>) {
    && |trees| == |pending|
    && forall i :: 0 <= i < |trees| ==> Fit(c, trees[i]) && TreeDigest(c, trees[i]) == pending[i].digest && Readable(c, s, trees[i])
  }

  /** Children of expanded entries are on the disk of `z`, or due before them. */
  ghost predicate Due(c: Codec, z: Source, pending: seq<Visit>, trees: seq<Tree>) {
    && |trees| == |pending|
    && forall i :: 0 <= i < |trees| && pending[i].expanded ==> SidesSettled(c, z, trees[i + 1..], trees[i])
  }

  ghost predicate Stacked(c: Codec, s: Source, z: Source, pending: seq<Visit>, trees: seq<Tree>) {
    Visited(c, s, pending, trees) && Due(c, z, pending, trees)
  }

  function VisitCost(expanded: bool, t: Tree): nat
    decreases t, expanded
  {
    if expanded then 1
    else if t.Leaf? then 2
    else 2 + VisitCost(false, t.left) + VisitCost(false, t.right)
  }

  ghost function StackCost(pending: seq<Visit>, trees: seq<Tree>): nat
    requires |pending| == |trees|
    decreases |pending|
  {
    var n := |pending| - 1;
    if n < 0 then 0 else StackCost(pending[..n], trees[..n]) + VisitCost(pending[n].expanded, trees[n])
  }

  /** A disk that holds at least as much. */
  ghost predicate Wider(c: Codec, z: Source, y: Source) {
    Intact(c, z) && Intact(c, y) && z.loose.Keys <= y.loose.Keys && z.packed.Keys <= y.packed.Keys
  }

  lemma SettledBelow(c: Codec, z: Source, y: Source, above: seq<Tree>, top: Tree, t: Tree)
    requires Faithful(c) && Wider(c, z, y) && Fit(c, t)
    requires Settled(c, z, above + [top], t) && Persisted(c, y, top)
    ensures Settled(c, y, above, t)
  {
    hide ReadNode, TreeDigest, NodeOf, Fit, Faithful;
    if Persisted(c, z, t) {
      PersistedGrows(c, z, y, t);
    }
  }

  lemma DueBelow(c: Codec, s: Source, z: Source, y: Source, pending: seq<Visit>, trees: seq<Tree>)
    requires Faithful(c) && Wider(c, z, y) && Visited(c, s, pending, trees) && Due(c, z, pending, trees)
    requires |pending| > 0 && Persisted(c, y, trees[|trees| - 1])
    ensures Due(c, y, pending[..|pending| - 1], trees[..|trees| - 1])
  {
    hide Settled, Wider, Persisted, Faithful, Readable, TreeDigest;
    var n := |trees| - 1;
    var rest := trees[..n];
    forall i | 0 <= i < n && pending[..n][i].expanded ensures SidesSettled(c, y, rest[i + 1..], rest[i]) {
      assert SidesSettled(c, z, trees[i + 1..], trees[i]);
      assert trees[i + 1..] == rest[i + 1..] + [trees[n]];
      if trees[i].Branch? {
        FitSides(c, trees[i]);
        SettledBelow(c, z, y, rest[i + 1..], trees[n], trees[i].left);
        SettledBelow(c, z, y, rest[i + 1..], trees[n], trees[i].right);
      }
    }
  }

  lemma VisitedBelow(c: Codec, s: Source, x: Source, pending: seq<Visit>, trees: seq<Tree>)
    requires Visited(c, s, pending, trees) && |pending| > 0 && Keeps(c, s, x)
    ensures Visited(c, x, pending[..|pending| - 1], trees[..|trees| - 1])
  {
  }

  /** The top tree is on disk: its entry may go. */
  lemma Popped(c: Codec, s: Source, z: Source, x: Source, y: Source, pending: seq<Visit>, trees: seq<Tree>, root: Tree)
    requires |trees| == |pending| > 0 && Stacked(c, s, z, pending, trees) && Settled(c, z, trees, root)
    requires Faithful(c) && Keeps(c, s, x) && Wider(c, z, y)
    requires Persisted(c, y, trees[|trees| - 1]) && Fit(c, root)
    ensures Stacked(c, x, y, pending[..|pending| - 1], trees[..|trees| - 1])
    ensures Settled(c, y, trees[..|trees| - 1], root)
    ensures StackCost(pending[..|pending| - 1], trees[..|trees| - 1]) < StackCost(pending, trees)
  {
    hide Persisted, Visited, Keeps, Due, Settled, Wider;
    var n := |trees| - 1;
    VisitedBelow(c, s, x, pending, trees);
    DueBelow(c, s, z, y, pending, trees);
    assert trees == trees[..n] + [trees[n]];
    SettledBelow(c, z, y, trees[..n], trees[n], root);
  }

  ghost function ExpandedVisits(t: Tree, c: Codec): seq<Visit> {
    [Visit(TreeDigest(c, t), true)]
      + if t.Leaf? then [] else [Visit(TreeDigest(c, t.right), false), Visit(TreeDigest(c, t.left), false)]
  }

  ghost function ExpandedTrees(t: Tree): seq<Tree> {
    [t] + if t.Leaf? then [] else [t.right, t.left]
  }

  lemma ExpandedSettled(c: Codec, z: Source, above: seq<Tree>, top: Tree, t: Tree)
    requires Settled(c, z, above + [top], t)
    ensures Settled(c, z, above + ExpandedTrees(top), t)
  {
  }

  lemma CostOfOne(rest: seq<Visit>, below: seq<Tree>, a: Visit, t: Tree)
    requires |rest| == |below|
    ensures StackCost(rest + [a], below + [t]) == StackCost(rest, below) + VisitCost(a.expanded, t)
  {
  }

  lemma ExpandedCost(c: Codec, rest: seq<Visit>, below: seq<Tree>, t: Tree)
    requires |rest| == |below|
    ensures |ExpandedVisits(t, c)| == |ExpandedTrees(t)|
    ensures StackCost(rest + ExpandedVisits(t, c), below + ExpandedTrees(t)) < StackCost(rest, below) + VisitCost(false, t)
  {
    hide TreeDigest;
    var v := Visit(TreeDigest(c, t), true);
    CostOfOne(rest, below, v, t);
    if t.Leaf? {
      assert rest + ExpandedVisits(t, c) == rest + [v] && below + ExpandedTrees(t) == below + [t];
    } else {
      var l, r := Visit(TreeDigest(c, t.left), false), Visit(TreeDigest(c, t.right), false);
      CostOfOne(rest + [v], below + [t], r, t.right);
      CostOfOne(rest + [v] + [r], below + [t] + [t.right], l, t.left);
      assert rest + ExpandedVisits(t, c) == rest + [v] + [r] + [l] && below + ExpandedTrees(t) == below + [t] + [t.right] + [t.left];
    }
  }

  lemma ExpandedVisited(c: Codec, s: Source, pending: seq<Visit>, trees: seq<Tree>)
    requires Visited(c, s, pending, trees) && |pending| > 0
    ensures var n := |trees| - 1; Visited(c, s, pending[..n] + ExpandedVisits(trees[n], c), trees[..n] + ExpandedTrees(trees[n]))
  {
    hide ReadStaged, TreeDigest, NodeOf;
  }

  lemma ExpandedDue(c: Codec, z: Source, pending: seq<Visit>, trees: seq<Tree>)
    requires Due(c, z, pending, trees) && |pending| > 0
    ensures var n := |trees| - 1; Due(c, z, pending[..n] + ExpandedVisits(trees[n], c), trees[..n] + ExpandedTrees(trees[n]))
  {
    hide Persisted, TreeDigest;
    var n := |trees| - 1;
    var t, rest := trees[n], trees[..n];
    var visits, more := pending[..n] + ExpandedVisits(t, c), rest + ExpandedTrees(t);
    forall i | 0 <= i < |more| && visits[i].expanded ensures SidesSettled(c, z, more[i + 1..], more[i]) {
      if i < n {
        assert SidesSettled(c, z, trees[i + 1..], trees[i]);
        assert trees[i + 1..] == rest[i + 1..] + [t] && more[i + 1..] == rest[i + 1..] + ExpandedTrees(t);
      } else {
        assert t.Branch? ==> more[i + 1..] == [t.right, t.left];
      }
    }
  }

  /** An unexpanded top entry is replaced by its expanded self and its children. */
  lemma Expanded(c: Codec, s: Source, z: Source, pending: seq<Visit>, trees: seq<Tree>, root: Tree)
    requires |trees| == |pending| > 0 && Stacked(c, s, z, pending, trees) && Settled(c, z, trees, root)
    requires !pending[|pending| - 1].expanded
    ensures var n := |trees| - 1;
      var t := trees[n];
      && |ExpandedVisits(t, c)| == |ExpandedTrees(t)|
      && Stacked(c, s, z, pending[..n] + ExpandedVisits(t, c), trees[..n] + ExpandedTrees(t))
      && Settled(c, z, trees[..n] + ExpandedTrees(t), root)
      && StackCost(pending[..n] + ExpandedVisits(t, c), trees[..n] + ExpandedTrees(t)) < StackCost(pending, trees)
  {
    hide Due, Settled, Visited, VisitCost;
    var n := |trees| - 1;
    assert trees == trees[..n] + [trees[n]];
    ExpandedVisited(c, s, pending, trees);
    ExpandedCost(c, pending[..n], trees[..n], trees[n]);
    ExpandedDue(c, z, pending, trees);
    ExpandedSettled(c, z, trees[..n], trees[n], root);
  }

  // ----- publication -----

  /** `Refused` is the answer to a bad mutation; the others come from the memory budget and from publication. */
  datatype Failure = Refused | OverBudget | Unpublished

  datatype Append = Appended | NoRoom | Failing

  /** Node files and packed node bytes; either kind of publication may fail, which `faults` counts. */
  class NodeStore {
    var loose: map<Digest, Bytes>
    var packed: map<Digest, Bytes>
    var faults: nat

    /** Publishes exact bytes: idempotent, and on failure either done or not done. */
    method PublishExact(d: Digest, bytes: Bytes) returns (ok: bool)
      modifies this
      ensures packed == old(packed)
      ensures loose == old(loose) || (d !in old(loose) && loose == old(loose)[d := bytes])
      ensures ok ==> d in loose && loose[d] == bytes
      ensures faults == old(faults) + if ok then 0 else 1
    {
      var installed, confirmed := *, *;
      if d in loose && loose[d] != bytes {
        confirmed := false;
      } else if installed {
        loose := loose[d := bytes];
      }
      ok := confirmed && d in loose;
      faults := faults + if ok then 0 else 1;
    }

    /** Appends all nodes to the packed catalog at once, or has no room for them, or fails either way. */
    method AppendPacked(entries: map<Digest, Bytes>) returns (r: Append)
      modifies this
      ensures loose == old(loose)
      ensures packed == old(packed) || packed == old(packed) + entries
      ensures r.Appended? ==> packed == old(packed) + entries
      ensures r.NoRoom? ==> packed == old(packed)
      ensures faults == old(faults) + if r.Failing? then 1 else 0
    {
      var room, installed, confirmed := *, *, *;
      if !room {
        return NoRoom;
      }
      if installed {
        packed := packed + entries;
        if confirmed {
          return Appended;
        }
      }
      faults := faults + 1;
      return Failing;
    }
  }

  /** The memory budget: it may refuse any further need, which `refusals` counts. */
  class Budget {
    var refusals: nat

    method Allows() returns (ok: bool)
      modifies this
      ensures refusals == old(refusals) + if ok then 0 else 1
    {
      ok := *;
      refusals := refusals + if ok then 0 else 1;
    }
  }

  /** The disk and the staged nodes as one source. */
  function View(files: NodeStore, staged: StagedNodes): Source
    reads files, staged
  {
    Source(files.loose, files.packed, staged.nodes)
  }

  lemma SameAdvances(c: Codec, s: Source)
    requires Intact(c, s)
    ensures Advances(c, s, s) && Keeps(c, s, s)
  {
  }

  lemma SoundIntact(c: Codec, s: Source)
    requires Sound(c, s)
    ensures Intact(c, s) && Authentic(c, s)
  {
  }

  lemma Begins(c: Codec, s: Source, z: Source, whole: Tree)
    requires Fit(c, whole) && Readable(c, s, whole)
    ensures Stacked(c, s, z, [Visit(TreeDigest(c, whole), false)], [whole]) && Settled(c, z, [whole], whole)
  {
  }

  /** The node staged under the top entry is the top tree's. */
  lemma TopNode(c: Codec, s: Source, z: Source, pending: seq<Visit>, trees: seq<Tree>)
    requires Faithful(c) && Authentic(c, s) && Stacked(c, s, z, pending, trees) && |pending| == |trees| > 0
    ensures var n := |trees| - 1;
      var d, t := pending[n].digest, trees[n];
      && Fit(c, t) && TreeDigest(c, t) == d && Readable(c, s, t)
      && (d in s.staged ==> s.staged[d] == NodeOf(c, t))
      && (pending[n].expanded && t.Branch? ==> Persisted(c, z, t.left) && Persisted(c, z, t.right))
  {
  }

  lemma NodeFits(c: Codec, t: Tree)
    requires Faithful(c) && Fit(c, t)
    ensures |c.encode(NodeOf(c, t))| <= MAX_VALID_NODE_BYTES && c.of(c.encode(NodeOf(c, t))) == TreeDigest(c, t)
  {
    NodeIsOwn(c, t);
    NodeOfIsValid(c, t);
  }

  lemma UnstagedTop(c: Codec, s: Source, pending: seq<Visit>, trees: seq<Tree>, whole: Tree)
    requires Faithful(c) && Sound(c, s) && |trees| == |pending| > 0
    requires Stacked(c, s, s, pending, trees) && Settled(c, s, trees, whole) && Fit(c, whole)
    requires pending[|pending| - 1].digest !in s.staged
    ensures Stacked(c, s, s, pending[..|pending| - 1], trees[..|trees| - 1])
    ensures Settled(c, s, trees[..|trees| - 1], whole)
    ensures StackCost(pending[..|pending| - 1], trees[..|trees| - 1]) < StackCost(pending, trees)
  {
    hide Stacked, Persisted, Readable, Fit, Faithful, Settled, StackCost, Authentic, TreeDigest;
    SoundIntact(c, s);
    TopNode(c, s, s, pending, trees);
    StagedOrStored(c, s, trees[|trees| - 1]);
    Popped(c, s, s, s, s, pending, trees, whole);
  }

  lemma PublishedTop(c: Codec, s: Source, pending: seq<Visit>, trees: seq<Tree>, whole: Tree, dropped: bool)
    requires Faithful(c) && Sound(c, s) && |trees| == |pending| > 0
    requires Stacked(c, s, s, pending, trees) && Settled(c, s, trees, whole) && Fit(c, whole)
    requires pending[|pending| - 1].expanded
    ensures var z := Written(c, s, trees[|trees| - 1], dropped);
      && Sound(c, z) && Advances(c, s, z)
      && Stacked(c, z, z, pending[..|pending| - 1], trees[..|trees| - 1])
      && Settled(c, z, trees[..|trees| - 1], whole)
      && StackCost(pending[..|pending| - 1], trees[..|trees| - 1]) < StackCost(pending, trees)
  {
    hide Stacked, Persisted, Readable, Fit, Faithful, Settled, StackCost, Authentic, Keeps, TreeDigest, Closed, Intact;
    SoundIntact(c, s);
    TopNode(c, s, s, pending, trees);
    var t := trees[|trees| - 1];
    var z := Written(c, s, t, dropped);
    WritingAdvances(c, s, t, dropped);
    AdvancesKeeps(c, s, z);
    SoundIntact(c, z);
    Popped(c, s, s, z, z, pending, trees, whole);
  }

  lemma ExpandedTop(c: Codec, t: Tree, d: Digest, node: Node)
    requires TreeDigest(c, t) == d && node == NodeOf(c, t)
    ensures ExpandedVisits(t, c) == [Visit(d, true)] + if node.BranchNode? then [Visit(node.right, false), Visit(node.left, false)] else []
  {
  }

  /** A root that is readable but not staged is stored already. */
  lemma UnstagedRoot(c: Codec, s: Source, root: Digest)
    requires Faithful(c) && Sound(c, s) && root !in s.staged
    ensures Tops(c, s, root) ==> Saved(c, s, root)
  {
  }

  /**
   Publishes everything staged below one root, children first. After each
   single publication, confirmed or not, the store is closed and no tree is lost.
   */
  method PublishRootLoose(c: Codec, files: NodeStore, staged: StagedNodes, root: Digest, budget: Budget) returns (r: Result<nat, Failure>)
    requires Faithful(c) && Sound(c, View(files, staged))
    modifies files, staged, budget
    ensures files.faults >= old(files.faults) && budget.refusals >= old(budget.refusals)
    ensures r.Err? ==> r.error != Refused && (if r.error == OverBudget then budget.refusals > old(budget.refusals) else files.faults > old(files.faults))
    ensures Sound(c, View(files, staged)) && Advances(c, old(View(files, staged)), View(files, staged))
    ensures r.Ok? && Tops(c, old(View(files, staged)), root) ==> Saved(c, View(files, staged), root)
  {
    hide Sound, Advances, Keeps, Stacked, Settled, Persisted, Readable, Fit, Faithful, TreeDigest, Wider, StackCost, Intact, ExpandedVisits, ExpandedTrees, ValidNode;
    ghost var start := View(files, staged);
    SoundIntact(c, start);
    SameAdvances(c, start);
    if root !in staged.nodes {
      UnstagedRoot(c, start, root);
      return Ok(0);
    }
    ghost var whole := StagedTree(c, start, root);
    Begins(c, start, start, whole);
    var pending, published := [Visit(root, false)], 0;
    ghost var trees := [whole];
    while |pending| > 0
      invariant Sound(c, View(files, staged)) && Advances(c, start, View(files, staged))
      invariant |trees| == |pending| && Stacked(c, View(files, staged), View(files, staged), pending, trees)
      invariant Settled(c, View(files, staged), trees, whole) && files.faults == old(files.faults) && budget.refusals == old(budget.refusals)
      decreases StackCost(pending, trees)
    {
      ghost var before := View(files, staged);
      var n := |pending| - 1;
      var digest, expanded := pending[n].digest, pending[n].expanded;
      SoundIntact(c, before);
      if digest !in staged.nodes {
        UnstagedTop(c, before, pending, trees, whole);
        pending, trees := pending[..n], trees[..n];
      } else if !expanded {
        Expanded(c, before, before, pending, trees, whole);
        TopNode(c, before, before, pending, trees);
        var node := staged.nodes[digest];
        ExpandedTop(c, trees[n], digest, node);
        pending := pending[..n] + ([Visit(digest, true)] + if node.BranchNode? then [Visit(node.right, false), Visit(node.left, false)] else []);
        trees := trees[..n] + ExpandedTrees(trees[n]);
        var fits := budget.Allows();
        if !fits {
          return Err(OverBudget);
        }
      } else {
        var bytes := c.encode(staged.nodes[digest]);
        TopNode(c, before, before, pending, trees);
        NodeFits(c, trees[n]);
        if |bytes| > MAX_VALID_NODE_BYTES || |bytes| > MAX_NODE_BYTES || c.of(bytes) != digest {
          assert false;
        }
        PublishedTop(c, before, pending, trees, whole, false);
        PublishedTop(c, before, pending, trees, whole, true);
        AdvancesTransitive(c, start, before, Written(c, before, trees[n], false));
        AdvancesTransitive(c, start, before, Written(c, before, trees[n], true));
        var ok := files.PublishExact(digest, bytes);
        if !ok {
          assert View(files, staged) == before || View(files, staged) == Written(c, before, trees[n], false);
          return Err(Unpublished);
        }
        assert files.loose == before.loose[digest := bytes];
        staged.nodes := staged.nodes - {digest};
        assert View(files, staged) == Written(c, before, trees[n], true);
        published := published + 1;
        pending, trees := pending[..n], trees[..n];
      }
    }
    WholeSettled(c, View(files, staged), whole);
    return Ok(published);
  }

  lemma WholeSettled(c: Codec, z: Source, whole: Tree)
    requires Settled(c, z, [], whole) && Fit(c, whole)
    ensures Saved(c, z, TreeDigest(c, whole))
  {
  }

  // ----- publication through a sink -----

  lemma UpToAdvances(c: Codec, s: Source, sink: Sink, n: nat)
    requires Intact(c, s) && Honest(c, sink) && n <= |sink.order|
    ensures Advances(c, s, UpTo(s, sink, n)) && Intact(c, UpTo(s, sink, n))
  {
  }

  lemma WiderAgain(s: Source, sink: Sink, m: nat, n: nat)
    requires m <= n <= |sink.order|
    ensures forall e :: e in UpTo(s, sink, m).loose ==> e in UpTo(s, sink, n).loose
    ensures UpTo(s, sink, m).packed == UpTo(s, sink, n).packed
  {
  }

  lemma AddedByUpTo(s: Source, sink: Sink, n: nat, d: Digest) returns (i: nat)
    requires n <= |sink.order| && d in UpTo(s, sink, n).loose && d !in s.loose
    ensures i < n && sink.order[i] == d
  {
    i :| 0 <= i < n && sink.order[i] == d;
  }

  /** Any start of the sink's order can be on disk without breaking closure. */
  lemma UpToSound(c: Codec, s: Source, sink: Sink, n: nat)
    requires Faithful(c) && Sound(c, s) && Orderly(c, s, sink) && n <= |sink.order|
    ensures Sound(c, UpTo(s, sink, n)) && Advances(c, s, UpTo(s, sink, n))
  {
    hide Saved, Authentic, Closed, UpTo, Intact, Honest;
    SoundIntact(c, s);
    var z := UpTo(s, sink, n);
    UpToAdvances(c, s, sink, n);
    WiderAgain(s, sink, 0, n);
    UpToNone(s, sink);
    forall d | d in z.loose && d !in s.loose ensures Saved(c, z, d) {
      var i := AddedByUpTo(s, sink, n, d);
      UpToAdvances(c, s, sink, i + 1);
      WiderAgain(s, sink, i + 1, n);
      SavedWider(c, UpTo(s, sink, i + 1), z, d);
    }
    AdvancesSound(c, s, z);
  }

  lemma SavedWider(c: Codec, s: Source, z: Source, d: Digest)
    requires Faithful(c) && Intact(c, s) && Intact(c, z) && Saved(c, s, d)
    requires forall e :: e in s.loose || e in s.packed ==> e in z.loose || e in z.packed
    ensures Saved(c, z, d)
  {
    var t :| Fit(c, t) && TreeDigest(c, t) == d && Persisted(c, s, t);
    PersistedGrows(c, s, z, t);
  }

  ghost function PackedWith(s: Source, sink: Sink): Source {
    s.(packed := s.packed + sink.entries)
  }

  lemma PackedAdvances(c: Codec, s: Source, sink: Sink)
    requires Intact(c, s) && Honest(c, sink)
    ensures Advances(c, s, PackedWith(s, sink)) && Intact(c, PackedWith(s, sink))
  {
  }

  lemma PackedWider(s: Source, sink: Sink, n: nat)
    requires n <= |sink.order|
    ensures forall e :: e in UpTo(s, sink, n).loose || e in UpTo(s, sink, n).packed ==>
      e in PackedWith(s, sink).loose || e in PackedWith(s, sink).packed
  {
  }

  lemma PackedSound(c: Codec, s: Source, sink: Sink)
    requires Faithful(c) && Sound(c, s) && Orderly(c, s, sink)
    ensures Sound(c, PackedWith(s, sink)) && Advances(c, s, PackedWith(s, sink))
  {
    hide Saved, Authentic, Closed, UpTo, Intact, Metered, Sound, Advances;
    SoundIntact(c, s);
    var z := PackedWith(s, sink);
    PackedAdvances(c, s, sink);
    forall d | d in z.packed && d !in s.packed ensures Saved(c, z, d) {
      var i :| 0 <= i < |sink.order| && sink.order[i] == d;
      UpToAdvances(c, s, sink, i + 1);
      PackedWider(s, sink, i + 1);
      SavedWider(c, UpTo(s, sink, i + 1), z, d);
    }
    AdvancesSound(c, s, z);
  }

  lemma UpToNext(s: Source, sink: Sink, n: nat)
    requires n < |sink.order| && sink.order[n] in sink.entries
    ensures UpTo(s, sink, n + 1).loose == UpTo(s, sink, n).loose[sink.order[n] := sink.entries[sink.order[n]]]
  {
    assert sink.order[..n + 1] == sink.order[..n] + [sink.order[n]];
  }

  lemma UpToNone(s: Source, sink: Sink)
    ensures UpTo(s, sink, 0) == s
  {
  }

  /** Everything the sink holds is on disk. */
  ghost predicate Flushes(sink: Sink, z: Source) {
    forall d :: d in sink.entries ==> d in z.loose || d in z.packed
  }

  lemma UpToPresent(c: Codec, s: Source, sink: Sink, n: nat)
    requires Intact(c, s) && Orderly(c, s, sink) && n < |sink.order|
    requires sink.order[n] in UpTo(s, sink, n).loose
    ensures sink.order[n] in sink.entries && UpTo(s, sink, n).loose[sink.order[n]] == sink.entries[sink.order[n]]
  {
    var d := sink.order[n];
    assert Saved(c, UpTo(s, sink, n + 1), d);
    var t :| Fit(c, t) && TreeDigest(c, t) == d;
    assert Own(c, d, sink.entries[d]);
    assert d in s.loose ==> Own(c, d, s.loose[d]);
  }

  /** Publishes a finished sink: packed if that has room, else file by file in the sink's order. */
  method PublishSink(c: Codec, files: NodeStore, staged: StagedNodes, sink: ConstructionSink, permitsPacked: bool) returns (r: Result<nat, Failure>)
    requires Faithful(c) && Sound(c, View(files, staged)) && Orderly(c, View(files, staged), sink.View())
    modifies files
    ensures files.faults >= old(files.faults) && (r.Err? ==> r.error == Unpublished && files.faults > old(files.faults))
    ensures Sound(c, View(files, staged)) && Advances(c, old(View(files, staged)), View(files, staged))
    ensures r.Ok? ==> Flushes(sink.View(), View(files, staged))
  {
    hide Sound, Advances, Orderly, UpTo, Intact;
    ghost var start, held := View(files, staged), sink.View();
    SoundIntact(c, start);
    SameAdvances(c, start);
    OrderlyHonest(c, start, held);
    if permitsPacked {
      PackedSound(c, start, held);
      var appended := files.AppendPacked(sink.entries);
      assert View(files, staged) == start || View(files, staged) == PackedWith(start, held);
      if appended.Appended? {
        return Ok(|sink.order|);
      }
      if appended.Failing? {
        return Err(Unpublished);
      }
    }
    r := PublishFiles(c, files, staged, sink);
  }

  lemma FileStep(c: Codec, s: Source, sink: Sink, n: nat)
    requires Faithful(c) && Sound(c, s) && Orderly(c, s, sink) && n < |sink.order|
    ensures var d := sink.order[n];
      && d in sink.entries
      && Sound(c, UpTo(s, sink, n)) && Advances(c, s, UpTo(s, sink, n))
      && Sound(c, UpTo(s, sink, n + 1)) && Advances(c, s, UpTo(s, sink, n + 1))
      && UpTo(s, sink, n + 1) == UpTo(s, sink, n).(loose := UpTo(s, sink, n).loose[d := sink.entries[d]])
      && (d in UpTo(s, sink, n).loose ==> UpTo(s, sink, n).loose[d] == sink.entries[d])
  {
    hide Sound, Advances, UpTo, Intact, ChildrenFirst;
    SoundIntact(c, s);
    UpToSound(c, s, sink, n);
    UpToSound(c, s, sink, n + 1);
    UpToNext(s, sink, n);
    UpToOthers(s, sink, n);
    UpToOthers(s, sink, n + 1);
    if sink.order[n] in UpTo(s, sink, n).loose {
      UpToPresent(c, s, sink, n);
    }
  }

  lemma FilesDone(c: Codec, s: Source, sink: Sink)
    requires Faithful(c) && Sound(c, s) && Orderly(c, s, sink)
    ensures var z := UpTo(s, sink, |sink.order|); Sound(c, z) && Advances(c, s, z) && Flushes(sink, z)
  {
    hide Sound, Advances, ChildrenFirst;
    UpToSound(c, s, sink, |sink.order|);
    FlushedAll(s, sink);
  }

  method PublishFiles(c: Codec, files: NodeStore, staged: StagedNodes, sink: ConstructionSink) returns (r: Result<nat, Failure>)
    requires Faithful(c) && Sound(c, View(files, staged)) && Orderly(c, View(files, staged), sink.View())
    modifies files
    ensures files.faults >= old(files.faults) && (r.Err? ==> r.error == Unpublished && files.faults > old(files.faults))
    ensures Sound(c, View(files, staged)) && Advances(c, old(View(files, staged)), View(files, staged))
    ensures r.Ok? ==> Flushes(sink.View(), View(files, staged))
  {
    hide Sound, Advances, Orderly, UpTo, Flushes;
    ghost var start, held := View(files, staged), sink.View();
    UpToNone(start, held);
    for n := 0 to |sink.order|
      invariant View(files, staged) == UpTo(start, held, n) && files.faults == old(files.faults)
    {
      FileStep(c, start, held, n);
      var d := sink.order[n];
      var ok := files.PublishExact(d, sink.entries[d]);
      if !ok {
        assert View(files, staged) == UpTo(start, held, n) || View(files, staged) == UpTo(start, held, n + 1);
        return Err(Unpublished);
      }
      assert View(files, staged) == UpTo(start, held, n + 1);
    }
    FilesDone(c, start, held);
    return Ok(|sink.order|);
  }

  lemma UpToOthers(s: Source, sink: Sink, n: nat)
    requires n <= |sink.order|
    ensures UpTo(s, sink, n).packed == s.packed && UpTo(s, sink, n).staged == s.staged
  {
  }

  lemma OrderlyHonest(c: Codec, s: Source, sink: Sink)
    requires Orderly(c, s, sink)
    ensures Honest(c, sink)
  {
  }

  // ----- collecting what is staged below the roots -----

  /** The top entry, once sunk, is as good as on disk. */
  lemma SunkTop(c: Codec, s: Source, full: Policy, sink: Sink, pending: seq<Visit>, trees: seq<Tree>, whole: Tree)
    requires Faithful(c) && Sound(c, s) && Orderly(c, s, sink) && |trees| == |pending| > 0
    requires Stacked(c, s, Flushed(s, sink), pending, trees) && Settled(c, Flushed(s, sink), trees, whole) && Fit(c, whole)
    requires pending[|pending| - 1].expanded
    ensures var t := trees[|trees| - 1];
      var r := Accept(c, full, sink, TreeDigest(c, t), c.encode(NodeOf(c, t)));
      && Orderly(c, s, r.sink) && Extends(sink, r.sink) && (r.outcome.Ok? || (r.outcome == Err(Capacity) && Crowded(full, r.sink)))
      && (r.outcome.Ok? ==>
          && Stacked(c, s, Flushed(s, r.sink), pending[..|pending| - 1], trees[..|trees| - 1])
          && Settled(c, Flushed(s, r.sink), trees[..|trees| - 1], whole)
          && StackCost(pending[..|pending| - 1], trees[..|trees| - 1]) < StackCost(pending, trees))
  {
    hide Stacked, Persisted, Readable, Fit, Faithful, Settled, StackCost, Authentic, Keeps, TreeDigest, Closed, Intact, Accept, Orderly, Flushed, SinkNode;
    SoundIntact(c, s);
    TopNode(c, s, Flushed(s, sink), pending, trees);
    var t := trees[|trees| - 1];
    SinkTree(c, s, full, sink, t);
    AcceptsNode(c, full, sink, t);
    var r := Accept(c, full, sink, TreeDigest(c, t), c.encode(NodeOf(c, t)));
    if r.outcome.Ok? {
      SameAdvances(c, s);
      OrderlyHonest(c, s, sink);
      OrderlyHonest(c, s, r.sink);
      FlushedWider(c, s, sink, r.sink);
      Popped(c, s, Flushed(s, sink), s, Flushed(s, r.sink), pending, trees, whole);
    }
  }

  lemma AcceptsNode(c: Codec, full: Policy, sink: Sink, t: Tree)
    requires Faithful(c) && Fit(c, t)
    ensures SinkNode(c, full, sink, NodeOf(c, t)) == Accept(c, full, sink, TreeDigest(c, t), c.encode(NodeOf(c, t)))
  {
    hide Accept;
    NodeOfIsValid(c, t);
  }

  lemma FlushedWider(c: Codec, s: Source, a: Sink, b: Sink)
    requires Intact(c, s) && Honest(c, a) && Honest(c, b) && Extends(a, b)
    ensures Wider(c, Flushed(s, a), Flushed(s, b))
  {
    FlushedIntact(c, s, a);
    FlushedIntact(c, s, b);
  }

  lemma UnstagedTopOver(c: Codec, s: Source, sink: Sink, pending: seq<Visit>, trees: seq<Tree>, whole: Tree)
    requires Faithful(c) && Sound(c, s) && Honest(c, sink) && |trees| == |pending| > 0
    requires Stacked(c, s, Flushed(s, sink), pending, trees) && Settled(c, Flushed(s, sink), trees, whole) && Fit(c, whole)
    requires pending[|pending| - 1].digest !in s.staged
    ensures Stacked(c, s, Flushed(s, sink), pending[..|pending| - 1], trees[..|trees| - 1])
    ensures Settled(c, Flushed(s, sink), trees[..|trees| - 1], whole)
    ensures StackCost(pending[..|pending| - 1], trees[..|trees| - 1]) < StackCost(pending, trees)
  {
    hide Stacked, Persisted, Readable, Fit, Faithful, Settled, StackCost, Authentic, TreeDigest, Intact, Honest;
    SoundIntact(c, s);
    SameAdvances(c, s);
    var z := Flushed(s, sink);
    TopNode(c, s, z, pending, trees);
    StagedOrStored(c, s, trees[|trees| - 1]);
    FlushedIntact(c, s, sink);
    PersistedGrows(c, s, z, trees[|trees| - 1]);
    Popped(c, s, z, s, z, pending, trees, whole);
  }

  lemma SavedIfFlushed(c: Codec, s: Source, sink: Sink, d: Digest)
    requires Faithful(c) && Intact(c, s) && Orderly(c, s, sink)
    ensures Saved(c, s, d) ==> Saved(c, Flushed(s, sink), d)
  {
    hide Saved, ChildrenFirst;
    FlushedIntact(c, s, sink);
    if Saved(c, s, d) {
      SavedWider(c, s, Flushed(s, sink), d);
    }
  }

  /** Collects what is staged below one root, children first; false when the sink is full. */
  method CollectRoot(c: Codec, files: NodeStore, staged: StagedNodes, root: Digest, sink: ConstructionSink) returns (complete: bool)
    requires Faithful(c) && Sound(c, View(files, staged))
    requires Orderly(c, View(files, staged), sink.View())
    modifies sink
    ensures Orderly(c, View(files, staged), sink.View()) && Extends(old(sink.View()), sink.View())
    ensures complete && Tops(c, View(files, staged), root) ==> Saved(c, Flushed(View(files, staged), sink.View()), root)
    ensures !complete ==> Crowded(sink.full, sink.View())
  {
    hide Sound, Orderly, Stacked, Settled, Persisted, Readable, Fit, Faithful, TreeDigest, StackCost, ExpandedVisits, ExpandedTrees, ValidNode, Flushed, Accept;
    ghost var s := View(files, staged);
    SoundIntact(c, s);
    if root !in staged.nodes {
      UnstagedRoot(c, s, root);
      SavedIfFlushed(c, s, sink.View(), root);
      return true;
    }
    ghost var whole := StagedTree(c, s, root);
    Begins(c, s, Flushed(s, sink.View()), whole);
    var pending := [Visit(root, false)];
    ghost var trees := [whole];
    while |pending| > 0
      invariant Orderly(c, s, sink.View()) && Extends(old(sink.View()), sink.View())
      invariant |trees| == |pending| && Stacked(c, s, Flushed(s, sink.View()), pending, trees)
      invariant Settled(c, Flushed(s, sink.View()), trees, whole)
      decreases StackCost(pending, trees)
    {
      var n := |pending| - 1;
      var digest, expanded := pending[n].digest, pending[n].expanded;
      OrderlyHonest(c, s, sink.View());
      if digest !in staged.nodes {
        UnstagedTopOver(c, s, sink.View(), pending, trees, whole);
        pending, trees := pending[..n], trees[..n];
      } else if !expanded {
        Expanded(c, s, Flushed(s, sink.View()), pending, trees, whole);
        TopNode(c, s, Flushed(s, sink.View()), pending, trees);
        var node := staged.nodes[digest];
        ExpandedTop(c, trees[n], digest, node);
        pending := pending[..n] + ([Visit(digest, true)] + if node.BranchNode? then [Visit(node.right, false), Visit(node.left, false)] else []);
        trees := trees[..n] + ExpandedTrees(trees[n]);
      } else {
        var bytes := c.encode(staged.nodes[digest]);
        TopNode(c, s, Flushed(s, sink.View()), pending, trees);
        NodeFits(c, trees[n]);
        if |bytes| > MAX_VALID_NODE_BYTES || |bytes| > MAX_NODE_BYTES || c.of(bytes) != digest {
          assert false;
        }
        SunkTop(c, s, sink.full, sink.View(), pending, trees, whole);
        var taken := sink.Take(c, digest, bytes);
        if taken.Err? {
          return false;
        }
        pending, trees := pending[..n], trees[..n];
      }
    }
    WholeSettled(c, Flushed(s, sink.View()), whole);
    return true;
  }

  // ----- publishing the roots of a construction -----

  /** Those of the roots that could be read in `s` are stored in `z`. */
  ghost predicate AllSaved(c: Codec, s: Source, z: Source, roots: seq<Digest>) {
    forall d :: d in roots && Tops(c, s, d) ==> Saved(c, z, d)
  }

  lemma AllStillSaved(c: Codec, s: Source, y: Source, z: Source, roots: seq<Digest>)
    requires Faithful(c) && Sound(c, y) && Advances(c, y, z) && AllSaved(c, s, y, roots)
    ensures AllSaved(c, s, z, roots)
  {
    hide Tops, Saved, Advances;
    SoundIntact(c, y);
    forall d | d in roots && Tops(c, s, d) ensures Saved(c, z, d) {
      SavedGrows(c, y, z, d);
    }
  }

  lemma OneMoreSaved(c: Codec, s: Source, y: Source, z: Source, roots: seq<Digest>, i: nat)
    requires i < |roots| && Faithful(c) && Authentic(c, s) && Advances(c, s, y)
    requires AllSaved(c, s, z, roots[..i]) && (Tops(c, y, roots[i]) ==> Saved(c, z, roots[i]))
    ensures AllSaved(c, s, z, roots[..i + 1])
  {
    hide Tops, Saved, Advances;
    AdvancesKeeps(c, s, y);
    assert roots[..i + 1] == roots[..i] + [roots[i]];
    if Tops(c, s, roots[i]) {
      TopsKept(c, s, y, roots[i]);
    }
  }

  method PublishRootsLoose(c: Codec, files: NodeStore, staged: StagedNodes, roots: seq<Digest>, budget: Budget) returns (r: Result<nat, Failure>)
    requires Faithful(c) && Sound(c, View(files, staged))
    modifies files, staged, budget
    ensures files.faults >= old(files.faults) && budget.refusals >= old(budget.refusals)
    ensures r.Err? ==> r.error != Refused && (if r.error == OverBudget then budget.refusals > old(budget.refusals) else files.faults > old(files.faults))
    ensures Sound(c, View(files, staged)) && Advances(c, old(View(files, staged)), View(files, staged))
    ensures r.Ok? ==> AllSaved(c, old(View(files, staged)), View(files, staged), roots)
  {
    hide Sound, Advances, Tops, Saved, AllSaved;
    ghost var start := View(files, staged);
    SoundIntact(c, start);
    SameAdvances(c, start);
    var published := 0;
    NoneSaved(c, start, start);
    for i := 0 to |roots|
      invariant Sound(c, View(files, staged)) && Advances(c, start, View(files, staged))
      invariant AllSaved(c, start, View(files, staged), roots[..i]) && files.faults >= old(files.faults) && budget.refusals >= old(budget.refusals)
    {
      ghost var before := View(files, staged);
      var one := PublishRootLoose(c, files, staged, roots[i], budget);
      AllStillSaved(c, start, before, View(files, staged), roots[..i]);
      AdvancesTransitive(c, start, before, View(files, staged));
      if one.Err? {
        return one;
      }
      published := published + one.value;
      OneMoreSaved(c, start, before, View(files, staged), roots, i);
    }
    assert roots[..|roots|] == roots;
    return Ok(published);
  }

  lemma NoneSaved(c: Codec, s: Source, z: Source)
    ensures AllSaved(c, s, z, [])
  {
  }

  lemma SavedAfterFlush(c: Codec, s: Source, sink: Sink, z: Source, roots: seq<Digest>)
    requires Faithful(c) && Intact(c, s) && Honest(c, sink) && Advances(c, s, z) && Flushes(sink, z)
    requires AllSaved(c, s, Flushed(s, sink), roots)
    ensures AllSaved(c, s, z, roots)
  {
    hide Saved, Tops;
    FlushedIntact(c, s, sink);
    forall d | d in roots && Tops(c, s, d) ensures Saved(c, z, d) {
      SavedWider(c, Flushed(s, sink), z, d);
    }
  }

  lemma SavedInLargerSink(c: Codec, s: Source, a: Sink, b: Sink, roots: seq<Digest>)
    requires Faithful(c) && Intact(c, s) && Honest(c, a) && Honest(c, b) && Extends(a, b)
    requires AllSaved(c, s, Flushed(s, a), roots)
    ensures AllSaved(c, s, Flushed(s, b), roots)
  {
    hide Saved, Intact, Tops;
    FlushedIntact(c, s, a);
    FlushedIntact(c, s, b);
    forall d | d in roots && Tops(c, s, d) ensures Saved(c, Flushed(s, b), d) {
      SavedWider(c, Flushed(s, a), Flushed(s, b), d);
    }
  }

  ghost function Without(s: Source, gone: set<Digest>): Source {
    s.(staged := s.staged - gone)
  }

  lemma DroppingSound(c: Codec, s: Source, gone: set<Digest>)
    requires Faithful(c) && Sound(c, s)
    requires forall d :: d in gone && d in s.staged ==> d in s.loose || d in s.packed
    ensures Sound(c, Without(s, gone)) && Advances(c, s, Without(s, gone))
  {
    hide Saved, Tops;
    AdvancesSound(c, s, Without(s, gone));
  }

  /** Packed publication when permitted and it fits, loose publication otherwise. */
  method PublishRoots(c: Codec, files: NodeStore, staged: StagedNodes, roots: seq<Digest>, permitsPacked: bool, full: Policy, budget: Budget)
    returns (r: Result<nat, Failure>)
    requires Faithful(c) && Sound(c, View(files, staged))
    modifies files, staged, budget
    ensures files.faults >= old(files.faults) && budget.refusals >= old(budget.refusals)
    ensures r.Err? ==> r.error != Refused && (if r.error == OverBudget then budget.refusals > old(budget.refusals) else files.faults > old(files.faults))
    ensures Sound(c, View(files, staged)) && Advances(c, old(View(files, staged)), View(files, staged))
    ensures r.Ok? ==> AllSaved(c, old(View(files, staged)), View(files, staged), roots)
  {
    hide Sound, Advances, Tops, Saved, Orderly, Honest, AllSaved;
    if !permitsPacked {
      r := PublishRootsLoose(c, files, staged, roots, budget);
      return;
    }
    ghost var s := View(files, staged);
    SoundIntact(c, s);
    SameAdvances(c, s);
    var sink := new ConstructionSink(full);
    EmptySinkOrderly(c, s);
    NoneSaved(c, s, Flushed(s, sink.View()));
    for i := 0 to |roots|
      invariant Orderly(c, s, sink.View()) && AllSaved(c, s, Flushed(s, sink.View()), roots[..i])
      invariant fresh(sink) && View(files, staged) == s && files.faults == old(files.faults) && budget.refusals == old(budget.refusals)
    {
      ghost var before := sink.View();
      var collected := CollectRoot(c, files, staged, roots[i], sink);
      OrderlyHonest(c, s, before);
      OrderlyHonest(c, s, sink.View());
      if collected {
        SavedInLargerSink(c, s, before, sink.View(), roots[..i]);
        OneMoreSaved(c, s, s, Flushed(s, sink.View()), roots, i);
      } else {
        r := PublishRootsLoose(c, files, staged, roots, budget);
        return;
      }
    }
    assert roots[..|roots|] == roots;
    OrderlyHonest(c, s, sink.View());
    r := PublishSink(c, files, staged, sink, true);
    if r.Ok? {
      ghost var z := View(files, staged);
      SavedAfterFlush(c, s, sink.View(), z, roots);
      DropsFlushed(c, z, sink.View());
      staged.nodes := staged.nodes - sink.entries.Keys;
      assert View(files, staged) == Without(z, sink.entries.Keys);
      AllStillSaved(c, s, z, View(files, staged), roots);
      AdvancesTransitive(c, s, z, View(files, staged));
    }
  }

  lemma DropsFlushed(c: Codec, z: Source, sink: Sink)
    requires Faithful(c) && Sound(c, z) && Flushes(sink, z)
    ensures Sound(c, Without(z, sink.entries.Keys)) && Advances(c, z, Without(z, sink.entries.Keys))
  {
    hide Sound;
    DroppingSound(c, z, sink.entries.Keys);
  }

  lemma EmptySinkOrderly(c: Codec, s: Source)
    ensures Orderly(c, s, EMPTY_SINK)
  {
  }
}
