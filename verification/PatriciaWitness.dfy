/**
 A serialiser and a 32-byte hash that meet the hypotheses of the stored trie, with two
 records in play and so a leaf for each and a branch over both. The keys part right
 after their first byte, so a lookup of that byte alone is refused.
 */
module PatriciaWitness {
  import opened Wrappers
  import opened BitStrings
  import opened KeyBits
  import opened PrefixBytes
  import opened ContentAddress
  import opened PatriciaTree
  import opened PatriciaPoint
  import opened PatriciaNodes
  import opened PatriciaLookup
  import opened PatriciaPublication

  function Low(): Record {
    Record(ToBits([1, 0]), [1])
  }

  function High(): Record {
    Record(ToBits([1, 128]), [2])
  }

  function LeafOf(r: Record): Tree {
    Leaf(r.key, r.value)
  }

  function Both(): Tree {
    Branch(ToBits([1]), LeafOf(Low()), LeafOf(High()))
  }

  function Label(n: Byte): Digest {
    seq(32, _ => n)
  }

  function LeafNodeOf(r: Record): Node {
    LeafNode(NODE_SCHEMA_VERSION, Pack(r.key), r.value)
  }

  function BothNode(): Node {
    BranchNode(NODE_SCHEMA_VERSION, [1], 8, Label(1), Label(2))
  }

  function Encode(n: Node): Bytes {
    if n == LeafNodeOf(Low()) then [1] else if n == LeafNodeOf(High()) then [2] else if n == BothNode() then [3] else [4]
  }

  function Decode(bytes: Bytes): Option<Node> {
    if bytes == [1] then Some(LeafNodeOf(Low()))
    else if bytes == [2] then Some(LeafNodeOf(High()))
    else if bytes == [3] then Some(BothNode())
    else None
  }

  function Hash(bytes: Bytes): Digest {
    Label(if |bytes| == 1 && 0 < bytes[0] < 4 then bytes[0] else 0)
  }

  function Small(): Codec {
    Codec(Encode, Decode, Hash, [], (r: Record) => r == Low() || r == High())
  }

  lemma KeysPart()
    ensures |Low().key| == |High().key| == 16
    ensures ToBits([1]) + [false] <= Low().key && ToBits([1]) + [true] <= High().key
    ensures Low().key != High().key
  {
    hide BitsOf;
    ToBitsAppend([1], [0]);
    ToBitsAppend([1], [128]);
    assert [1] + [0] == [1, 0] && [1] + [128] == [1, 128];
    FirstBits();
    assert ToBits([0])[..1] == [false] && ToBits([128])[..1] == [true];
    assert Low().key[8] == false && High().key[8] == true;
  }

  lemma FirstBits()
    ensures ToBits([0])[0] == false && ToBits([128])[0] == true
  {
    HeadOfToBits([0]);
    HeadOfToBits([128]);
    assert BitsOf(0, 8)[0] == false;
    assert BitsOf(128, 8)[0] == true;
  }

  lemma BothFit()
    ensures Fit(Small(), LeafOf(Low())) && Fit(Small(), LeafOf(High())) && Fit(Small(), Both())
  {
    hide ToBits;
    KeysPart();
  }

  lemma LabelsDiffer()
    ensures Label(1) != Label(2) && Label(2) != Label(3) && Label(1) != Label(3)
    ensures Label(0) != Label(1) && Label(0) != Label(2) && Label(0) != Label(3)
  {
    assert Label(0)[0] == 0 && Label(1)[0] == 1 && Label(2)[0] == 2 && Label(3)[0] == 3;
  }

  /** What the three trees look like when stored. */
  lemma Stored()
    ensures var c := Small();
      && NodeOf(c, LeafOf(Low())) == LeafNodeOf(Low()) && TreeDigest(c, LeafOf(Low())) == Label(1)
      && NodeOf(c, LeafOf(High())) == LeafNodeOf(High()) && TreeDigest(c, LeafOf(High())) == Label(2)
      && NodeOf(c, Both()) == BothNode() && TreeDigest(c, Both()) == Label(3)
  {
    var c := Small();
    assert LeafNodeOf(Low()) != LeafNodeOf(High());
    PackOfKey([1]);
    assert NodeOf(c, LeafOf(Low())) == LeafNodeOf(Low());
    assert NodeOf(c, LeafOf(High())) == LeafNodeOf(High());
  }

  lemma ThreeMaps()
    ensures Low().key != High().key
    ensures Contents(LeafOf(Low())) == map[Low().key := Low().value]
    ensures Contents(LeafOf(High())) == map[High().key := High().value]
    ensures Contents(Both()) == map[Low().key := Low().value, High().key := High().value]
  {
    KeysPart();
  }

  /** A map of records in play is empty or one of three. */
  lemma MapInPlay(m: map<Bits, Bytes>, a: Record, b: Record)
    requires a.key != b.key && m != map[] && forall k :: k in m ==> Record(k, m[k]) == a || Record(k, m[k]) == b
    ensures m == map[a.key := a.value] || m == map[b.key := b.value] || m == map[a.key := a.value, b.key := b.value]
  {
    assert forall k :: k in m ==> k == a.key || k == b.key;
    assert a.key in m || b.key in m;
    if a.key !in m {
      assert m == map[b.key := b.value];
    } else if b.key !in m {
      assert m == map[a.key := a.value];
    } else {
      assert m == map[a.key := a.value, b.key := b.value];
    }
  }

  /** No other trees are in play. */
  lemma OnlyThree(t: Tree)
    requires Fit(Small(), t)
    ensures t == LeafOf(Low()) || t == LeafOf(High()) || t == Both()
  {
    hide Contents, WF, LeafOf, Both, Low, High, InPlay;
    var c, m := Small(), Contents(t);
    BothFit();
    ThreeMaps();
    NotEmpty(t);
    InPlayByContents(c, t);
    forall k | k in m ensures Record(k, m[k]) == Low() || Record(k, m[k]) == High() {
      assert c.plays(Record(k, m[k]));
    }
    MapInPlay(m, Low(), High());
    if m == Contents(Both()) {
      Canonical(t, Both());
    } else if m == Contents(LeafOf(Low())) {
      Canonical(t, LeafOf(Low()));
    } else {
      Canonical(t, LeafOf(High()));
    }
  }

  /** The hypotheses can be met: by this codec, with whole trees in play and 32-byte digests, over an empty store. */
  lemma HypothesesHold()
    ensures Faithful(Small()) && Fit(Small(), Both())
    ensures forall b :: |Small().of(b)| == 32
    ensures Sound(Small(), Source(map[], map[], map[]))
  {
    var c := Small();
    BothFit();
    Stored();
    LabelsDiffer();
    forall t | Fit(c, t) ensures Serialised(c, t) {
      OnlyThree(t);
    }
    forall t, u | Fit(c, t) && Fit(c, u) && TreeDigest(c, t) == TreeDigest(c, u) ensures c.encode(NodeOf(c, t)) == c.encode(NodeOf(c, u)) {
      OnlyThree(t);
      OnlyThree(u);
    }
  }

  // ----- the refused lookup -----

  /** All three nodes as files. */
  function Files(): Source {
    Source(map[Label(1) := [1], Label(2) := [2], Label(3) := [3]], map[], map[])
  }

  lemma FilesIntact()
    ensures Intact(Small(), Files()) && Readable(Small(), Files(), Both())
  {
    var c, s := Small(), Files();
    BothFit();
    Stored();
    LabelsDiffer();
    HypothesesHold();
    forall d | d in s.loose ensures Own(c, d, s.loose[d]) {
      forall t | Fit(c, t) && TreeDigest(c, t) == d ensures s.loose[d] == c.encode(NodeOf(c, t)) {
        OnlyThree(t);
      }
    }
    StoredNodeReads(c, s, LeafOf(Low()));
    StoredNodeReads(c, s, LeafOf(High()));
    StoredNodeReads(c, s, Both());
  }

  /** The key of one byte is absent, and its lookup is refused as malformed. */
  lemma LookupRefused()
    ensures IndexReadable(Small(), Files(), Root(Both())) && ToBits([1]) !in Contents(Both())
    ensures LookupRoot(Small(), Files(), RootDigest(Small(), Root(Both())), [1]) == Err(PatriciaError.Malformed)
  {
    hide ToBits, Contents, WF, Faithful, LookupRoot, Readable;
    BothFit();
    KeysPart();
    HypothesesHold();
    FilesIntact();
    OneByteAbsent();
    LookupAnswersMap(Small(), Files(), Root(Both()), [1]);
  }

  lemma OneByteAbsent()
    ensures ToBits([1]) !in Contents(Both()) && ForksAt(Contents(Both()), ToBits([1]))
  {
    hide ToBits, Contents;
    KeysPart();
    ThreeMaps();
    var m := Contents(Both());
    assert Low().key in m && High().key in m;
    assert |ToBits([1])| < 16;
  }
}
