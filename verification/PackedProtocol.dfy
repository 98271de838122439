/** Packs, catalogs and the head in one directory, beside guarded readers, a reclaimer, and crashes. */
module PackedProtocol {
  import opened Wrappers
  import opened KeyBits

  datatype Name = Head | CatalogFile(digest: Bytes) | PackFile(digest: Bytes) | NodeFile(digest: Bytes) | TempFile(id: nat)

  type Files = map<Name, Bytes>

  /** What a head says: the catalog's digest and length. */
  datatype Authority = Authority(digest: Bytes, length: nat)

  /** The hash, what a head says, which packs a catalog names, and the contents in play: all that is ever published. */
  datatype Codec = Codec(of: Bytes -> Bytes, authorityOf: Bytes -> Option<Authority>, packsOf: Bytes -> Option<set<Bytes>>, plays: Bytes -> bool)

  ghost predicate CollisionFree(c: Codec) {
    forall a, b :: c.plays(a) && c.plays(b) && c.of(a) == c.of(b) ==> a == b
  }

  /** What discovery opens: a head, its catalog, and every pack that one names. */
  datatype Snapshot = Snapshot(head: Bytes, catalog: Bytes, packs: map<Bytes, Bytes>)

  /** A publisher under its shared guard: the head and catalog it once discovered, and the names it has proof of. */
  datatype Publisher = Publisher(expected: Option<Bytes>, catalog: Bytes, proved: set<Name>)

  /**
   Names change at once but reach the disk only with a directory barrier. A state is
   the directory as seen, the earlier contents of names changed since the last barrier,
   and who holds the operation lock: readers, with what each opened, one publisher, or
   a reclaimer, with the names it found live.
   */
  datatype State = State(files: Files, pending: map<Name, set<Option<Bytes>>>,
                         readers: map<nat, Option<Snapshot>>, publisher: Option<Publisher>, reclaimer: Option<set<Name>>)

  datatype Step =
    | StartPublish(expected: Option<Bytes>, catalog: Bytes)
    | PublishPack(bytes: Bytes, installed: bool, synced: bool)
    | PublishCatalog(bytes: Bytes, installed: bool, synced: bool)
    | PublishNode(bytes: Bytes, installed: bool, synced: bool)
    | LeaveTemp(id: nat, bytes: Bytes)
    | MoveHead(replacement: Bytes, installed: bool, synced: bool)
    | EndPublish
    | StartRead(id: nat)
    | EndRead(id: nat)
    | StartReclaim
    | Remove(name: Name)
    | SyncRemovals(synced: bool)
    | EndReclaim
    | Crash(survivors: Files)

  const EMPTY := State(map[], map[], map[], None, None)

  function At(files: Files, n: Name): Option<Bytes> {
    if n in files then Some(files[n]) else None
  }

  /** What a crash may leave under a name. */
  function Possible(s: State, n: Name): set<Option<Bytes>> {
    {At(s.files, n)} + if n in s.pending then s.pending[n] else {}
  }

  /** A name changed, not yet durably. */
  function Put(s: State, n: Name, v: Option<Bytes>): State {
    s.(files := if v.Some? then s.files[n := v.value] else s.files - {n}, pending := s.pending[n := Possible(s, n)])
  }

  /** The directory barrier, if it succeeds. */
  function Sync(s: State, synced: bool): State {
    if synced then s.(pending := map[]) else s
  }

  /** Publishing exact bytes without replacing: an equal file is only synced, a different one refused. */
  function PublishExact(s: State, n: Name, bytes: Bytes, installed: bool, synced: bool): Option<State> {
    if n in s.files then (if s.files[n] == bytes then Some(Sync(s, synced)) else None)
    else if installed then Some(Sync(Put(s, n, Some(bytes)), synced))
    else Some(s)
  }

  /** The publisher gains proof of a name only when its publication, barrier included, succeeded. */
  function Prove(s: State, n: Name, synced: bool): State {
    if s.publisher.Some? && n in s.files && synced then
      s.(publisher := Some(s.publisher.value.(proved := s.publisher.value.proved + {n})))
    else s
  }

  function PublishProved(s: State, n: Name, bytes: Bytes, installed: bool, synced: bool): Option<State> {
    if s.publisher.None? then None
    else
      var t := PublishExact(s, n, bytes, installed, synced);
      if t.None? then None else Some(Prove(t.value, n, synced))
  }

  function PackNames(packs: set<Bytes>): set<Name> {
    set d | d in packs :: PackFile(d)
  }

  /** The packs that the catalog under a head names, when both can be read. */
  function Packs(c: Codec, files: Files, head: Bytes): Option<set<Bytes>> {
    if c.authorityOf(head).None? then None
    else
      var a := c.authorityOf(head).value;
      if At(files, CatalogFile(a.digest)).None? || |files[CatalogFile(a.digest)]| != a.length then None
      else c.packsOf(files[CatalogFile(a.digest)])
  }

  /** The names a head needs, as far as its catalog can be read. */
  function Needed(c: Codec, files: Files, head: Bytes): set<Name> {
    (if c.authorityOf(head).Some? then {CatalogFile(c.authorityOf(head).value.digest)} else {})
    + if Packs(c, files, head).Some? then PackNames(Packs(c, files, head).value) else {}
  }

  /** The catalog reads, and all packs that it names are there. */
  predicate Complete(c: Codec, files: Files, head: Bytes) {
    Packs(c, files, head).Some? && PackNames(Packs(c, files, head).value) <= files.Keys
  }

  /** Opening what a head names. */
  function Look(c: Codec, files: Files, head: Bytes): Option<Snapshot> {
    if !Complete(c, files, head) then None
    else Some(Snapshot(head, files[CatalogFile(c.authorityOf(head).value.digest)],
                       map d | d in Packs(c, files, head).value && PackFile(d) in files :: files[PackFile(d)]))
  }

  datatype Discovery = Absent | Unreadable | Found(snapshot: Snapshot)

  /** Discovery under a guard. */
  function Discover(c: Codec, files: Files): Discovery {
    if Head !in files then Absent
    else if Look(c, files, files[Head]).None? then Unreadable
    else Found(Look(c, files, files[Head]).value)
  }

  function LiveNames(c: Codec, files: Files): set<Name> {
    if Head in files then {Head} + Needed(c, files, files[Head]) else {}
  }

  /** What a publisher remembers of the head it discovered is what that head names. */
  predicate Remembered(c: Codec, expected: Option<Bytes>, catalog: Bytes) {
    expected.Some? ==>
      && c.authorityOf(expected.value) == Some(Authority(c.of(catalog), |catalog|))
      && c.packsOf(catalog).Some? && c.plays(catalog)
  }

  /** The replacement's catalog is proved; each of its packs is proved or remembered. */
  predicate Backed(c: Codec, s: State, p: Publisher, head: Bytes) {
    && c.authorityOf(head).Some?
    && CatalogFile(c.authorityOf(head).value.digest) in p.proved
    && Packs(c, s.files, head).Some?
    && forall d :: d in Packs(c, s.files, head).value ==>
        PackFile(d) in p.proved || (p.expected.Some? && c.packsOf(p.catalog).Some? && d in c.packsOf(p.catalog).value)
  }

  predicate Removable(n: Name) {
    n.CatalogFile? || n.PackFile? || n.TempFile?
  }

  ghost predicate Restores(s: State, survivors: Files) {
    forall n :: At(survivors, n) in Possible(s, n)
  }

  /** One step, when its guard lets it happen. */
  ghost function Next(c: Codec, s: State, step: Step): Option<State> {
    match step
    case StartPublish(expected, catalog) =>
      if s.reclaimer.None? && s.publisher.None? && Remembered(c, expected, catalog) then
        Some(s.(publisher := Some(Publisher(expected, catalog, {}))))
      else None
    case PublishPack(bytes, installed, synced) =>
      if c.plays(bytes) then PublishProved(s, PackFile(c.of(bytes)), bytes, installed, synced) else None
    case PublishCatalog(bytes, installed, synced) =>
      if c.plays(bytes) then PublishProved(s, CatalogFile(c.of(bytes)), bytes, installed, synced) else None
    case PublishNode(bytes, installed, synced) =>
      if s.reclaimer.Some? || !c.plays(bytes) then None else PublishExact(s, NodeFile(c.of(bytes)), bytes, installed, synced)
    case LeaveTemp(id, bytes) =>
      if s.reclaimer.Some? || TempFile(id) in s.files then None else Some(Put(s, TempFile(id), Some(bytes)))
    case MoveHead(replacement, installed, synced) =>
      if s.publisher.None? || !Backed(c, s, s.publisher.value, replacement) then None
      else if At(s.files, Head) == Some(replacement) then Some(Sync(s, synced))
      else if At(s.files, Head) != s.publisher.value.expected then None
      else if installed then Some(Sync(Put(s, Head, Some(replacement)), synced))
      else Some(s)
    case EndPublish => Some(s.(publisher := None))
    case StartRead(id) =>
      if s.reclaimer.None? && id !in s.readers && Discover(c, s.files) != Unreadable then
        Some(s.(readers := s.readers[id := if Discover(c, s.files).Found? then Some(Discover(c, s.files).snapshot) else None]))
      else None
    case EndRead(id) => Some(s.(readers := s.readers - {id}))
    case StartReclaim =>
      if s.reclaimer.None? && s.publisher.None? && s.readers == map[] && Discover(c, s.files).Found? then
        Some(s.(reclaimer := Some(LiveNames(c, s.files))))
      else None
    case Remove(n) =>
      if s.reclaimer.Some? && Removable(n) && n !in s.reclaimer.value && n in s.files then Some(Put(s, n, None)) else None
    case SyncRemovals(synced) => if s.reclaimer.Some? then Some(Sync(s, synced)) else None
    case EndReclaim => Some(s.(reclaimer := None))
    case Crash(survivors) => if Restores(s, survivors) then Some(EMPTY.(files := survivors)) else None
  }

  // ----- what holds after every step -----

  /** Bytes that may stand under a content name have its digest, and were published. */
  predicate Own(c: Codec, n: Name, v: Option<Bytes>) {
    v.Some? && (n.CatalogFile? || n.PackFile? || n.NodeFile?) ==> c.of(v.value) == n.digest && c.plays(v.value)
  }

  ghost predicate Owned(c: Codec, s: State) {
    forall n, v :: v in Possible(s, n) ==> Own(c, n, v)
  }

  /** The head's files are there, and no crash can take them away. */
  predicate Firm(c: Codec, s: State, head: Bytes) {
    Complete(c, s.files, head) && Needed(c, s.files, head) !! s.pending.Keys
  }

  /** Whatever head a crash may leave, its files are there for good. */
  ghost predicate Heads(c: Codec, s: State) {
    forall h :: Some(h) in Possible(s, Head) ==> Firm(c, s, h)
  }

  predicate PublisherHolds(c: Codec, s: State, p: Publisher) {
    && Remembered(c, p.expected, p.catalog)
    && p.proved <= s.files.Keys - {Head}
    && p.proved !! s.pending.Keys
  }

  /** A reader still finds everything it opened. */
  predicate ReadersHold(c: Codec, s: State) {
    forall id :: id in s.readers && s.readers[id].Some? ==>
      Look(c, s.files, s.readers[id].value.head) == Some(s.readers[id].value)
  }

  /** Every head that a crash may leave needs only names that the present head needs. */
  ghost predicate Settled(c: Codec, s: State) {
    forall h :: Some(h) in Possible(s, Head) ==> Needed(c, s.files, h) <= LiveNames(c, s.files)
  }

  ghost predicate Inv(c: Codec, s: State) {
    && Owned(c, s)
    && Heads(c, s)
    && (s.publisher.Some? ==> s.reclaimer.None? && PublisherHolds(c, s, s.publisher.value))
    && ReadersHold(c, s)
    && (s.reclaimer.Some? ==> s.readers == map[] && Head in s.files && s.reclaimer.value == LiveNames(c, s.files) && Settled(c, s))
  }

  /** Reclamation begins only when no crash can bring back a head that needs more. */
  ghost predicate Careful(c: Codec, s: State, step: Step) {
    step.StartReclaim? ==> Settled(c, s)
  }

  // ----- one name changes -----

  /** Only one name changed, and pending contents of the others only shrank. */
  ghost predicate Only(s: State, t: State, n: Name) {
    && (forall m :: m != n ==> At(t.files, m) == At(s.files, m))
    && t.pending.Keys <= s.pending.Keys + {n}
    && (forall m :: m != n ==> Possible(t, m) <= Possible(s, m))
  }

  lemma PutOnly(s: State, n: Name, v: Option<Bytes>, synced: bool)
    ensures Only(s, Sync(Put(s, n, v), synced), n)
    ensures Possible(Sync(Put(s, n, v), synced), n) <= Possible(s, n) + {v}
  {
    var t := Sync(Put(s, n, v), synced);
    assert At(t.files, n) == v;
  }

  /** What a head needs is read from those names alone. */
  lemma NeededAgrees(c: Codec, files: Files, files': Files, head: Bytes)
    requires Complete(c, files, head)
    requires forall n :: n in Needed(c, files, head) ==> At(files', n) == At(files, n)
    ensures Complete(c, files', head) && Needed(c, files', head) == Needed(c, files, head)
    ensures Look(c, files', head) == Look(c, files, head)
  {
    var cat := CatalogFile(c.authorityOf(head).value.digest);
    assert cat in Needed(c, files, head);
    assert At(files', cat) == At(files, cat);
    assert Packs(c, files', head) == Packs(c, files, head);
    forall d | d in Packs(c, files, head).value ensures At(files', PackFile(d)) == At(files, PackFile(d)) && PackFile(d) in files' {
      assert PackFile(d) in PackNames(Packs(c, files, head).value);
      assert PackFile(d) in Needed(c, files, head) && PackFile(d) in files;
    }
    assert Look(c, files', head).value.packs == Look(c, files, head).value.packs;
  }

  lemma NeededThere(c: Codec, files: Files, head: Bytes)
    requires Complete(c, files, head)
    ensures Needed(c, files, head) <= files.Keys && Head !in Needed(c, files, head)
  {
  }

  /** A change to a name that no possible head needs. */
  lemma HeadsStay(c: Codec, s: State, t: State, n: Name)
    requires Heads(c, s) && Only(s, t, n) && n != Head
    requires forall h :: Some(h) in Possible(s, Head) ==> n !in Needed(c, s.files, h)
    ensures Heads(c, t)
    ensures forall h :: Some(h) in Possible(t, Head) ==> Needed(c, t.files, h) == Needed(c, s.files, h) && Look(c, t.files, h) == Look(c, s.files, h)
    ensures At(t.files, Head) == At(s.files, Head)
  {
    forall h | Some(h) in Possible(t, Head)
      ensures Firm(c, t, h) && Needed(c, t.files, h) == Needed(c, s.files, h) && Look(c, t.files, h) == Look(c, s.files, h)
    {
      assert Some(h) in Possible(s, Head);
      assert Firm(c, s, h);
      NeededAgrees(c, s.files, t.files, h);
    }
  }

  lemma OwnedStays(c: Codec, s: State, t: State, n: Name, v: Option<Bytes>)
    requires Owned(c, s) && Only(s, t, n) && Possible(t, n) <= Possible(s, n) + {v} && Own(c, n, v)
    ensures Owned(c, t)
  {
    forall m, w | w in Possible(t, m) ensures Own(c, m, w) {
      if m != n { assert w in Possible(s, m); }
    }
  }

  /** Files that were there are untouched: readers keep what they opened. */
  lemma ReadersStay(c: Codec, s: State, t: State)
    requires ReadersHold(c, s) && t.readers == s.readers
    requires forall m :: m in s.files && m != Head ==> At(t.files, m) == At(s.files, m)
    ensures ReadersHold(c, t)
  {
    forall id | id in t.readers && t.readers[id].Some?
      ensures Look(c, t.files, t.readers[id].value.head) == Some(t.readers[id].value)
    {
      var h := s.readers[id].value.head;
      assert Look(c, s.files, h) == Some(s.readers[id].value);
      NeededThere(c, s.files, h);
      NeededAgrees(c, s.files, t.files, h);
    }
  }

  // ----- every step -----

  /** A publication of an immutable file leaves all heads and readers with what they had. */
  lemma PublishKeeps(c: Codec, s: State, n: Name, bytes: Bytes, installed: bool, synced: bool)
    requires Owned(c, s) && Heads(c, s) && ReadersHold(c, s) && n != Head && Own(c, n, Some(bytes))
    ensures var t := PublishExact(s, n, bytes, installed, synced);
      t.Some? ==> Owned(c, t.value) && Heads(c, t.value) && ReadersHold(c, t.value) && Discover(c, t.value.files) == Discover(c, s.files)
  {
    var o := PublishExact(s, n, bytes, installed, synced);
    if o.Some? && o.value != s {
      var t := o.value;
      if n in s.files { SyncOnly(s, n); } else { PutOnly(s, n, Some(bytes), synced); }
      OwnedStays(c, s, t, n, Some(bytes));
      if n !in s.files {
        NotNeeded(c, s, n);
        HeadsStay(c, s, t, n);
      } else {
        SyncKeeps(c, s);
      }
      ReadersStay(c, s, t);
      DiscoverStays(c, s, t);
    }
  }

  lemma SyncOnly(s: State, n: Name)
    ensures Only(s, Sync(s, true), n) && Possible(Sync(s, true), n) <= Possible(s, n)
  {
  }

  /** A barrier leaves one head, with its files. */
  lemma SyncKeeps(c: Codec, s: State)
    requires Heads(c, s)
    ensures Heads(c, Sync(s, true))
  {
    forall h | Some(h) in Possible(Sync(s, true), Head) ensures Firm(c, Sync(s, true), h) {
      assert Some(h) in Possible(s, Head);
      assert Firm(c, s, h);
    }
  }

  lemma NotNeeded(c: Codec, s: State, n: Name)
    requires Heads(c, s) && n !in s.files
    ensures forall h :: Some(h) in Possible(s, Head) ==> n !in Needed(c, s.files, h)
  {
    forall h | Some(h) in Possible(s, Head) ensures n !in Needed(c, s.files, h) {
      assert Firm(c, s, h);
      NeededThere(c, s.files, h);
    }
  }

  /** Discovery reads the head and what it needs. */
  lemma DiscoverStays(c: Codec, s: State, t: State)
    requires Heads(c, s) && At(t.files, Head) == At(s.files, Head)
    requires forall m :: m in s.files && m in LiveNames(c, s.files) ==> At(t.files, m) == At(s.files, m)
    ensures Discover(c, t.files) == Discover(c, s.files)
  {
    if Head in s.files {
      var h := s.files[Head];
      assert Some(h) in Possible(s, Head);
      assert Firm(c, s, h);
      NeededThere(c, s.files, h);
      NeededAgrees(c, s.files, t.files, h);
    }
  }

  /** The files of a backed head are there, and settled. */
  lemma BackedIsFirm(c: Codec, s: State, head: Bytes)
    requires CollisionFree(c) && Inv(c, s) && s.publisher.Some? && Backed(c, s, s.publisher.value, head)
    requires At(s.files, Head) == s.publisher.value.expected
    ensures Firm(c, s, head)
  {
    var p := s.publisher.value;
    var cat := CatalogFile(c.authorityOf(head).value.digest);
    forall d | d in Packs(c, s.files, head).value ensures PackFile(d) in s.files && PackFile(d) !in s.pending {
      if PackFile(d) !in p.proved {
        RememberedPack(c, s, d);
      }
    }
    assert cat in s.files && cat !in s.pending;
  }

  /** A pack that the publisher remembers of the present head. */
  lemma RememberedPack(c: Codec, s: State, d: Bytes)
    requires CollisionFree(c) && Inv(c, s) && s.publisher.Some? && s.publisher.value.expected.Some?
    requires At(s.files, Head) == s.publisher.value.expected
    requires c.packsOf(s.publisher.value.catalog).Some? && d in c.packsOf(s.publisher.value.catalog).value
    ensures PackFile(d) in s.files && PackFile(d) !in s.pending
  {
    var p := s.publisher.value;
    var h := p.expected.value;
    assert Some(h) in Possible(s, Head);
    assert Firm(c, s, h);
    var cat := CatalogFile(c.authorityOf(h).value.digest);
    assert At(s.files, cat) in Possible(s, cat);
    assert Own(c, cat, At(s.files, cat));
    assert s.files[cat] == p.catalog;
    assert PackFile(d) in PackNames(Packs(c, s.files, h).value);
    assert PackFile(d) in Needed(c, s.files, h);
  }

  /** Moving the head: discovery then finds what it found, or the replacement. */
  lemma MoveKeeps(c: Codec, s: State, replacement: Bytes, installed: bool, synced: bool)
    requires CollisionFree(c) && Inv(c, s) && Next(c, s, MoveHead(replacement, installed, synced)).Some?
    ensures var t := Next(c, s, MoveHead(replacement, installed, synced)).value;
      && Inv(c, t)
      && (Discover(c, t.files) == Discover(c, s.files)
          || (Look(c, s.files, replacement).Some? && Discover(c, t.files) == Found(Look(c, s.files, replacement).value)))
  {
    var t := Next(c, s, MoveHead(replacement, installed, synced)).value;
    if At(s.files, Head) == Some(replacement) {
      SyncOnly(s, Head);
      if synced { SyncInv(c, s); }
    } else if installed {
      BackedIsFirm(c, s, replacement);
      InstallKeeps(c, s, replacement, synced);
    }
  }

  lemma SyncInv(c: Codec, s: State)
    requires Inv(c, s)
    ensures Inv(c, Sync(s, true))
  {
    SyncOnly(s, Head);
    var t := Sync(s, true);
    forall m, w | w in Possible(t, m) ensures Own(c, m, w) { assert w in Possible(s, m); }
    SyncKeeps(c, s);
    forall h | Some(h) in Possible(t, Head) ensures s.reclaimer.Some? ==> Needed(c, t.files, h) <= LiveNames(c, t.files) {
      assert Some(h) in Possible(s, Head);
    }
  }

  lemma InstallKeeps(c: Codec, s: State, replacement: Bytes, synced: bool)
    requires Inv(c, s) && s.publisher.Some? && Firm(c, s, replacement)
    ensures var t := Sync(Put(s, Head, Some(replacement)), synced);
      Inv(c, t) && Discover(c, t.files) == Found(Look(c, s.files, replacement).value)
  {
    var t := Sync(Put(s, Head, Some(replacement)), synced);
    PutOnly(s, Head, Some(replacement), synced);
    OwnedStays(c, s, t, Head, Some(replacement));
    forall h | Some(h) in Possible(t, Head) || h == replacement ensures Firm(c, t, h) && Look(c, t.files, h) == Look(c, s.files, h) {
      assert Firm(c, s, h);
      NeededThere(c, s.files, h);
      NeededAgrees(c, s.files, t.files, h);
    }
    ReadersStay(c, s, t);
  }

  /** Removing a name that no possible head needs. */
  lemma RemoveKeeps(c: Codec, s: State, n: Name)
    requires Inv(c, s) && Next(c, s, Remove(n)).Some?
    ensures Inv(c, Next(c, s, Remove(n)).value)
    ensures Discover(c, Next(c, s, Remove(n)).value.files) == Discover(c, s.files)
  {
    var t := Next(c, s, Remove(n)).value;
    PutOnly(s, n, None, false);
    assert t == Sync(Put(s, n, None), false);
    OwnedStays(c, s, t, n, None);
    forall h | Some(h) in Possible(s, Head) ensures n !in Needed(c, s.files, h) {
      assert Needed(c, s.files, h) <= LiveNames(c, s.files);
    }
    HeadsStay(c, s, t, n);
    DiscoverStays(c, s, t);
    LiveStays(c, s, t);
    forall h | Some(h) in Possible(t, Head) ensures Needed(c, t.files, h) <= LiveNames(c, t.files) {
      assert Some(h) in Possible(s, Head);
    }
  }

  lemma LiveStays(c: Codec, s: State, t: State)
    requires Head in s.files && At(t.files, Head) == At(s.files, Head)
    requires Needed(c, t.files, s.files[Head]) == Needed(c, s.files, s.files[Head])
    ensures LiveNames(c, t.files) == LiveNames(c, s.files)
  {
  }

  /** After a crash, discovery finds what some possible head named, byte for byte. */
  lemma CrashKeeps(c: Codec, s: State, survivors: Files)
    requires Inv(c, s) && Restores(s, survivors)
    ensures Inv(c, EMPTY.(files := survivors))
    ensures At(survivors, Head) in Possible(s, Head)
    ensures Head in survivors ==>
      Look(c, s.files, survivors[Head]).Some? && Discover(c, survivors) == Found(Look(c, s.files, survivors[Head]).value)
  {
    var t := EMPTY.(files := survivors);
    assert At(survivors, Head) in Possible(s, Head);
    forall m, w | w in Possible(t, m) ensures Own(c, m, w) {
      assert At(survivors, m) in Possible(s, m);
    }
    if Head in survivors {
      var h := survivors[Head];
      assert Firm(c, s, h);
      NeededThere(c, s.files, h);
      forall m | m in Needed(c, s.files, h) ensures At(survivors, m) == At(s.files, m) {
        assert At(survivors, m) in Possible(s, m);
      }
      NeededAgrees(c, s.files, survivors, h);
    }
  }

  // ----- one step, and every run -----

  /** What discovery may find after a step, given what it found before. */
  ghost predicate Sees(c: Codec, s: State, step: Step, t: State) {
    match step
    case MoveHead(replacement, _, _) =>
      || Discover(c, t.files) == Discover(c, s.files)
      || (Look(c, s.files, replacement).Some? && Discover(c, t.files) == Found(Look(c, s.files, replacement).value))
    case Crash(survivors) =>
      && At(survivors, Head) in Possible(s, Head)
      && (Head in survivors ==> Look(c, s.files, survivors[Head]).Some? && Discover(c, t.files) == Found(Look(c, s.files, survivors[Head]).value))
    case _ => Discover(c, t.files) == Discover(c, s.files)
  }

  lemma ProveKeeps(c: Codec, s: State, n: Name, synced: bool)
    requires Inv(c, s) && n != Head && (synced ==> s.pending == map[])
    ensures Inv(c, Prove(s, n, synced)) && Prove(s, n, synced).files == s.files
  {
    var t := Prove(s, n, synced);
    assert forall m :: Possible(t, m) == Possible(s, m);
    assert forall h :: Firm(c, s, h) ==> Firm(c, t, h);
  }

  lemma PublishInv(c: Codec, s: State, n: Name, bytes: Bytes, installed: bool, synced: bool)
    requires Inv(c, s) && s.reclaimer.None? && n != Head && Own(c, n, Some(bytes))
    requires PublishExact(s, n, bytes, installed, synced).Some?
    ensures var t := PublishExact(s, n, bytes, installed, synced).value;
      Inv(c, t) && Discover(c, t.files) == Discover(c, s.files)
  {
    PublishKeeps(c, s, n, bytes, installed, synced);
  }

  lemma PublishProvedInv(c: Codec, s: State, n: Name, bytes: Bytes, installed: bool, synced: bool)
    requires Inv(c, s) && n != Head && Own(c, n, Some(bytes))
    requires PublishProved(s, n, bytes, installed, synced).Some?
    ensures var t := PublishProved(s, n, bytes, installed, synced).value;
      Inv(c, t) && Discover(c, t.files) == Discover(c, s.files)
  {
    PublishInv(c, s, n, bytes, installed, synced);
    var u := PublishExact(s, n, bytes, installed, synced).value;
    if u.pending == map[] || !synced { ProveKeeps(c, u, n, synced); }
  }

  lemma SameFilesInv(c: Codec, s: State, t: State)
    requires Inv(c, s) && t.files == s.files && t.pending == s.pending
    requires t.publisher.Some? ==> t.reclaimer.None? && PublisherHolds(c, t, t.publisher.value)
    requires ReadersHold(c, t)
    requires t.reclaimer.Some? ==> t.readers == map[] && Head in t.files && t.reclaimer.value == LiveNames(c, t.files) && Settled(c, s)
    ensures Inv(c, t) && Discover(c, t.files) == Discover(c, s.files)
  {
    assert forall m :: Possible(t, m) == Possible(s, m);
    assert forall h :: Firm(c, s, h) ==> Firm(c, t, h);
  }

  /** Every step keeps the invariant; only a moved head or a crash changes what discovery finds. */
  lemma StepKeeps(c: Codec, s: State, step: Step)
    requires CollisionFree(c) && Inv(c, s) && Careful(c, s, step) && Next(c, s, step).Some?
    ensures Inv(c, Next(c, s, step).value)
    ensures Sees(c, s, step, Next(c, s, step).value)
  {
    match step
    case PublishPack(bytes, installed, synced) => PublishProvedInv(c, s, PackFile(c.of(bytes)), bytes, installed, synced);
    case PublishCatalog(bytes, installed, synced) => PublishProvedInv(c, s, CatalogFile(c.of(bytes)), bytes, installed, synced);
    case PublishNode(bytes, installed, synced) => PublishInv(c, s, NodeFile(c.of(bytes)), bytes, installed, synced);
    case LeaveTemp(id, bytes) => PublishInv(c, s, TempFile(id), bytes, true, false);
    case MoveHead(replacement, installed, synced) => MoveKeeps(c, s, replacement, installed, synced);
    case Remove(n) => RemoveKeeps(c, s, n);
    case SyncRemovals(synced) => if synced { SyncInv(c, s); }
    case Crash(survivors) => CrashKeeps(c, s, survivors);
    case _ => SameFilesInv(c, s, Next(c, s, step).value);
  }

  ghost function RunFrom(c: Codec, s: State, steps: seq<Step>): Option<State>
    decreases |steps|
  {
    if steps == [] then Some(s)
    else
      var t := Next(c, s, steps[0]);
      if t.None? then None else RunFrom(c, t.value, steps[1..])
  }

  ghost predicate CarefulRun(c: Codec, s: State, steps: seq<Step>)
    decreases |steps|
  {
    steps != [] && Next(c, s, steps[0]).Some? ==>
      Careful(c, s, steps[0]) && CarefulRun(c, Next(c, s, steps[0]).value, steps[1..])
  }

  lemma {:induction false} RunKeeps(c: Codec, s: State, steps: seq<Step>)
    requires CollisionFree(c) && Inv(c, s) && CarefulRun(c, s, steps) && RunFrom(c, s, steps).Some?
    ensures Inv(c, RunFrom(c, s, steps).value)
    decreases |steps|
  {
    if steps != [] {
      StepKeeps(c, s, steps[0]);
      RunKeeps(c, Next(c, s, steps[0]).value, steps[1..]);
    }
  }

  lemma EmptyHolds(c: Codec)
    ensures Inv(c, EMPTY)
  {
    assert forall n :: Possible(EMPTY, n) == {None};
  }

  /** A discovery holds exact bytes: each file hashes to the digest that names it. */
  predicate Exact(c: Codec, v: Snapshot) {
    && c.authorityOf(v.head) == Some(Authority(c.of(v.catalog), |v.catalog|))
    && c.packsOf(v.catalog) == Some(v.packs.Keys)
    && forall d :: d in v.packs ==> c.of(v.packs[d]) == d
  }

  lemma LookIsExact(c: Codec, s: State, head: Bytes)
    requires Owned(c, s) && Look(c, s.files, head).Some?
    ensures Exact(c, Look(c, s.files, head).value)
  {
    var v := Look(c, s.files, head).value;
    var cat := CatalogFile(c.authorityOf(head).value.digest);
    assert At(s.files, cat) in Possible(s, cat);
    forall d | d in Packs(c, s.files, head).value ensures d in v.packs && c.of(v.packs[d]) == d {
      assert PackFile(d) in PackNames(Packs(c, s.files, head).value);
      assert At(s.files, PackFile(d)) in Possible(s, PackFile(d));
      assert Own(c, PackFile(d), At(s.files, PackFile(d)));
    }
    assert v.packs.Keys == Packs(c, s.files, head).value;
  }

  /**
   In every interleaving from an empty directory, with crashes anywhere: discovery never
   fails, opens exact bytes, each reader still finds what it opened, and one more step
   shows the old or the new catalog and nothing else.
   */
  lemma EveryRun(c: Codec, steps: seq<Step>, step: Step)
    requires CollisionFree(c) && CarefulRun(c, EMPTY, steps) && RunFrom(c, EMPTY, steps).Some?
    ensures var s := RunFrom(c, EMPTY, steps).value;
      && Discover(c, s.files) != Unreadable
      && (Discover(c, s.files).Found? ==> Exact(c, Discover(c, s.files).snapshot))
      && (forall id :: id in s.readers && s.readers[id].Some? ==> Look(c, s.files, s.readers[id].value.head) == s.readers[id])
      && (Careful(c, s, step) && Next(c, s, step).Some? ==> Sees(c, s, step, Next(c, s, step).value))
  {
    EmptyHolds(c);
    RunKeeps(c, EMPTY, steps);
    var s := RunFrom(c, EMPTY, steps).value;
    if Head in s.files {
      assert Some(s.files[Head]) in Possible(s, Head);
      LookIsExact(c, s, s.files[Head]);
    }
    if Careful(c, s, step) && Next(c, s, step).Some? {
      StepKeeps(c, s, step);
    }
  }

  /** What no crash is involved in goes as if every change were durable at once. */
  lemma AsIfDurable(c: Codec, s: State, step: Step)
    requires !step.Crash? && Next(c, s, step).Some?
    ensures Next(c, Sync(s, true), step).Some?
    ensures Sync(Next(c, Sync(s, true), step).value, true) == Sync(Next(c, s, step).value, true)
  {
    hide Discover, Remembered, LiveNames, Packs;
  }

  lemma DurableStepKeeps(c: Codec, s: State, step: Step)
    requires CollisionFree(c) && Inv(c, Sync(s, true)) && !step.Crash? && Next(c, s, step).Some?
    ensures Inv(c, Sync(Next(c, s, step).value, true)) && Sees(c, s, step, Next(c, s, step).value)
  {
    hide Inv, Next, Discover, Look;
    var z := Sync(s, true);
    SyncedIsSettled(c, z);
    AsIfDurable(c, s, step);
    StepKeeps(c, z, step);
    SyncInv(c, Next(c, z, step).value);
  }

  lemma {:induction false} DurableRunKeeps(c: Codec, s: State, steps: seq<Step>)
    requires CollisionFree(c) && Inv(c, Sync(s, true)) && RunFrom(c, s, steps).Some?
    requires forall i :: 0 <= i < |steps| ==> !steps[i].Crash?
    ensures Inv(c, Sync(RunFrom(c, s, steps).value, true))
    decreases |steps|
  {
    hide Inv, Next;
    if steps != [] {
      DurableStepKeeps(c, s, steps[0]);
      DurableRunKeeps(c, Next(c, s, steps[0]).value, steps[1..]);
    }
  }

  /**
   Until power is first lost it does not matter when reclaimers start: in every
   interleaving from an empty directory, discovery never fails, opens exact bytes,
   readers still find what they opened, and one more step shows the old or the new catalog.
   */
  lemma EveryRunWhilePowered(c: Codec, steps: seq<Step>, step: Step)
    requires CollisionFree(c) && RunFrom(c, EMPTY, steps).Some? && !step.Crash?
    requires forall i :: 0 <= i < |steps| ==> !steps[i].Crash?
    ensures var s := RunFrom(c, EMPTY, steps).value;
      && Discover(c, s.files) != Unreadable
      && (Discover(c, s.files).Found? ==> Exact(c, Discover(c, s.files).snapshot))
      && (forall id :: id in s.readers && s.readers[id].Some? ==> Look(c, s.files, s.readers[id].value.head) == s.readers[id])
      && (Next(c, s, step).Some? ==> Sees(c, s, step, Next(c, s, step).value))
  {
    EmptyHolds(c);
    DurableRunKeeps(c, EMPTY, steps);
    var s := RunFrom(c, EMPTY, steps).value;
    var z := Sync(s, true);
    if Head in s.files {
      assert Some(s.files[Head]) in Possible(z, Head);
      assert Firm(c, z, s.files[Head]);
      LookIsExact(c, z, s.files[Head]);
    }
    if Next(c, s, step).Some? {
      DurableStepKeeps(c, s, step);
    }
  }

  // ----- publication succeeds -----

  /** The head's catalog is there under proof with the length it says, and each pack it names is proved or named by the remembered catalog. */
  predicate Supported(c: Codec, files: Files, p: Publisher, head: Bytes) {
    c.authorityOf(head).Some? &&
    var a := c.authorityOf(head).value;
    var n := CatalogFile(a.digest);
    && n in p.proved && n in files && |files[n]| == a.length && c.packsOf(files[n]).Some?
    && forall d :: d in c.packsOf(files[n]).value ==>
        PackFile(d) in p.proved || (p.expected.Some? && c.packsOf(p.catalog).Some? && d in c.packsOf(p.catalog).value)
  }

  /**
   A publisher may move the head exactly when its replacement is supported and the present
   head is the replacement already or the one it expected. With no fault the replacement
   is then the head, durably; otherwise the head is the old one, or may be lost in a crash.
   */
  lemma MoveEnabled(c: Codec, s: State, h: Bytes, installed: bool, synced: bool)
    requires s.publisher.Some?
    ensures var p, r := s.publisher.value, Next(c, s, MoveHead(h, installed, synced));
      && (r.Some? <==> Supported(c, s.files, p, h) && (At(s.files, Head) == Some(h) || At(s.files, Head) == p.expected))
      && (r.Some? && installed ==> r.value.files == s.files[Head := h] && (synced ==> r.value.pending == map[]))
      && (r.Some? && !installed ==> r.value.files == s.files)
      && (r.Some? && !synced ==> At(s.files, Head) in Possible(r.value, Head))
  {
  }

  /** A publication without faults leaves the bytes under their name, proved and durable. */
  lemma PublishEnabled(c: Codec, s: State, n: Name, bytes: Bytes)
    requires CollisionFree(c) && Inv(c, s) && s.publisher.Some? && c.plays(bytes)
    requires (n.CatalogFile? || n.PackFile?) && n.digest == c.of(bytes)
    ensures var p := s.publisher.value;
      PublishProved(s, n, bytes, true, true)
        == Some(s.(files := s.files[n := bytes], pending := map[], publisher := Some(p.(proved := p.proved + {n}))))
    ensures n in s.files ==> s.files[n] == bytes
  {
    if n in s.files {
      assert At(s.files, n) in Possible(s, n);
      assert Own(c, n, At(s.files, n));
      assert s.files[n := bytes] == s.files;
    }
  }

  function PublishPacks(packs: seq<Bytes>): seq<Step> {
    if packs == [] then [] else [PublishPack(packs[0], true, true)] + PublishPacks(packs[1..])
  }

  /** The packs are there and proved; what was there or proved still is, and the publisher expects what it did. */
  ghost predicate Published(c: Codec, s: State, t: State, packs: seq<Bytes>) {
    && s.publisher.Some? && t.publisher.Some? && t.readers == s.readers && t.reclaimer == s.reclaimer
    && t.publisher.value.expected == s.publisher.value.expected && t.publisher.value.catalog == s.publisher.value.catalog
    && s.publisher.value.proved <= t.publisher.value.proved
    && At(t.files, Head) == At(s.files, Head)
    && (forall n :: n in s.files ==> At(t.files, n) == At(s.files, n))
    && (forall b :: b in packs ==> At(t.files, PackFile(c.of(b))) == Some(b) && PackFile(c.of(b)) in t.publisher.value.proved)
  }

  lemma {:induction false} PacksEnabled(c: Codec, s: State, packs: seq<Bytes>)
    requires CollisionFree(c) && Inv(c, s) && s.publisher.Some? && forall b :: b in packs ==> c.plays(b)
    ensures var r := RunFrom(c, s, PublishPacks(packs));
      r.Some? && Inv(c, r.value) && Published(c, s, r.value, packs)
    decreases |packs|
  {
    hide Inv, Own;
    if packs != [] {
      var b, n, steps := packs[0], PackFile(c.of(packs[0])), PublishPacks(packs);
      assert b in packs;
      PublishEnabled(c, s, n, b);
      var u := PublishProved(s, n, b, true, true).value;
      assert Own(c, n, Some(b)) by { OwnBytes(c, n, b); }
      PublishProvedInv(c, s, n, b, true, true);
      assert steps[1..] == PublishPacks(packs[1..]);
      assert Next(c, s, steps[0]) == Some(u);
      RunUnfolds(c, s, steps);
      PacksEnabled(c, u, packs[1..]);
      PublishedJoins(c, s, u, RunFrom(c, u, PublishPacks(packs[1..])).value, packs);
    }
  }

  lemma OwnBytes(c: Codec, n: Name, bytes: Bytes)
    requires c.plays(bytes) && (n.CatalogFile? || n.PackFile?) && n.digest == c.of(bytes)
    ensures Own(c, n, Some(bytes))
  {
  }

  lemma PublishedJoins(c: Codec, s: State, u: State, t: State, packs: seq<Bytes>)
    requires |packs| > 0 && s.publisher.Some? && Published(c, u, t, packs[1..])
    requires var p, n := s.publisher.value, PackFile(c.of(packs[0]));
      && u == s.(files := s.files[n := packs[0]], pending := map[], publisher := Some(p.(proved := p.proved + {n})))
      && (n in s.files ==> s.files[n] == packs[0])
    ensures Published(c, s, t, packs)
  {
    var n := PackFile(c.of(packs[0]));
    assert At(t.files, n) == At(u.files, n) == Some(packs[0]);
    forall m | m in s.files ensures At(t.files, m) == At(s.files, m) {
      assert At(u.files, m) == At(s.files, m);
    }
    forall b | b in packs ensures At(t.files, PackFile(c.of(b))) == Some(b) && PackFile(c.of(b)) in t.publisher.value.proved {
      assert b == packs[0] || b in packs[1..];
    }
  }

  /** A whole publication: the packs, a catalog, and the head that names it. */
  function Publication(expected: Option<Bytes>, remembered: Bytes, packs: seq<Bytes>, catalog: Bytes, head: Bytes): seq<Step> {
    [StartPublish(expected, remembered)] + (PublishPacks(packs) + [PublishCatalog(catalog, true, true), MoveHead(head, true, true)])
  }

  /** The catalog names packs of the batch and of the catalog remembered with the expected head. */
  predicate Covered(c: Codec, expected: Option<Bytes>, remembered: Bytes, packs: seq<Bytes>, catalog: Bytes) {
    c.packsOf(catalog).Some? &&
    forall d :: d in c.packsOf(catalog).value ==>
      || (exists b :: b in packs && c.of(b) == d)
      || (expected.Some? && c.packsOf(remembered).Some? && d in c.packsOf(remembered).value)
  }

  /**
   Between operations, at any reachable directory, a publication that meets no fault goes
   through whatever packs it brings, and discovery then finds its head, its catalog and
   all packs that one names, byte for byte and beyond any crash.
   */
  lemma PublicationSucceeds(c: Codec, s: State, remembered: Bytes, packs: seq<Bytes>, catalog: Bytes, head: Bytes)
    requires CollisionFree(c) && Inv(c, s) && s.publisher.None? && s.reclaimer.None?
    requires Remembered(c, At(s.files, Head), remembered) && Covered(c, At(s.files, Head), remembered, packs, catalog)
    requires c.plays(catalog) && (forall b :: b in packs ==> c.plays(b))
    requires c.authorityOf(head) == Some(Authority(c.of(catalog), |catalog|))
    ensures var r := RunFrom(c, s, Publication(At(s.files, Head), remembered, packs, catalog, head));
      && r.Some? && Inv(c, r.value) && r.value.pending == map[]
      && Discover(c, r.value.files).Found?
      && var v := Discover(c, r.value.files).snapshot;
        && v.head == head && v.catalog == catalog && Exact(c, v)
        && forall b :: b in packs && c.of(b) in v.packs ==> v.packs[c.of(b)] == b
  {
    hide Inv, Own, Next, Discover, Look, Exact, Published, Covered, Supported, Firm, Needed, Packs;
    var expected := At(s.files, Head);
    var steps := Publication(expected, remembered, packs, catalog, head);
    var s1 := s.(publisher := Some(Publisher(expected, remembered, {})));
    Begins(c, s, remembered);
    RunUnfolds(c, s, steps);
    var rest := [PublishCatalog(catalog, true, true), MoveHead(head, true, true)];
    assert steps[1..] == PublishPacks(packs) + rest;
    PacksEnabled(c, s1, packs);
    RunJoins(c, s1, PublishPacks(packs), rest);
    var s2 := RunFrom(c, s1, PublishPacks(packs)).value;
    var s3, s4 := Finishes(c, s1, s2, packs, catalog, head);
    RunUnfolds(c, s2, rest);
    RunUnfolds(c, s3, rest[1..]);
  }

  lemma Begins(c: Codec, s: State, remembered: Bytes)
    requires Inv(c, s) && s.publisher.None? && s.reclaimer.None? && Remembered(c, At(s.files, Head), remembered)
    ensures var t := s.(publisher := Some(Publisher(At(s.files, Head), remembered, {})));
      Next(c, s, StartPublish(At(s.files, Head), remembered)) == Some(t) && Inv(c, t)
  {
    hide Remembered;
    var t := s.(publisher := Some(Publisher(At(s.files, Head), remembered, {})));
    SameFilesInv(c, s, t);
  }

  /** The last two steps, once the packs are there. */
  lemma Finishes(c: Codec, s1: State, s2: State, packs: seq<Bytes>, catalog: Bytes, head: Bytes) returns (s3: State, s4: State)
    requires CollisionFree(c) && Inv(c, s2) && Published(c, s1, s2, packs)
    requires s1.publisher.value.expected == At(s1.files, Head)
    requires Covered(c, At(s1.files, Head), s1.publisher.value.catalog, packs, catalog)
    requires c.plays(catalog) && c.authorityOf(head) == Some(Authority(c.of(catalog), |catalog|))
    ensures Next(c, s2, PublishCatalog(catalog, true, true)) == Some(s3) && Next(c, s3, MoveHead(head, true, true)) == Some(s4)
    ensures Inv(c, s4) && s4.pending == map[] && Discover(c, s4.files).Found?
    ensures var v := Discover(c, s4.files).snapshot;
      && v.head == head && v.catalog == catalog && Exact(c, v)
      && forall b :: b in packs && c.of(b) in v.packs ==> v.packs[c.of(b)] == b
  {
    hide Inv, Own, Discover, Exact, Firm;
    var n := CatalogFile(c.of(catalog));
    PublishEnabled(c, s2, n, catalog);
    OwnBytes(c, n, catalog);
    PublishProvedInv(c, s2, n, catalog, true, true);
    s3 := PublishProved(s2, n, catalog, true, true).value;
    assert Supported(c, s3.files, s3.publisher.value, head) by {
      CoveredIsSupported(c, s1, s2, s3, packs, catalog, head);
    }
    MoveEnabled(c, s3, head, true, true);
    s4 := Next(c, s3, MoveHead(head, true, true)).value;
    MoveKeeps(c, s3, head, true, true);
    HeadFound(c, s4, head);
    forall b | b in packs ensures At(s4.files, PackFile(c.of(b))) == Some(b) {
    }
  }

  lemma CoveredIsSupported(c: Codec, s1: State, s2: State, s3: State, packs: seq<Bytes>, catalog: Bytes, head: Bytes)
    requires Published(c, s1, s2, packs) && Covered(c, s1.publisher.value.expected, s1.publisher.value.catalog, packs, catalog)
    requires c.authorityOf(head) == Some(Authority(c.of(catalog), |catalog|))
    requires var n := CatalogFile(c.of(catalog));
      s3 == s2.(files := s2.files[n := catalog], pending := map[], publisher := Some(s2.publisher.value.(proved := s2.publisher.value.proved + {n})))
    ensures Supported(c, s3.files, s3.publisher.value, head)
  {
  }

  /** Under a present head discovery opens exactly that head and its files. */
  lemma HeadFound(c: Codec, s: State, head: Bytes)
    requires Inv(c, s) && At(s.files, Head) == Some(head)
    ensures Discover(c, s.files).Found? && Exact(c, Discover(c, s.files).snapshot)
    ensures var v := Discover(c, s.files).snapshot;
      && v.head == head && At(s.files, CatalogFile(c.authorityOf(head).value.digest)) == Some(v.catalog)
      && forall d :: d in v.packs ==> At(s.files, PackFile(d)) == Some(v.packs[d])
  {
    assert Some(head) in Possible(s, Head);
    assert Firm(c, s, head);
    LookIsExact(c, s, head);
  }

  // ----- what reclamation may do -----

  /** No crash leaves a head whose files are missing. */
  ghost predicate CrashClosed(c: Codec, s: State) {
    forall survivors :: Restores(s, survivors) ==> Discover(c, survivors) != Unreadable
  }

  lemma InvIsCrashClosed(c: Codec, s: State)
    requires Inv(c, s)
    ensures CrashClosed(c, s)
  {
    forall survivors | Restores(s, survivors) ensures Discover(c, survivors) != Unreadable {
      CrashKeeps(c, s, survivors);
    }
  }

  /** The removal of one name. */
  function Without(s: State, n: Name): State {
    Put(s, n, None)
  }

  /** The crash that loses a head's needed name, and keeps that head. */
  lemma LostName(c: Codec, s: State, n: Name, h: Bytes)
    requires Heads(c, s) && Some(h) in Possible(s, Head) && n in Needed(c, s.files, h)
    ensures !CrashClosed(c, Without(s, n))
  {
    assert Firm(c, s, h);
    NeededThere(c, s.files, h);
    var t := Without(s, n);
    var survivors := t.files[Head := h];
    forall m ensures At(survivors, m) in Possible(t, m) { }
    assert Restores(t, survivors);
    var cat := CatalogFile(c.authorityOf(h).value.digest);
    assert n != cat ==> Packs(c, survivors, h) == Packs(c, s.files, h);
    assert n !in survivors;
    assert !Complete(c, survivors, h);
  }

  /** Removing a file keeps every crash readable exactly when no head that a crash may leave needs it. */
  lemma RemovalIsSafe(c: Codec, s: State, n: Name)
    requires Owned(c, s) && Heads(c, s) && Removable(n)
    ensures CrashClosed(c, Without(s, n)) <==> forall h :: Some(h) in Possible(s, Head) ==> n !in Needed(c, s.files, h)
  {
    if h :| Some(h) in Possible(s, Head) && n in Needed(c, s.files, h) {
      LostName(c, s, n, h);
    } else {
      var t := Without(s, n);
      PutOnly(s, n, None, false);
      assert t == Sync(t, false);
      OwnedStays(c, s, t, n, None);
      HeadsStay(c, s, t, n);
      var u := t.(readers := map[], publisher := None, reclaimer := None);
      assert forall m :: Possible(u, m) == Possible(t, m);
      assert forall h :: Firm(c, t, h) ==> Firm(c, u, h);
      InvIsCrashClosed(c, u);
      forall survivors | Restores(t, survivors) ensures Restores(u, survivors) { }
    }
  }

  /**
   Reclamation may begin: each single removal it then allows keeps every crash readable,
   exactly when the head is settled up to what the present head needs.
   */
  lemma ReclaimIsSafe(c: Codec, s: State)
    requires Inv(c, s) && Next(c, s, StartReclaim).Some?
    ensures Settled(c, s) <==>
      forall n :: Next(c, Next(c, s, StartReclaim).value, Remove(n)).Some? ==> CrashClosed(c, Next(c, Next(c, s, StartReclaim).value, Remove(n)).value)
  {
    var t := Next(c, s, StartReclaim).value;
    assert forall m :: Possible(t, m) == Possible(s, m);
    assert Heads(c, t) by { assert forall h :: Firm(c, s, h) ==> Firm(c, t, h); }
    forall n | Next(c, t, Remove(n)).Some?
      ensures CrashClosed(c, Next(c, t, Remove(n)).value) <==> forall h :: Some(h) in Possible(s, Head) ==> n !in Needed(c, s.files, h)
    {
      RemovalIsSafe(c, t, n);
    }
    if !Settled(c, s) {
      var h :| Some(h) in Possible(s, Head) && !(Needed(c, s.files, h) <= LiveNames(c, s.files));
      var n :| n in Needed(c, s.files, h) && n !in LiveNames(c, s.files);
      assert Firm(c, s, h);
      NeededThere(c, s.files, h);
      assert Next(c, t, Remove(n)).Some?;
    }
  }

  /** A head whose last barrier succeeded is settled. */
  lemma SyncedIsSettled(c: Codec, s: State)
    requires Head !in s.pending
    ensures Settled(c, s)
  {
  }

  // ----- retrying a moved head -----

  ghost predicate KeepsHead(step: Step) {
    !step.MoveHead? && !step.Crash?
  }

  lemma StepLeavesHead(c: Codec, s: State, step: Step)
    requires KeepsHead(step) && Next(c, s, step).Some?
    ensures At(Next(c, s, step).value.files, Head) == At(s.files, Head)
  {
    hide Discover, Remembered, LiveNames;
  }

  lemma {:induction false} HeadUnmoved(c: Codec, s: State, steps: seq<Step>)
    requires RunFrom(c, s, steps).Some? && forall i :: 0 <= i < |steps| ==> KeepsHead(steps[i])
    ensures At(RunFrom(c, s, steps).value.files, Head) == At(s.files, Head)
    decreases |steps|
  {
    if steps != [] {
      hide Next;
      StepLeavesHead(c, s, steps[0]);
      HeadUnmoved(c, Next(c, s, steps[0]).value, steps[1..]);
    }
  }

  /**
   A transition that installed the head but lost its barrier may be retried after any
   other steps, by a publisher with any expectation: it changes no file, and settles
   the replacement against every later crash.
   */
  lemma RetrySucceeds(c: Codec, s: State, replacement: Bytes, steps: seq<Step>, installed: bool)
    requires Next(c, s, MoveHead(replacement, true, false)).Some?
    requires forall i :: 0 <= i < |steps| ==> KeepsHead(steps[i])
    requires RunFrom(c, Next(c, s, MoveHead(replacement, true, false)).value, steps).Some?
    requires var u := RunFrom(c, Next(c, s, MoveHead(replacement, true, false)).value, steps).value;
      u.publisher.Some? && Backed(c, u, u.publisher.value, replacement)
    ensures var u := RunFrom(c, Next(c, s, MoveHead(replacement, true, false)).value, steps).value;
      var r := Next(c, u, MoveHead(replacement, installed, true));
      && r.Some? && r.value.files == u.files
      && (forall survivors :: Restores(r.value, survivors) ==> survivors == u.files)
  {
    var t := Next(c, s, MoveHead(replacement, true, false)).value;
    HeadUnmoved(c, t, steps);
    var u := RunFrom(c, t, steps).value;
    var r := Next(c, u, MoveHead(replacement, installed, true)).value;
    forall survivors | Restores(r, survivors) ensures survivors == u.files {
      forall m ensures At(survivors, m) == At(u.files, m) { assert At(survivors, m) in Possible(r, m); }
      AtDetermines(survivors, u.files);
    }
  }

  lemma AtDetermines(a: Files, b: Files)
    requires forall m :: At(a, m) == At(b, m)
    ensures a == b
  {
    forall m ensures m in a <==> m in b { assert At(a, m) == At(b, m); }
    forall m | m in a ensures a[m] == b[m] { assert At(a, m) == At(b, m); }
  }

  /**
   At any reachable directory a step waits for nothing but the lock: a reader may start
   unless a reclaimer runs, a publication is never refused to the publisher, and a
   reclaimer may start whenever a head is there and nobody else holds the lock.
   */
  lemma NeverRefused(c: Codec, s: State, id: nat, bytes: Bytes, installed: bool, synced: bool)
    requires CollisionFree(c) && Inv(c, s) && c.plays(bytes)
    ensures Next(c, s, StartRead(id)).Some? <==> s.reclaimer.None? && id !in s.readers
    ensures Next(c, s, PublishPack(bytes, installed, synced)).Some? <==> s.publisher.Some?
    ensures Next(c, s, PublishCatalog(bytes, installed, synced)).Some? <==> s.publisher.Some?
    ensures Next(c, s, PublishNode(bytes, installed, synced)).Some? <==> s.reclaimer.None?
    ensures Next(c, s, StartReclaim).Some? <==> s.reclaimer.None? && s.publisher.None? && s.readers == map[] && Head in s.files
  {
    hide Inv, Complete, Exact;
    PresentIsExact(c, s, PackFile(c.of(bytes)), bytes);
    PresentIsExact(c, s, CatalogFile(c.of(bytes)), bytes);
    PresentIsExact(c, s, NodeFile(c.of(bytes)), bytes);
    if Head in s.files {
      HeadFound(c, s, s.files[Head]);
    }
  }

  lemma PresentIsExact(c: Codec, s: State, n: Name, bytes: Bytes)
    requires CollisionFree(c) && Inv(c, s) && c.plays(bytes)
    requires (n.CatalogFile? || n.PackFile? || n.NodeFile?) && n.digest == c.of(bytes)
    ensures n in s.files ==> s.files[n] == bytes
  {
    if n in s.files {
      assert At(s.files, n) in Possible(s, n);
      assert Own(c, n, At(s.files, n));
    }
  }

  function Removals(names: seq<Name>): seq<Step> {
    if names == [] then [] else [Remove(names[0])] + Removals(names[1..])
  }

  /** Removing dead names one after the other, in any order. */
  lemma {:induction false} RemovalsEnabled(c: Codec, s: State, names: seq<Name>)
    requires Inv(c, s) && s.reclaimer.Some?
    requires forall i :: 0 <= i < |names| ==> Removable(names[i]) && names[i] in s.files && names[i] !in s.reclaimer.value
    requires forall i, j :: 0 <= i < j < |names| ==> names[i] != names[j]
    ensures var r := RunFrom(c, s, Removals(names));
      && r.Some? && Inv(c, r.value) && r.value.files == s.files - (set n | n in names)
      && r.value.reclaimer == s.reclaimer && r.value.readers == s.readers && r.value.publisher == s.publisher
      && Discover(c, r.value.files) == Discover(c, s.files)
    decreases |names|
  {
    hide Inv, Discover, Removable, Needed, Packs, LiveNames;
    if names == [] {
      assert s.files - (set n | n in names) == s.files;
    } else {
      var n, steps := names[0], Removals(names);
      RemoveKeeps(c, s, n);
      var t := Next(c, s, Remove(n)).value;
      assert steps[1..] == Removals(names[1..]);
      RunUnfolds(c, s, steps);
      RemovalsEnabled(c, t, names[1..]);
      assert names == [n] + names[1..];
      assert s.files - (set m | m in names) == (s.files - {n}) - (set m | m in names[1..]);
    }
  }

  /** A whole reclamation of some names. */
  function Reclamation(names: seq<Name>): seq<Step> {
    [StartReclaim] + (Removals(names) + [SyncRemovals(true), EndReclaim])
  }

  /**
   With nobody else at work and the head settled, a reclaimer removes all dead files, in
   any order, and no others; discovery finds what it found, and no crash undoes either.
   */
  lemma ReclaimSucceeds(c: Codec, s: State, names: seq<Name>)
    requires Inv(c, s) && Settled(c, s)
    requires s.reclaimer.None? && s.publisher.None? && s.readers == map[] && Head in s.files
    requires forall i, j :: 0 <= i < j < |names| ==> names[i] != names[j]
    requires forall n :: n in names <==> n in s.files && Removable(n) && n !in Needed(c, s.files, s.files[Head])
    ensures var r := RunFrom(c, s, Reclamation(names));
      && r.Some? && Inv(c, r.value) && r.value.pending == map[] && r.value.reclaimer.None?
      && (forall n :: n in r.value.files <==> n in s.files && (Removable(n) ==> n in Needed(c, s.files, s.files[Head])))
      && (forall n :: n in r.value.files ==> r.value.files[n] == s.files[n])
      && Discover(c, r.value.files) == Discover(c, s.files)
  {
    hide Inv, Discover, Needed, Settled;
    var steps, rest := Reclamation(names), [SyncRemovals(true), EndReclaim];
    StartsReclaim(c, s);
    var s1 := Next(c, s, StartReclaim).value;
    RunUnfolds(c, s, steps);
    assert steps[1..] == Removals(names) + rest;
    forall i | 0 <= i < |names| ensures Removable(names[i]) && names[i] in s1.files && names[i] !in s1.reclaimer.value {
      assert names[i] in names;
    }
    RemovalsEnabled(c, s1, names);
    RunJoins(c, s1, Removals(names), rest);
    var s2 := RunFrom(c, s1, Removals(names)).value;
    EndsReclaim(c, s2);
  }

  lemma StartsReclaim(c: Codec, s: State)
    requires Inv(c, s) && Settled(c, s)
    requires s.reclaimer.None? && s.publisher.None? && s.readers == map[] && Head in s.files
    ensures var t := s.(reclaimer := Some({Head} + Needed(c, s.files, s.files[Head])));
      Next(c, s, StartReclaim) == Some(t) && Inv(c, t)
  {
    hide Needed, Exact;
    HeadFound(c, s, s.files[Head]);
    SameFilesInv(c, s, s.(reclaimer := Some({Head} + Needed(c, s.files, s.files[Head]))));
  }

  lemma EndsReclaim(c: Codec, s: State)
    requires Inv(c, s) && s.reclaimer.Some?
    ensures var t := s.(pending := map[], reclaimer := None);
      RunFrom(c, s, [SyncRemovals(true), EndReclaim]) == Some(t) && Inv(c, t)
  {
    var steps, z := [SyncRemovals(true), EndReclaim], s.(pending := map[]);
    SyncInv(c, s);
    SameFilesInv(c, z, z.(reclaimer := None));
    RunUnfolds(c, s, steps);
    RunUnfolds(c, z, steps[1..]);
  }

  // ----- reclaiming under an unsettled head -----

  const FIRST: Bytes := [1]
  const SECOND: Bytes := [2]

  /** A hash without collisions; a head is the digest of its catalog, which names no packs. */
  function Plain(): Codec {
    Codec((b: Bytes) => b, (h: Bytes) => Some(Authority(h, |h|)), (b: Bytes) => Some({}), (b: Bytes) => b == FIRST || b == SECOND)
  }

  /** The same with a catalog that names a pack. */
  function Naming(): Codec {
    Plain().(packsOf := (b: Bytes) => Some(if b == SECOND then {FIRST} else {}))
  }

  /** The first publication into an empty directory: one pack, a catalog naming it, and the head. */
  lemma FirstPublication()
    ensures var steps := [StartPublish(None, []), PublishPack(FIRST, true, true), PublishCatalog(SECOND, true, true), MoveHead(SECOND, true, true)];
      && CollisionFree(Naming())
      && RunFrom(Naming(), EMPTY, steps).Some?
      && Discover(Naming(), RunFrom(Naming(), EMPTY, steps).value.files) == Found(Snapshot(SECOND, SECOND, map[FIRST := FIRST]))
  {
    hide Inv, RunFrom, Discover;
    var c, steps := Naming(), [StartPublish(None, []), PublishPack(FIRST, true, true), PublishCatalog(SECOND, true, true), MoveHead(SECOND, true, true)];
    EmptyHolds(c);
    assert PublishPacks([FIRST]) == [PublishPack(FIRST, true, true)] + PublishPacks([FIRST][1..]) == [PublishPack(FIRST, true, true)];
    assert Publication(None, [], [FIRST], SECOND, SECOND) == steps;
    assert FIRST in [FIRST] && c.of(FIRST) == FIRST;
    PublicationSucceeds(c, EMPTY, [], [FIRST], SECOND, SECOND);
    var v := Discover(c, RunFrom(c, EMPTY, steps).value.files).snapshot;
    assert v.packs.Keys == {FIRST};
    assert v.packs == map[FIRST := FIRST];
  }

  lemma RunUnfolds(c: Codec, s: State, steps: seq<Step>)
    requires steps != [] && Next(c, s, steps[0]).Some?
    ensures RunFrom(c, s, steps) == RunFrom(c, Next(c, s, steps[0]).value, steps[1..])
  {
  }

  /** A run from one state may begin with another run. */
  lemma {:induction false} RunJoins(c: Codec, s: State, a: seq<Step>, b: seq<Step>)
    requires RunFrom(c, s, a).Some?
    ensures RunFrom(c, s, a + b) == RunFrom(c, RunFrom(c, s, a).value, b)
    decreases |a|
  {
    if a == [] {
      assert a + b == b;
    } else {
      assert (a + b)[1..] == a[1..] + b;
      RunJoins(c, Next(c, s, a[0]).value, a[1..], b);
    }
  }

  /** Publishing a catalog and moving the head to it, with the head's barrier lost or not. */
  function Install(expected: Option<Bytes>, catalog: Bytes, synced: bool): seq<Step> {
    [StartPublish(expected, if expected.Some? then expected.value else []), PublishCatalog(catalog, true, true),
     MoveHead(catalog, true, synced), EndPublish]
  }

  lemma InstallRuns(f: Files, expected: Option<Bytes>, catalog: Bytes, synced: bool)
    requires (catalog == FIRST || catalog == SECOND) && (expected.Some? ==> expected == Some(FIRST))
    requires At(f, Head) == expected && CatalogFile(catalog) !in f && expected != Some(catalog)
    ensures RunFrom(Plain(), EMPTY.(files := f), Install(expected, catalog, synced))
         == Some(EMPTY.(files := f[CatalogFile(catalog) := catalog][Head := catalog],
                        pending := if synced then map[] else map[Head := {expected}]))
  {
    var c, n := Plain(), CatalogFile(catalog);
    var s := EMPTY.(files := f);
    var l := Install(expected, catalog, synced);
    var f1 := f[n := catalog];
    var s1 := s.(publisher := Some(Publisher(expected, if expected.Some? then expected.value else [], {})));
    var s2 := s1.(files := f1, publisher := Some(s1.publisher.value.(proved := {n})));
    var s3 := s2.(files := f1[Head := catalog], pending := if synced then map[] else map[Head := {expected}]);
    assert Next(c, s, l[0]) == Some(s1);
    RunUnfolds(c, s, l);
    CatalogPublished(s1, catalog);
    RunUnfolds(c, s1, l[1..]);
    HeadMoved(s2, catalog, synced);
    hide Next;
    RunUnfolds(c, s2, l[1..][1..]);
    EndsPublish(s3);
    RunUnfolds(c, s3, l[1..][1..][1..]);
  }

  lemma CatalogPublished(s: State, catalog: Bytes)
    requires catalog == FIRST || catalog == SECOND
    requires s.publisher.Some? && s.publisher.value.proved == {} && s.pending == map[] && CatalogFile(catalog) !in s.files
    ensures Next(Plain(), s, PublishCatalog(catalog, true, true))
         == Some(s.(files := s.files[CatalogFile(catalog) := catalog],
                    publisher := Some(s.publisher.value.(proved := {CatalogFile(catalog)}))))
  {
    var n := CatalogFile(catalog);
    assert {} + {n} == {n};
    assert PublishExact(s, n, catalog, true, true) == Some(s.(files := s.files[n := catalog]));
  }

  lemma HeadMoved(s: State, catalog: Bytes, synced: bool)
    requires s.publisher.Some? && s.publisher.value.proved == {CatalogFile(catalog)} && s.pending == map[]
    requires s.publisher.value.expected == At(s.files, Head) != Some(catalog) && At(s.files, CatalogFile(catalog)) == Some(catalog)
    ensures Next(Plain(), s, MoveHead(catalog, true, synced))
         == Some(s.(files := s.files[Head := catalog], pending := if synced then map[] else map[Head := {At(s.files, Head)}]))
  {
    hide Discover;
    assert Possible(s, Head) == {At(s.files, Head)};
    assert Put(s, Head, Some(catalog)).pending == map[Head := {At(s.files, Head)}];
  }

  lemma EndsPublish(s: State)
    ensures Next(Plain(), s, EndPublish) == Some(s.(publisher := None))
  {
  }

  /**
   Reclaiming while the moved head may still be lost: the run removes the earlier catalog,
   and a crash that restores the earlier head leaves discovery nothing to open.
   */
  lemma ReclaimUnderUnsettledHead()
    ensures var steps := Install(None, FIRST, true) + Install(Some(FIRST), SECOND, false) + [StartReclaim, Remove(CatalogFile(FIRST))];
      && CollisionFree(Plain())
      && RunFrom(Plain(), EMPTY, steps).Some?
      && !CrashClosed(Plain(), RunFrom(Plain(), EMPTY, steps).value)
  {
    var c := Plain();
    var f1 := map[][CatalogFile(FIRST) := FIRST][Head := FIRST];
    var f2 := f1[CatalogFile(SECOND) := SECOND][Head := SECOND];
    var s1, s2 := EMPTY.(files := f1), EMPTY.(files := f2, pending := map[Head := {Some(FIRST)}]);
    InstallRuns(map[], None, FIRST, true);
    InstallRuns(f1, Some(FIRST), SECOND, false);
    var a, b, r := Install(None, FIRST, true), Install(Some(FIRST), SECOND, false), [StartReclaim, Remove(CatalogFile(FIRST))];
    RunJoins(c, EMPTY, a, b);
    RunJoins(c, EMPTY, a + b, r);
    RemovesEarlier(c, s2);
  }

  lemma RemovesEarlier(c: Codec, s: State)
    requires c == Plain() && s == EMPTY.(files := s.files, pending := map[Head := {Some(FIRST)}])
    requires s.files == map[CatalogFile(FIRST) := FIRST, CatalogFile(SECOND) := SECOND, Head := SECOND]
    ensures var r := RunFrom(c, s, [StartReclaim, Remove(CatalogFile(FIRST))]);
      r.Some? && !CrashClosed(c, r.value)
  {
    hide Discover, LiveNames, CrashClosed;
    var l, n := [StartReclaim, Remove(CatalogFile(FIRST))], CatalogFile(FIRST);
    var t := s.(reclaimer := Some({Head, CatalogFile(SECOND)}));
    ReclaimStarts(c, s);
    RunUnfolds(c, s, l);
    assert Next(c, t, l[1]) == Some(Without(t, n));
    RunUnfolds(c, t, l[1..]);
    assert Possible(t, Head) == {Some(SECOND), Some(FIRST)};
    assert Firm(c, t, FIRST) && Firm(c, t, SECOND);
    LostName(c, t, n, FIRST);
  }

  lemma ReclaimStarts(c: Codec, s: State)
    requires c == Plain() && s == EMPTY.(files := s.files, pending := s.pending)
    requires s.files == map[CatalogFile(FIRST) := FIRST, CatalogFile(SECOND) := SECOND, Head := SECOND]
    ensures Next(c, s, StartReclaim) == Some(s.(reclaimer := Some({Head, CatalogFile(SECOND)})))
  {
    assert Look(c, s.files, SECOND).Some?;
    assert LiveNames(c, s.files) == {Head, CatalogFile(SECOND)};
  }
}
