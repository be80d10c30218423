// Whole histories of a node (crates/duckfs/core/src/fs.rs:336-930, 1146-1158): every verb with the
// engine behind it, blocks adopted or dropped, and sweeps in between. Whatever the refs reach is
// there, readable, and never swept.
module Histories {
  import opened Wrappers
  import opened Texts
  import opened Kinds
  import opened Grammars
  import opened Objects
  import opened RefsImage
  import opened Records
  import opened Verbs
  import opened TreeEdits
  import opened Grounding
  import opened Commits
  import opened Projections
  import opened Catalogs
  import opened CatalogReach
  import opened CommitLaws
  import Collecting
  import Actors
  import Chunks
  import Retention
  import M = Marking
  import R = Reachability
  import D = Durability

  // What does not change over a history. `known` are all the objects it ever sees.
  datatype World = World(hash: Hash, segments: Text -> Option<Path>, joined: Text -> Option<Text>, caps: Caps,
      known: set<Blob>)

  // A node: its object store, and its refs with the block it is building.
  datatype Ledger = Ledger(store: Odb, s: State)

  datatype Call =
    | PutChunk(bytes: Text)
    | CommitChanges(time: nat, base: Option<Text>, message: Text, changes: seq<Change>)
    | ProjectPath(time: nat, snapshot: Text, path: Text)
    | ExchangeReference(key: Text, expected: Option<Reference>, replacement: Option<Reference>)
    | Pin(snapshot: Text, name: Text)
    | DropPin(name: Text)
    | AddWatcher(prefix: Text, moduleId: Text)
    | DropWatcher(prefix: Text, moduleId: Text)

  datatype Event =
    | Execute(who: Actors.Authority, height: nat, call: Call)
    | AdoptBlock
    | AbortBlock
    | SweepStore

  // ---- what the verbs see ------------------------------------------------------------------------------

  function AllAtHand(w: World, l: Ledger): Odb {
    AtHand(w.hash, l.store, if l.s.pending.Some? then l.s.pending.value.objects else [])
  }

  // `retention::contains`.
  function KeptIn(odb: Odb, root: Option<Id>, id: Id): Option<bool> {
    match CountOf(odb, Opening(root), id)
    case None => None
    case Some(n) => Some(n != 0)
  }

  function EnvOf(w: World, l: Ledger): Env {
    var odb := AllAtHand(w, l);
    Env(w.hash, (root: Option<Id>, id: Id) => KeptIn(odb, root, id), w.joined)
  }

  function SceneOf(w: World, l: Ledger, height: nat): Scene {
    Scene(EnvOf(w, l), w.segments, l.store, Verbs.Open(l.s, height), w.known)
  }

  // A reference may only move to a snapshot in reach.
  function ExchangeOf(w: World, l: Ledger, who: Actors.Authority, key: Text, expected: Option<Reference>,
                      replacement: Option<Reference>): Option<(Option<Id>, seq<Blob>)>
  {
    var refs := Effective(l.s);
    if !who.OfModule? then None
    else if replacement.Some? && (FromHex32(replacement.value.snapshot).None?
        || ContainsSnapshot(EnvOf(w, l), refs, FromHex32(replacement.value.snapshot).value) != Some(true)) then None
    else Exchange(w.hash, AllAtHand(w, l), refs.retention, who.name, key, expected, replacement)
  }

  // The verb a call comes to, its engine run against what is at hand.
  function VerbOf(w: World, l: Ledger, who: Actors.Authority, height: nat, call: Call): Verb {
    var sc := SceneOf(w, l, height);
    match call
    case PutChunk(bytes) => PutBlob(bytes)
    case CommitChanges(time, base, message, changes) =>
      var o := Decide(sc, Header(who, height, time, message), base, changes);
      Verb.Commit(if o.Some? then Some(PlanOf(sc, o.value)) else None)
    case ProjectPath(time, snapshot, path) =>
      var p := Projections.Project(sc, Header(who, height, time, []), snapshot, path);
      Verb.Project(if p.Some? then Some(CandidateOf(sc, p.value)) else None)
    case ExchangeReference(key, expected, replacement) => Retain(ExchangeOf(w, l, who, key, expected, replacement))
    case Pin(snapshot, name) => PinSnapshot(snapshot, name)
    case DropPin(name) => Unpin(name)
    case AddWatcher(prefix, moduleId) => WatchPrefix(prefix, moduleId)
    case DropWatcher(prefix, moduleId) => UnwatchPrefix(prefix, moduleId)
  }

  // What the call would do to the block; None where it is refused.
  ghost function EffectOf(w: World, l: Ledger, who: Actors.Authority, height: nat, call: Call): Option<Effect> {
    Apply(EnvOf(w, l), w.caps, Verbs.Open(l.s, height), who, height, VerbOf(w, l, who, height, call))
  }

  // ---- steps -------------------------------------------------------------------------------------------

  ghost function Next(w: World, l: Ledger, e: Event): Ledger {
    match e
    case Execute(who, height, call) =>
      l.(s := Transact(EnvOf(w, l), w.caps, l.s, who, height, VerbOf(w, l, who, height, call)).0)
    case AdoptBlock =>
      if l.s.pending.None? then l else Ledger(AllAtHand(w, l), State(l.s.pending.value.refs, None, None))
    case AbortBlock => l.(s := l.s.(pending := None))
    case SweepStore =>
      if l.s.pending.Some? then l
      else
        match M.Mark(View(l.store), D.RootsOf(l.s.refs))
        case None => l
        case Some(live) => l.(store := map id | id in l.store && id in live :: l.store[id])
  }

  const BLANK_NODE: Ledger := Ledger(map[], FRESH)

  ghost function Run(w: World, from: Ledger, events: seq<Event>): Ledger {
    if events == [] then from else Next(w, Run(w, from, events[..|events| - 1]), events[|events| - 1])
  }

  // ---- what callers and the code around promise --------------------------------------------------------

  ghost predicate WorldTrue(w: World) {
    && TreeEdits.Typed(w.hash) && CollisionFree(w.hash, w.known) && EMPTY_DIR in w.known && ValidCaps(w.caps)
    && (forall path :: w.segments(path).Some? ==> PathFits(w.segments(path).value))
  }

  // Numbers are u64s, strings UTF-8, and what is brought is known.
  ghost predicate Welcomed(w: World, l: Ledger, e: Event) {
    e.Execute? ==>
      && e.who.Valid() && Actors.Typed(e.who.Actor()) && e.height < Range(8)
      && TypedCall(w, l, e.height, e.call)
      && Brings(w, EffectOf(w, l, e.who, e.height, e.call))
  }

  ghost predicate Brings(w: World, e: Option<Effect>) {
    e.Some? ==> Known(w, e.value.objects)
  }

  ghost predicate TypedCall(w: World, l: Ledger, height: nat, call: Call) {
    match call
    case CommitChanges(time, _, message, changes) =>
      time < Range(8) && Utf8(message) && AllTyped(SceneOf(w, l, height), changes)
    case ProjectPath(time, _, _) => time < Range(8)
    case ExchangeReference(_, _, replacement) => replacement.Some? ==> replacement.value.revision < Range(8)
    case _ => true
  }

  ghost predicate AllWelcomed(w: World, from: Ledger, events: seq<Event>) {
    events == [] ||
    (AllWelcomed(w, from, events[..|events| - 1])
        && Welcomed(w, Run(w, from, events[..|events| - 1]), events[|events| - 1]))
  }

  // ---- the invariant -----------------------------------------------------------------------------------

  // The refs reach only what is at hand, whole; and their catalog is one.
  ghost predicate Settled(odb: Odb, refs: Refs) {
    Entire(odb, refs) && exists catalog: Catalog :: Represents(odb, refs.retention, catalog)
  }

  // The block's index lists its own objects.
  ghost predicate Indexes(w: World, block: Block) {
    forall id :: id in block.index ==>
      exists b :: b in block.objects && w.hash(b) == id && block.index[id] == (b.kind, |b.body|)
  }

  // Objects sit under their hashes, all of them known.
  ghost predicate Tidy(w: World, odb: Odb) {
    Hashed(w.hash, odb) && forall id :: id in odb ==> odb[id] in w.known
  }

  ghost predicate Holds(w: World, l: Ledger) {
    && Tidy(w, l.store) && Settled(l.store, l.s.refs)
    && (l.s.pending.Some? ==>
          && (forall b :: b in l.s.pending.value.objects ==> b in w.known) && Indexes(w, l.s.pending.value)
          && Settled(AllAtHand(w, l), l.s.pending.value.refs))
  }

  // ---- objects at hand ---------------------------------------------------------------------------------

  ghost predicate Known(w: World, blobs: seq<Blob>) {
    forall b :: b in blobs ==> b in w.known
  }

  lemma AtHandOneMore(w: World, odb: Odb, b: Blob)
    requires WorldTrue(w) && Tidy(w, odb) && b in w.known
    ensures Tidy(w, odb[w.hash(b) := b]) && Extends(odb, odb[w.hash(b) := b])
  {
    hide DirBlob, PathFits, TreeEdits.Typed;
    if w.hash(b) in odb {
      assert w.hash(odb[w.hash(b)]) == w.hash(b);
      assert odb[w.hash(b)] == b;
    }
  }

  lemma {:induction false} AtHandGrows(w: World, store: Odb, objects: seq<Blob>, more: seq<Blob>)
    requires WorldTrue(w) && Tidy(w, store) && Known(w, objects) && Known(w, more)
    ensures Tidy(w, AtHand(w.hash, store, objects + more))
    ensures Extends(AtHand(w.hash, store, objects), AtHand(w.hash, store, objects + more))
    ensures Stores(w.hash, AtHand(w.hash, store, objects + more), more)
    decreases |objects| + |more|
  {
    hide *;
    var all := objects + more;
    AtHandNext(w.hash, store, all);
    if more == [] {
      assert all == objects;
      NoMoreAtHand(w.hash, AtHand(w.hash, store, objects));
      if objects != [] {
        var front, last := objects[..|objects| - 1], objects[|objects| - 1];
        KnownParts(w, objects);
        KnownParts(w, []);
        AtHandGrows(w, store, front, []);
        assert front + [] == front;
        AtHandOneMore(w, AtHand(w.hash, store, front), last);
      }
    } else {
      var front, last := more[..|more| - 1], more[|more| - 1];
      KnownParts(w, more);
      AtHandGrows(w, store, objects, front);
      var odb := AtHand(w.hash, store, objects + front);
      assert all[..|all| - 1] == objects + front && all[|all| - 1] == last;
      AtHandOneMore(w, odb, last);
      StoresMore(w.hash, odb, odb[w.hash(last) := last], front, last);
      ExtendsTwice(AtHand(w.hash, store, objects), odb, odb[w.hash(last) := last]);
      assert more == front + [last];
    }
  }

  lemma AtHandNext(hash: Hash, store: Odb, objects: seq<Blob>)
    ensures AtHand(hash, store, objects)
         == if objects == [] then store
            else var last := objects[|objects| - 1];
                 AtHand(hash, store, objects[..|objects| - 1])[hash(last) := last]
  {
  }

  lemma NoMoreAtHand(hash: Hash, odb: Odb)
    ensures Extends(odb, odb) && Stores(hash, odb, [])
  {
  }

  lemma ExtendsTwice(a: Odb, b: Odb, c: Odb)
    requires Extends(a, b) && Extends(b, c)
    ensures Extends(a, c)
  {
  }

  lemma KnownParts(w: World, blobs: seq<Blob>)
    ensures Known(w, [])
    ensures Known(w, blobs) && blobs != [] ==>
      Known(w, blobs[..|blobs| - 1]) && blobs[|blobs| - 1] in w.known
  {
    if blobs != [] { assert blobs[|blobs| - 1] in blobs; }
  }

  lemma StoresMore(hash: Hash, odb: Odb, after: Odb, front: seq<Blob>, last: Blob)
    requires Stores(hash, odb, front) && Extends(odb, after) && hash(last) in after && after[hash(last)] == last
    ensures Stores(hash, after, front + [last])
  {
  }

  lemma StoreIsAtHand(w: World, store: Odb, objects: seq<Blob>)
    requires WorldTrue(w) && Tidy(w, store) && Known(w, objects)
    ensures Extends(store, AtHand(w.hash, store, objects)) && Tidy(w, AtHand(w.hash, store, objects))
    ensures Stores(w.hash, AtHand(w.hash, store, objects), objects)
  {
    hide WorldTrue, Tidy;
    AtHandGrows(w, store, [], objects);
    assert [] + objects == objects;
  }

  function ObjectsOf(s: State): seq<Blob> {
    if s.pending.Some? then s.pending.value.objects else []
  }

  lemma HoldsNow(w: World, l: Ledger)
    requires WorldTrue(w) && Holds(w, l)
    ensures Settled(AllAtHand(w, l), Effective(l.s)) && Tidy(w, AllAtHand(w, l)) && Known(w, ObjectsOf(l.s))
    ensures AllAtHand(w, l) == AtHand(w.hash, l.store, ObjectsOf(l.s))
  {
    hide WorldTrue, Tidy, Settled, Indexes;
    StoreIsAtHand(w, l.store, ObjectsOf(l.s));
  }

  lemma IndexIsTrue(w: World, odb: Odb, block: Block, id: Id)
    requires Indexes(w, block) && Stores(w.hash, odb, block.objects) && id in block.index
    ensures id in odb && odb[id].kind == block.index[id].0 && |odb[id].body| == block.index[id].1
  {
    var b :| b in block.objects && w.hash(b) == id && block.index[id] == (b.kind, |b.body|);
    StoredOne(w.hash, odb, block.objects, b);
  }

  lemma OpenIndexes(w: World, l: Ledger, height: nat)
    requires Holds(w, l)
    ensures Indexes(w, Verbs.Open(l.s, height))
  {
    hide Settled, Tidy, AtHand;
  }

  // The scene a verb runs in is what its engine takes it to be.
  lemma SceneIsTrue(w: World, l: Ledger, height: nat)
    requires WorldTrue(w) && Holds(w, l)
    ensures SceneTrue(SceneOf(w, l, height)) && ViewOf(SceneOf(w, l, height)) == AllAtHand(w, l)
    ensures SceneOf(w, l, height).block.refs == Effective(l.s) && SceneOf(w, l, height).block.objects == ObjectsOf(l.s)
    ensures SceneOf(w, l, height).env.hash == w.hash
  {
    hide *;
    var sc := SceneOf(w, l, height);
    SceneIs(w, l, height);
    HoldsNow(w, l);
    HoldsTidy(w, l);
    OpenIndexes(w, l, height);
    StoreIsAtHand(w, l.store, ObjectsOf(l.s));
    forall id | id in sc.block.index { IndexIsTrue(w, ViewOf(sc), sc.block, id); }
    forall id | id in sc.committed { ExtendsAt(sc.committed, ViewOf(sc), id); }
    SceneTrueIf(w, sc);
  }

  lemma SceneIs(w: World, l: Ledger, height: nat)
    ensures var sc := SceneOf(w, l, height);
      && sc.env.hash == w.hash && sc.segments == w.segments && sc.known == w.known && sc.committed == l.store
      && sc.block == Verbs.Open(l.s, height) && sc.block.refs == Effective(l.s) && sc.block.objects == ObjectsOf(l.s)
      && sc.env == EnvOf(w, l) && ViewOf(sc) == AllAtHand(w, l)
  {
    hide AtHand, KeptIn;
  }

  lemma SceneTrueIf(w: World, sc: Scene)
    requires WorldTrue(w) && sc.env.hash == w.hash && sc.segments == w.segments && sc.known == w.known
    requires Tidy(w, ViewOf(sc)) && forall id :: id in sc.committed ==> id in ViewOf(sc)
    requires forall id :: id in sc.block.index ==>
      && id in ViewOf(sc) && ViewOf(sc)[id].kind == sc.block.index[id].0
      && |ViewOf(sc)[id].body| == sc.block.index[id].1
    ensures SceneTrue(sc)
  {
    hide DirBlob, PathFits, TreeEdits.Typed, CollisionFree, Hashed, ViewOf;
  }

  // ---- what may be named is in reach -------------------------------------------------------------------

  lemma KeptIsReached(w: World, odb: Odb, refs: Refs, id: Id)
    requires WorldTrue(w) && Tidy(w, odb) && Settled(odb, refs) && KeptIn(odb, refs.retention, id) == Some(true)
    ensures R.Node(R.AsSnapshot, id) in ReachedBy(odb, refs)
  {
    hide Entire, ReachedBy, ReadRecord, Represents, DirBlob, PathFits, CollisionFree;
    ReadIsReached(w.hash, odb, refs, Retention.AtMembership(id));
  }

  lemma ContainedIsReached(w: World, l: Ledger, refs: Refs, id: Id)
    requires WorldTrue(w) && Tidy(w, AllAtHand(w, l)) && Settled(AllAtHand(w, l), Effective(l.s))
    requires refs.head == Effective(l.s).head && refs.window == Effective(l.s).window
    requires refs.pins == Effective(l.s).pins && refs.retention == Effective(l.s).retention
    requires ContainsSnapshot(EnvOf(w, l), refs, id) == Some(true)
    ensures R.Node(R.AsSnapshot, id) in ReachedBy(AllAtHand(w, l), Effective(l.s))
  {
    hide WorldTrue, Tidy, Settled, KeptIn, AllAtHand, R.Reached, R.Ordinary, R.Catalog, D.RootsOf, View;
    var now := Effective(l.s);
    RootsAre(now);
    R.ReachedIsLeast(View(AllAtHand(w, l)), D.RootsOf(now));
    if KeptIn(AllAtHand(w, l), now.retention, id) == Some(true) {
      KeptIsReached(w, AllAtHand(w, l), now, id);
    } else {
      assert Rooted(now, R.Node(R.AsSnapshot, id));
    }
  }

  // ---- one verb at a time --------------------------------------------------------------------------------

  // Refs that hold on to no more than before, and to the same catalog.
  lemma LessIsSettled(odb: Odb, refs: Refs, after: Odb, grown: Refs)
    requires Settled(odb, refs) && Extends(odb, after) && grown.retention == refs.retention
    requires forall n :: Rooted(grown, n) ==> Rooted(refs, n)
    requires forall d :: d in grown.staging ==> d in refs.staging && grown.staging[d] == refs.staging[d]
    ensures Settled(after, grown)
  {
    hide R.Reached, R.Ordinary, R.Catalog, R.Children, D.RootsOf, View, Proper, Rooted, Represents, Extends;
    RootsAre(refs);
    RootsAre(grown);
    R.ReachedIsLeast(View(odb), D.RootsOf(refs));
    forall d | d in grown.staging
      ensures d in after && |after[d].body| == grown.staging[d].len
    {
      ExtendsAt(odb, after, d);
    }
    GrowsEntire(odb, refs, after, grown, n => false);
    CatalogStays(odb, refs, after, grown);
  }

  lemma CatalogStays(odb: Odb, refs: Refs, after: Odb, grown: Refs)
    requires Settled(odb, refs) && Extends(odb, after) && grown.retention == refs.retention
    ensures exists catalog: Catalog :: Represents(after, grown.retention, catalog)
  {
    hide Entire, Represents, Extends;
    var catalog: Catalog :| Represents(odb, refs.retention, catalog);
    StaysTheSame(odb, refs.retention, catalog, after);
  }

  // One more root, in reach already or a chunk that is there.
  lemma OneRootSettled(odb: Odb, refs: Refs, after: Odb, grown: Refs, root: R.Node)
    requires Settled(odb, refs) && Extends(odb, after) && grown.retention == refs.retention
    requires root in ReachedBy(odb, refs)
        || (root.role == R.AsChunk && root.id in after && after[root.id].kind == ChunkKind)
    requires forall n :: Rooted(grown, n) ==> n == root || Rooted(refs, n)
    requires forall d :: d in grown.staging ==>
      (d in refs.staging && grown.staging[d] == refs.staging[d])
          || (d in after && |after[d].body| == grown.staging[d].len)
    ensures Settled(after, grown)
  {
    hide R.Reached, R.Ordinary, R.Catalog, R.Children, D.RootsOf, View, Proper, Rooted, Represents, Extends;
    var added := (n: R.Node) => n == root && n.role == R.AsChunk && n.id in after && after[n.id].kind == ChunkKind;
    RootsAre(refs);
    RootsAre(grown);
    R.ReachedIsLeast(View(odb), D.RootsOf(refs));
    forall n | added(n)
      ensures Proper(after, n) && R.Children(View(after), n) == []
    {
      ChunkIsProper(after, n.id);
      ChunksLeadNowhere(after, n.id);
    }
    forall d | d in grown.staging
      ensures d in after && |after[d].body| == grown.staging[d].len
    {
      if d in refs.staging && grown.staging[d] == refs.staging[d] { ExtendsAt(odb, after, d); }
    }
    GrowsEntire(odb, refs, after, grown, added);
    CatalogStays(odb, refs, after, grown);
  }

  // What a verb leaves of the refs, given that its objects are at hand.
  ghost predicate Lawful(w: World, l: Ledger, e: Option<Effect>) {
    e.Some? ==> Settled(AtHand(w.hash, l.store, ObjectsOf(l.s) + e.value.objects), e.value.refs)
  }

  lemma NothingMore(w: World, l: Ledger)
    ensures AtHand(w.hash, l.store, ObjectsOf(l.s) + []) == AllAtHand(w, l)
  {
    hide AtHand;
    assert ObjectsOf(l.s) + [] == ObjectsOf(l.s);
  }

  lemma SelfExtends(odb: Odb)
    ensures Extends(odb, odb)
  {
  }

  // What putting a chunk comes to: a sweep, or one staged entry and its chunk besides.
  lemma StageIs(env: Env, caps: Caps, block: Block, who: Actors.Authority, height: nat, bytes: Text)
    requires StageChunk(env, caps, block, who, height, bytes).Some?
    ensures var (e, swept, chunk) := (StageChunk(env, caps, block, who, height, bytes).value,
        Sweep(block.refs, height), Blob(ChunkKind, bytes));
      || e == Effect(swept, [])
      || (e.objects == [chunk] && exists staged: Staged ::
            staged.len == |bytes| && e.refs == swept.(staging := swept.staging[env.hash(chunk) := staged]))
  {
    hide RoomFor, ControlledLens, Saturate, Sweep;
  }

  lemma SweptRoots(refs: Refs, height: nat)
    ensures forall n :: Rooted(Sweep(refs, height), n) ==> Rooted(refs, n)
    ensures Sweep(refs, height).retention == refs.retention
    ensures var swept := Sweep(refs, height);
        forall d :: d in swept.staging ==> d in refs.staging && swept.staging[d] == refs.staging[d]
  {
  }

  lemma StagedRoots(refs: Refs, digest: Id, staged: Staged)
    ensures forall n :: Rooted(refs.(staging := refs.staging[digest := staged]), n) ==>
              n == R.Node(R.AsChunk, digest) || Rooted(refs, n)
  {
  }

  lemma PutChunkKeeps(w: World, l: Ledger, who: Actors.Authority, height: nat, bytes: Text)
    requires WorldTrue(w) && Holds(w, l)
    requires Brings(w, StageChunk(EnvOf(w, l), w.caps, Verbs.Open(l.s, height), who, height, bytes))
    ensures Lawful(w, l, StageChunk(EnvOf(w, l), w.caps, Verbs.Open(l.s, height), who, height, bytes))
  {
    hide WorldTrue, Holds, Settled, AtHand, StageChunk, Sweep, Tidy, KeptIn, AllAtHand, Rooted, Known, Extends,
      ReachedBy;
    var block := Verbs.Open(l.s, height);
    var e := StageChunk(EnvOf(w, l), w.caps, block, who, height, bytes);
    if e.Some? {
      HoldsNow(w, l);
      HoldsTidy(w, l);
      StageIs(EnvOf(w, l), w.caps, block, who, height, bytes);
      var refs, odb, grown := Effective(l.s), AllAtHand(w, l), e.value.refs;
      AtHandGrows(w, l.store, ObjectsOf(l.s), e.value.objects);
      var after := AtHand(w.hash, l.store, ObjectsOf(l.s) + e.value.objects);
      var swept := Sweep(refs, height);
      SweptRoots(refs, height);
      if e.value.objects == [] {
        LessIsSettled(odb, refs, after, grown);
      } else {
        var chunk := Blob(ChunkKind, bytes);
        var staged: Staged :| staged.len == |bytes|
            && grown == swept.(staging := swept.staging[w.hash(chunk) := staged]);
        assert e.value.objects[0] == chunk;
        StagedRoots(swept, w.hash(chunk), staged);
        OneRootSettled(odb, refs, after, grown, R.Node(R.AsChunk, w.hash(chunk)));
      }
    }
  }

  lemma HoldsTidy(w: World, l: Ledger)
    requires Holds(w, l)
    ensures Tidy(w, l.store)
  {
    hide Settled, Indexes, Tidy;
  }

  // What pins and watches come to: no objects, and at most one pin more.
  lemma QuietIs(env: Env, caps: Caps, block: Block, who: Actors.Authority, height: nat, verb: Verb)
    requires verb.PinSnapshot? || verb.Unpin? || verb.WatchPrefix? || verb.UnwatchPrefix?
    requires Apply(env, caps, block, who, height, verb).Some?
    ensures var (e, swept) := (Apply(env, caps, block, who, height, verb).value, Sweep(block.refs, height));
      && e.objects == []
      && (!verb.PinSnapshot? ==>
            && e.refs.(pins := swept.pins, watches := swept.watches) == swept
            && forall name :: name in e.refs.pins ==> name in swept.pins && e.refs.pins[name] == swept.pins[name])
      && (verb.PinSnapshot? ==>
            var id := FromHex32(verb.snapshot);
            && id.Some? && ContainsSnapshot(env, swept, id.value) == Some(true)
            && exists pin: RefsImage.Pin ::
              pin.snapshot == id.value && e.refs == swept.(pins := swept.pins[verb.name := pin]))
  {
    hide RoomFor, ControlledPins, Sweep, FromHex32, ContainsSnapshot;
  }

  lemma PinnedRoots(refs: Refs, name: Text, pin: RefsImage.Pin)
    ensures var grown := refs.(pins := refs.pins[name := pin]);
      forall n :: Rooted(grown, n) ==> n == R.Node(R.AsSnapshot, pin.snapshot) || Rooted(refs, n)
  {
    var grown := refs.(pins := refs.pins[name := pin]);
    forall n | Rooted(grown, n)
      ensures n == R.Node(R.AsSnapshot, pin.snapshot) || Rooted(refs, n)
    {
      if n.role == R.AsSnapshot && grown.head != Some(n.id) && n.id !in grown.window {
        var other :| other in grown.pins && grown.pins[other].snapshot == n.id;
        assert other == name || other in refs.pins;
      }
    }
  }

  lemma FewerRoots(refs: Refs, grown: Refs)
    requires grown.(pins := refs.pins, watches := refs.watches) == refs
    requires forall name :: name in grown.pins ==> name in refs.pins && grown.pins[name] == refs.pins[name]
    ensures forall n :: Rooted(grown, n) ==> Rooted(refs, n)
  {
  }

  // Pins and watches bring no objects.
  lemma QuietVerbKeeps(w: World, l: Ledger, who: Actors.Authority, height: nat, call: Call)
    requires WorldTrue(w) && Holds(w, l) && (call.Pin? || call.DropPin? || call.AddWatcher? || call.DropWatcher?)
    ensures Lawful(w, l, EffectOf(w, l, who, height, call))
  {
    hide WorldTrue, Holds, Settled, AtHand, Apply, Tidy, ContainsSnapshot, FromHex32, AllAtHand, EnvOf, Rooted, Sweep,
      Extends, ReachedBy;
    var block, verb := Verbs.Open(l.s, height), VerbOf(w, l, who, height, call);
    var e := Apply(EnvOf(w, l), w.caps, block, who, height, verb);
    if e.Some? {
      HoldsNow(w, l);
      NothingMore(w, l);
      QuietIs(EnvOf(w, l), w.caps, block, who, height, verb);
      var refs, odb, grown := Effective(l.s), AllAtHand(w, l), e.value.refs;
      var swept := Sweep(refs, height);
      SelfExtends(odb);
      SweptRoots(refs, height);
      if call.Pin? {
        var id := FromHex32(call.snapshot).value;
        SweptKeeps(refs, height);
        ContainedIsReached(w, l, swept, id);
        var pin: RefsImage.Pin :| pin.snapshot == id && grown == swept.(pins := swept.pins[call.name := pin]);
        PinnedRoots(swept, call.name, pin);
        OneRootSettled(odb, refs, odb, grown, R.Node(R.AsSnapshot, id));
      } else {
        FewerRoots(swept, grown);
        LessIsSettled(odb, refs, odb, grown);
      }
    }
  }

  lemma SweptKeeps(refs: Refs, height: nat)
    ensures var swept := Sweep(refs, height);
      swept.head == refs.head && swept.window == refs.window && swept.pins == refs.pins
          && swept.retention == refs.retention
  {
  }

  lemma HeaderIsTyped(who: Actors.Authority, height: nat, time: nat, message: Text)
    requires who.Valid() && Actors.Typed(who.Actor()) && height < Range(8) && time < Range(8) && Utf8(message)
    ensures TypedHeader(Header(who, height, time, message))
  {
  }

  lemma LawfulIs(w: World, l: Ledger, e: Effect)
    ensures Lawful(w, l, None)
    ensures Settled(AtHand(w.hash, l.store, ObjectsOf(l.s) + e.objects), e.refs) ==> Lawful(w, l, Some(e))
    ensures Brings(w, Some(e)) ==> Known(w, e.objects)
  {
    hide Settled, AtHand, Known;
  }

  lemma SettledIs(odb: Odb, refs: Refs)
    ensures Settled(odb, refs) <==>
      Entire(odb, refs) && exists catalog: Catalog :: Represents(odb, refs.retention, catalog)
  {
    hide Entire, Represents;
  }

  // What each call does, told by its engine.
  lemma EffectIs(w: World, l: Ledger, who: Actors.Authority, height: nat, call: Call)
    ensures EffectOf(w, l, who, height, call)
         == Apply(EnvOf(w, l), w.caps, Verbs.Open(l.s, height), who, height, VerbOf(w, l, who, height, call))
  {
    hide Apply, EnvOf, VerbOf, Verbs.Open;
  }

  lemma CommitVerb(w: World, l: Ledger, who: Actors.Authority, height: nat, call: Call)
    requires call.CommitChanges?
    ensures
      var sc := SceneOf(w, l, height);
      var o := Decide(sc, Header(who, height, call.time, call.message), call.base, call.changes);
      VerbOf(w, l, who, height, call) == Verb.Commit(if o.None? then None else Some(PlanOf(sc, o.value)))
  {
    hide Decide, SceneOf, PlanOf;
  }

  lemma ProjectVerb(w: World, l: Ledger, who: Actors.Authority, height: nat, call: Call)
    requires call.ProjectPath?
    ensures
      var sc := SceneOf(w, l, height);
      var p := Projections.Project(sc, Header(who, height, call.time, []), call.snapshot, call.path);
      VerbOf(w, l, who, height, call) == Verb.Project(if p.None? then None else Some(CandidateOf(sc, p.value)))
  {
    hide Projections.Project, SceneOf, CandidateOf;
  }

  lemma RetainVerb(w: World, l: Ledger, who: Actors.Authority, height: nat, call: Call)
    requires call.ExchangeReference?
    ensures var exchange := ExchangeOf(w, l, who, call.key, call.expected, call.replacement);
      VerbOf(w, l, who, height, call) == Retain(exchange) && (exchange.Some? ==> who.OfModule?)
  {
    hide Exchange, SceneOf, EnvOf;
  }

  lemma LandsIf(sc: Scene, o: Commits.Outcome, after: Odb)
    requires Extends(ViewOf(sc), after) && Stores(sc.env.hash, after, PlanOf(sc, o).objects)
    ensures Lands(sc, o, after)
  {
    hide ViewOf, Extends, Stores;
  }

  lemma CallIsTyped(w: World, l: Ledger, height: nat, call: Call)
    requires TypedCall(w, l, height, call)
    ensures call.CommitChanges? ==>
      && call.time < Range(8) && Utf8(call.message) && AllTyped(SceneOf(w, l, height), call.changes)
    ensures call.ProjectPath? ==> call.time < Range(8)
    ensures call.ExchangeReference? && call.replacement.Some? ==> call.replacement.value.revision < Range(8)
  {
    hide Range, Utf8, AllTyped, SceneOf;
  }

  lemma NoMessage()
    ensures Utf8([])
  {
  }

  lemma CommitKeeps(w: World, l: Ledger, who: Actors.Authority, height: nat, call: Call)
    requires WorldTrue(w) && Holds(w, l) && call.CommitChanges?
    requires who.Valid() && Actors.Typed(who.Actor()) && height < Range(8) && TypedCall(w, l, height, call)
    requires Brings(w, EffectOf(w, l, who, height, call))
    ensures Lawful(w, l, EffectOf(w, l, who, height, call))
  {
    hide *;
    var sc, h := SceneOf(w, l, height), Header(who, height, call.time, call.message);
    var o := Decide(sc, h, call.base, call.changes);
    EffectIs(w, l, who, height, call);
    CommitVerb(w, l, who, height, call);
    SceneIs(w, l, height);
    var plan := if o.None? then None else Some(PlanOf(sc, o.value));
    AppliesWhatIsMade(EnvOf(w, l), w.caps, sc.block, who, height, plan, None, None);
    LawfulIs(w, l, Effect(sc.block.refs, []));
    if o.Some? {
      var effect := CommitPlan(w.caps, sc.block, height, plan.value);
      LawfulIs(w, l, effect);
      CommitEffect(w.caps, sc.block, height, plan.value);
      HoldsNow(w, l);
      HoldsTidy(w, l);
      SceneIsTrue(w, l, height);
      AtHandGrows(w, l.store, ObjectsOf(l.s), plan.value.objects);
      var after := AtHand(w.hash, l.store, ObjectsOf(l.s) + plan.value.objects);
      CallIsTyped(w, l, height, call);
      HeaderIsTyped(who, height, call.time, call.message);
      LandsIf(sc, o.value, after);
      SettledIs(AllAtHand(w, l), Effective(l.s));
      CommitKeepsEntire(sc, w.caps, h, call.base, call.changes, o.value, after);
      CatalogStays(AllAtHand(w, l), Effective(l.s), after, effect.refs);
      SettledIs(after, effect.refs);
    }
  }

  lemma CommitEffect(caps: Caps, block: Block, height: nat, plan: Plan)
    ensures CommitPlan(caps, block, height, plan).objects == plan.objects
    ensures CommitPlan(caps, block, height, plan).refs.retention == block.refs.retention
  {
  }

  lemma ProjectKeeps(w: World, l: Ledger, who: Actors.Authority, height: nat, call: Call)
    requires WorldTrue(w) && Holds(w, l) && call.ProjectPath?
    requires who.Valid() && Actors.Typed(who.Actor()) && height < Range(8) && TypedCall(w, l, height, call)
    requires Brings(w, EffectOf(w, l, who, height, call))
    ensures Lawful(w, l, EffectOf(w, l, who, height, call))
  {
    hide *;
    var sc, h := SceneOf(w, l, height), Header(who, height, call.time, []);
    var p := Projections.Project(sc, h, call.snapshot, call.path);
    EffectIs(w, l, who, height, call);
    ProjectVerb(w, l, who, height, call);
    SceneIs(w, l, height);
    var candidate := if p.None? then None else Some(CandidateOf(sc, p.value));
    AppliesWhatIsMade(EnvOf(w, l), w.caps, sc.block, who, height, None, candidate, None);
    LawfulIs(w, l, Effect(sc.block.refs, []));
    if p.Some? {
      var effect := ProjectCandidate(w.caps, sc.block, height, candidate.value);
      LawfulIs(w, l, effect);
      ProjectEffect(w.caps, sc.block, height, candidate.value);
      HoldsNow(w, l);
      HoldsTidy(w, l);
      SceneIsTrue(w, l, height);
      AtHandGrows(w, l.store, ObjectsOf(l.s), candidate.value.1);
      var after := AtHand(w.hash, l.store, ObjectsOf(l.s) + candidate.value.1);
      CallIsTyped(w, l, height, call);
      NoMessage();
      HeaderIsTyped(who, height, call.time, []);
      ProjectedIsContained(sc, h, call.snapshot, call.path);
      ContainedIsReached(w, l, Effective(l.s), FromHex32(call.snapshot).value);
      SettledIs(AllAtHand(w, l), Effective(l.s));
      ProjectKeepsEntire(sc, w.caps, h, call.snapshot, call.path, p.value, after);
      CatalogStays(AllAtHand(w, l), Effective(l.s), after, effect.refs);
      SettledIs(after, effect.refs);
    }
  }

  lemma ProjectedIsContained(sc: Scene, h: Header, snapshot: Text, path: Text)
    requires Projections.Project(sc, h, snapshot, path).Some?
    ensures FromHex32(snapshot).Some?
        && ContainsSnapshot(sc.env, sc.block.refs, FromHex32(snapshot).value) == Some(true)
  {
    hide Cutting, FromHex32, RootOf, ContainsSnapshot, ViewOf, ProjectedBlob;
  }

  lemma ProjectEffect(caps: Caps, block: Block, height: nat, candidate: (Id, seq<Blob>))
    ensures ProjectCandidate(caps, block, height, candidate).objects == candidate.1
    ensures ProjectCandidate(caps, block, height, candidate).refs.retention == block.refs.retention
  {
  }

  lemma ExchangeIs(w: World, l: Ledger, who: Actors.Authority, key: Text, expected: Option<Reference>,
                   replacement: Option<Reference>)
    requires ExchangeOf(w, l, who, key, expected, replacement).Some?
    ensures who.OfModule?
    ensures ExchangeOf(w, l, who, key, expected, replacement)
         == Exchange(w.hash, AllAtHand(w, l), Effective(l.s).retention, who.name, key, expected, replacement)
    ensures replacement.Some? ==>
      var id := FromHex32(replacement.value.snapshot);
      id.Some? && ContainsSnapshot(EnvOf(w, l), Effective(l.s), id.value) == Some(true)
  {
    hide Exchange, EnvOf, ContainsSnapshot, FromHex32, AllAtHand, Effective;
  }

  lemma RetainKeeps(w: World, l: Ledger, who: Actors.Authority, height: nat, call: Call)
    requires WorldTrue(w) && Holds(w, l) && call.ExchangeReference? && TypedCall(w, l, height, call)
    requires Brings(w, EffectOf(w, l, who, height, call))
    ensures Lawful(w, l, EffectOf(w, l, who, height, call))
  {
    hide *;
    var refs, odb := Effective(l.s), AllAtHand(w, l);
    var exchange := ExchangeOf(w, l, who, call.key, call.expected, call.replacement);
    EffectIs(w, l, who, height, call);
    RetainVerb(w, l, who, height, call);
    SceneIs(w, l, height);
    AppliesWhatIsMade(EnvOf(w, l), w.caps, Verbs.Open(l.s, height), who, height, None, None, exchange);
    LawfulIs(w, l, Effect(refs, []));
    if exchange.Some? {
      var (tree, objects) := exchange.value;
      LawfulIs(w, l, Effect(Sweep(refs, height).(retention := tree), objects));
      HoldsNow(w, l);
      HoldsTidy(w, l);
      AtHandGrows(w, l.store, ObjectsOf(l.s), objects);
      var after := AtHand(w.hash, l.store, ObjectsOf(l.s) + objects);
      CallIsTyped(w, l, height, call);
      ExchangeIs(w, l, who, call.key, call.expected, call.replacement);
      SnapshotIs(call.replacement);
      if call.replacement.Some? { ContainedIsReached(w, l, refs, FromHex32(call.replacement.value.snapshot).value); }
      ExchangeSettles(w, odb, refs, after, who.name, call.key, call.expected, call.replacement, height);
    }
  }

  lemma SnapshotIs(reference: Option<Reference>)
    ensures Retention.SnapshotOf(reference)
         == if reference.None? then None else FromHex32(reference.value.snapshot)
  {
    hide FromHex32;
  }

  // An exchange on entire refs leaves entire refs, with a catalog again.
  lemma ExchangeSettles(w: World, odb: Odb, refs: Refs, after: Odb, moduleId: Text, key: Text,
                        expected: Option<Reference>, replacement: Option<Reference>, height: nat)
    requires WorldTrue(w) && Tidy(w, odb) && Settled(odb, refs)
        && (replacement.Some? ==> replacement.value.revision < Range(8))
    requires Exchange(w.hash, odb, refs.retention, moduleId, key, expected, replacement).Some?
    requires Retention.SnapshotOf(replacement).Some? ==>
      R.Node(R.AsSnapshot, Retention.SnapshotOf(replacement).value) in ReachedBy(odb, refs)
    requires Extends(odb, after)
        && Stores(w.hash, after, Exchange(w.hash, odb, refs.retention, moduleId, key, expected, replacement).value.1)
    ensures Settled(after,
        Sweep(refs, height).(retention := Exchange(w.hash, odb, refs.retention, moduleId, key, expected,
        replacement).value.0))
  {
    hide Entire, Represents, Exchange, ReachedBy, Range, FromHex32, Extends, Stores, TreeOfBuilt, WorldTrue, Tidy,
      Sweep, Rooted;
    TidyWorld(w, odb);
    var catalog: Catalog :| Represents(odb, refs.retention, catalog);
    var tree := Exchange(w.hash, odb, refs.retention, moduleId, key, expected, replacement).value.0;
    var grown := Sweep(refs, height).(retention := tree);
    RootIsHeld(w.hash, odb, refs, odb);
    ExchangeRefines(w.hash, odb, refs.retention, catalog, moduleId, key, expected, replacement, after);
    ExchangeRoots(refs, height, tree);
    SweptRoots(refs, height);
    if expected == replacement {
      UnchangedTree(w.hash, odb, refs.retention, moduleId, key, expected);
      NothingBuilt(w.hash, odb, refs, after);
      NewCatalogEntire(w.hash, odb, refs, after, grown, []);
    } else {
      ExchangeBuilds(w.hash, odb, refs, catalog, moduleId, key, expected, replacement, after);
      var blobs :| TreeOfBuilt(w.hash, odb, refs, after, blobs, tree);
      TreeOfBuiltIs(w.hash, odb, refs, after, blobs, tree);
      NewCatalogEntire(w.hash, odb, refs, after, grown, blobs);
    }
  }

  lemma TreeOfBuiltIs(hash: Hash, odb: Odb, refs: Refs, after: Odb, blobs: seq<Blob>, tree: Option<Id>)
    requires TreeOfBuilt(hash, odb, refs, after, blobs, tree)
    ensures BuiltCatalog(hash, odb, refs, after, blobs) && (tree.Some? ==> tree.value in Hashes(hash, blobs))
  {
    hide BuiltCatalog, Hashes;
  }

  lemma TidyWorld(w: World, odb: Odb)
    requires WorldTrue(w) && Tidy(w, odb)
    ensures Hashed(w.hash, odb) && TreeEdits.Typed(w.hash)
  {
    hide DirBlob, PathFits, CollisionFree;
  }

  lemma ExchangeRoots(refs: Refs, height: nat, tree: Option<Id>)
    ensures forall n :: Rooted(Sweep(refs, height).(retention := tree).(retention := None), n) ==> Rooted(refs, n)
  {
  }

  lemma NothingBuilt(hash: Hash, odb: Odb, refs: Refs, after: Odb)
    ensures BuiltCatalog(hash, odb, refs, after, [])
  {
  }

  lemma UnchangedTree(hash: Hash, odb: Odb, tree: Option<Id>, moduleId: Text, key: Text, expected: Option<Reference>)
    ensures Exchange(hash, odb, tree, moduleId, key, expected, expected).Some? ==>
      Exchange(hash, odb, tree, moduleId, key, expected, expected).value == (tree, [])
  {
    hide GetReference, Retention.PlaceOf, FromHex32;
  }

  // ---- any verb ------------------------------------------------------------------------------------------

  lemma VerbKeeps(w: World, l: Ledger, who: Actors.Authority, height: nat, call: Call)
    requires WorldTrue(w) && Holds(w, l) && Welcomed(w, l, Execute(who, height, call))
    ensures Lawful(w, l, EffectOf(w, l, who, height, call))
  {
    hide WorldTrue, Holds, Lawful, TypedCall, Range, EnvOf, StageChunk, Decide, Projections.Project, ExchangeOf,
      AddPin, AddWatch;
    match call
    case PutChunk(bytes) => PutChunkKeeps(w, l, who, height, bytes);
    case CommitChanges(_, _, _, _) => CommitKeeps(w, l, who, height, call);
    case ProjectPath(_, _, _) => ProjectKeeps(w, l, who, height, call);
    case ExchangeReference(_, _, _) => RetainKeeps(w, l, who, height, call);
    case _ => QuietVerbKeeps(w, l, who, height, call);
  }

  // ---- transactions ------------------------------------------------------------------------------------

  lemma RevisionIsQuiet(odb: Odb, refs: Refs, revision: nat)
    requires Settled(odb, refs)
    ensures Settled(odb, refs.(revision := revision))
  {
    hide Settled;
    SelfExtends(odb);
    LessIsSettled(odb, refs, odb, refs.(revision := revision));
  }

  lemma {:induction false} IndexGrows(w: World, env: Env, block: Block, objects: seq<Blob>, refs: Refs)
    requires Indexes(w, block) && env.hash == w.hash
    ensures Indexes(w, block.(refs := refs, objects := block.objects + objects,
        index := Indexed(env, block.index, objects)))
    decreases |objects|
  {
    var after := block.(refs := refs, objects := block.objects + objects, index := Indexed(env, block.index, objects));
    if objects == [] {
      assert block.objects + [] == block.objects;
    } else {
      var front, last := objects[..|objects| - 1], objects[|objects| - 1];
      IndexGrows(w, env, block, front, refs);
      var before := block.(refs := refs, objects := block.objects + front, index := Indexed(env, block.index, front));
      forall id | id in after.index
        ensures exists b :: b in after.objects && w.hash(b) == id && after.index[id] == (b.kind, |b.body|)
      {
        if id == w.hash(last) {
          assert last in after.objects;
        } else {
          var b :| b in before.objects && w.hash(b) == id && before.index[id] == (b.kind, |b.body|);
          assert b in after.objects;
        }
      }
    }
  }

  lemma OpenHolds(w: World, l: Ledger, height: nat)
    requires WorldTrue(w) && Holds(w, l)
    ensures Holds(w, l.(s := l.s.(pending := Some(Verbs.Open(l.s, height)))))
  {
    hide WorldTrue, Tidy, Settled, Indexes;
    if l.s.pending.None? {
      NothingIndexed(w, l.s.refs, height);
      assert AllAtHand(w, l.(s := l.s.(pending := Some(Verbs.Open(l.s, height))))) == l.store;
    }
  }

  lemma NothingIndexed(w: World, refs: Refs, height: nat)
    ensures Indexes(w, Block(refs, [], map[], height))
  {
  }

  // An accepted verb's block: its refs settled over its objects, whatever the revision.
  lemma AcceptedHolds(w: World, l: Ledger, height: nat, e: Effect, refs: Refs)
    requires WorldTrue(w) && Holds(w, l) && Lawful(w, l, Some(e)) && Known(w, e.objects)
    requires refs == e.refs || exists revision: nat :: refs == e.refs.(revision := revision)
    ensures var block := Verbs.Open(l.s, height);
      var after := block.(refs := refs, objects := block.objects + e.objects,
          index := Indexed(EnvOf(w, l), block.index, e.objects));
      Holds(w, l.(s := l.s.(pending := Some(after))))
  {
    hide WorldTrue, Tidy, Settled, Indexes, AtHand;
    var block := Verbs.Open(l.s, height);
    var after := block.(refs := refs, objects := block.objects + e.objects,
        index := Indexed(EnvOf(w, l), block.index, e.objects));
    if refs != e.refs {
      var revision: nat :| refs == e.refs.(revision := revision);
      RevisionIsQuiet(AtHand(w.hash, l.store, ObjectsOf(l.s) + e.objects), e.refs, revision);
    }
    OpenHolds(w, l, height);
    IndexGrows(w, EnvOf(w, l), block, e.objects, refs);
    assert block.objects == ObjectsOf(l.s);
  }

  // The block after an accepted verb.
  function Accepted(env: Env, block: Block, e: Effect, refs: Refs): Block {
    block.(refs := refs, objects := block.objects + e.objects, index := Indexed(env, block.index, e.objects))
  }

  // Where a transaction leaves a node.
  lemma TransactIs(env: Env, caps: Caps, s: State, who: Actors.Authority, height: nat, verb: Verb)
    ensures var (after, e) := (Transact(env, caps, s, who, height, verb).0,
        Apply(env, caps, Verbs.Open(s, height), who, height, verb));
      var block := Verbs.Open(s, height);
      || after == s || after == s.(pending := Some(block))
      || (e.Some? && (after == s.(pending := Some(Accepted(env, block, e.value, e.value.refs)))
          || after == s.(pending := Some(Accepted(env, block, e.value,
            e.value.refs.(revision := block.refs.revision + 1))))))
  {
    hide Apply, Indexed;
  }

  lemma ExecuteHolds(w: World, l: Ledger, who: Actors.Authority, height: nat, call: Call)
    requires WorldTrue(w) && Holds(w, l) && Welcomed(w, l, Execute(who, height, call))
    ensures Holds(w, Next(w, l, Execute(who, height, call)))
  {
    hide WorldTrue, Holds, Lawful, Welcomed, Apply, VerbOf, EnvOf, Known, Indexed, Transact, Next;
    VerbKeeps(w, l, who, height, call);
    OpenHolds(w, l, height);
    WelcomedObjects(w, l, who, height, call);
    Executes(w, l, who, height, call);
    var block, verb := Verbs.Open(l.s, height), VerbOf(w, l, who, height, call);
    var e := Apply(EnvOf(w, l), w.caps, block, who, height, verb);
    TransactIs(EnvOf(w, l), w.caps, l.s, who, height, verb);
    if e.Some? {
      AcceptedHolds(w, l, height, e.value, e.value.refs);
      AcceptedHolds(w, l, height, e.value, e.value.refs.(revision := block.refs.revision + 1));
    }
  }

  lemma Executes(w: World, l: Ledger, who: Actors.Authority, height: nat, call: Call)
    ensures Next(w, l, Execute(who, height, call))
      == l.(s := Transact(EnvOf(w, l), w.caps, l.s, who, height, VerbOf(w, l, who, height, call)).0)
  {
    hide Transact, EnvOf, VerbOf, M.Mark;
  }

  lemma WelcomedObjects(w: World, l: Ledger, who: Actors.Authority, height: nat, call: Call)
    requires Welcomed(w, l, Execute(who, height, call))
    ensures Brings(w, EffectOf(w, l, who, height, call))
  {
    hide EffectOf, TypedCall;
  }

  lemma AdoptHolds(w: World, l: Ledger)
    requires WorldTrue(w) && Holds(w, l)
    ensures Holds(w, Next(w, l, AdoptBlock))
  {
    HoldsNow(w, l);
    hide WorldTrue, Tidy, Settled, Indexes, AllAtHand, Known;
  }

  lemma AbortHolds(w: World, l: Ledger)
    requires Holds(w, l)
    ensures Holds(w, Next(w, l, AbortBlock))
  {
    hide Tidy, Settled, Indexes, AtHand;
  }

  // ---- sweeping ----------------------------------------------------------------------------------------

  // Of a store, what is reached and maybe more, and each object as it was.
  ghost predicate Spared(store: Odb, refs: Refs, swept: Odb) {
    Extends(swept, store) && forall n :: n in ReachedBy(store, refs) ==> n.id in swept
  }

  lemma SparedIsEntire(store: Odb, refs: Refs, swept: Odb)
    requires Entire(store, refs) && Spared(store, refs, swept)
    ensures Entire(swept, refs)
  {
    hide R.Reached, R.Ordinary, R.Catalog, R.Children, D.RootsOf, View, Proper, Extends;
    var all := ReachedBy(store, refs);
    R.ReachedIsLeast(View(store), D.RootsOf(refs));
    forall n | n in all
      ensures Proper(swept, n) && R.Children(View(swept), n) == R.Children(View(store), n)
    {
      SparedIsProper(store, refs, swept, n);
    }
    ReachedAll(View(swept), D.RootsOf(refs), n => n in all);
    RootsAre(refs);
    forall d | d in refs.staging
      ensures d in swept && |swept[d].body| == refs.staging[d].len
    {
      assert Rooted(refs, R.Node(R.AsChunk, d));
      assert R.Node(R.AsChunk, d) in all;
      ExtendsAt(swept, store, d);
    }
  }

  lemma SparedIsProper(store: Odb, refs: Refs, swept: Odb, n: R.Node)
    requires Entire(store, refs) && Spared(store, refs, swept) && n in ReachedBy(store, refs)
    ensures Proper(swept, n) && R.Children(View(swept), n) == R.Children(View(store), n)
  {
    hide R.Reached, D.RootsOf, ObjectOf, DecodeFile, Extends;
    ExtendsAt(swept, store, n.id);
    assert View(swept)[n.id] == View(store)[n.id];
    assert Proper(store, n);
    if n.role == R.AsFile {
      R.ReachedIsLeast(View(store), D.RootsOf(refs));
      RoleIsKind(store, n);
      SparedFile(store, refs, swept, n.id, DecodeFile(store[n.id].body).value);
    }
  }

  lemma SparedFile(store: Odb, refs: Refs, swept: Odb, id: Id, f: FileObj)
    requires Spared(store, refs, swept) && R.Closed(View(store), ReachedBy(store, refs))
    requires R.Node(R.AsFile, id) in ReachedBy(store, refs)
    requires id in store && store[id].kind == FileKind && DecodeFile(store[id].body) == Some(f) && FileReads(store, f)
    ensures FileReads(swept, f)
  {
    hide R.Reached, D.RootsOf, View, R.Children, DecodeFile, Extends, RecordOf, R.Sound, R.AsAll,
      Chunks.VerifyChunkLenAt, Chunks.VerifyFileShape;
    ViewOfFile(store, id, f);
    FileChildren(View(store), id, f.chunks, RecordOf(f));
    forall i | 0 <= i < |f.chunks|
      ensures ChunkFits(swept, f.size, |f.chunks|, i, f.chunks[i])
    {
      InAll(R.AsChunk, f.chunks, R.Node(R.AsChunk, f.chunks[i]));
      assert R.Node(R.AsChunk, f.chunks[i]) in R.Children(View(store), R.Node(R.AsFile, id));
      ExtendsAt(swept, store, f.chunks[i]);
    }
  }

  lemma LeafIsRead(core: Odb, refs: Refs, entry: TreeEntry)
    requires Entire(core, refs) && Grounding.Kept(core, refs, core)(entry) && entry.kind != Dir
    ensures Proper(core, EntryNode(entry))
  {
    hide R.Reached, D.RootsOf, Proper;
  }

  lemma KeptIsInReach(core: Odb, refs: Refs, node: Node)
    requires Good(node, Grounding.Kept(core, refs, core))
    ensures Good(node, InReach(core, refs))
    decreases node
  {
    hide ReachedBy, Proper, Short;
  }

  // The catalog reads the same in a swept store.
  lemma CatalogIsSpared(w: World, store: Odb, refs: Refs, swept: Odb, catalog: Catalog)
    requires WorldTrue(w) && Tidy(w, swept) && Entire(swept, refs) && Extends(swept, store)
    requires Represents(store, refs.retention, catalog)
    ensures Represents(swept, refs.retention, catalog)
  {
    hide WorldTrue, Tidy, Entire, Extends, LookAt, TreeEdits.Open, RecordIn, PathOf, IsPlace, ReachedBy, InReach;
    var root := Opening(refs.retention);
    CatalogRootIsKept(w, swept, refs);
    KeptIsInReach(swept, refs, root);
    forall q: Path
      ensures SpotAt(swept, root, q) == SpotAt(store, root, q)
      ensures RecordIn(swept, SpotAt(swept, root, q)) == RecordIn(store, SpotAt(store, root, q))
    {
      SpotIsSpared(store, refs, swept, root, q);
    }
    SameReading(store, swept, root, catalog);
  }

  lemma SameReading(store: Odb, swept: Odb, root: Node, catalog: Catalog)
    requires Shows(store, store, root, catalog)
    requires forall q :: SpotAt(swept, root, q) == SpotAt(store, root, q)
    requires forall q :: RecordIn(swept, SpotAt(swept, root, q)) == RecordIn(store, SpotAt(store, root, q))
    ensures Shows(swept, swept, root, catalog)
  {
    hide SpotAt, RecordIn, PathOf, IsPlace;
    forall q: Path
      ensures SpreadAt(q, SpotAt(swept, root, q))
    {
      assert SpreadAt(q, SpotAt(store, root, q));
    }
  }

  lemma CatalogRootIsKept(w: World, odb: Odb, refs: Refs)
    requires WorldTrue(w) && Tidy(w, odb) && Entire(odb, refs)
    ensures Good(Opening(refs.retention), Grounding.Kept(odb, refs, odb))
        && Hereditary(odb, Grounding.Kept(odb, refs, odb))
  {
    hide Entire, ReachedBy, Proper, Hereditary, Held, DirBlob, PathFits, CollisionFree, Short;
    KeptIsHereditary(odb, refs, odb);
    RootIsHeld(w.hash, odb, refs, odb);
    if refs.retention.Some? { TreeRootIsReached(odb, refs); }
    Lengths();
  }

  lemma TreeRootIsReached(odb: Odb, refs: Refs)
    requires refs.retention.Some?
    ensures R.Node(R.AsTree, refs.retention.value) in ReachedBy(odb, refs)
  {
    hide R.Reached, R.Ordinary, R.Catalog, D.RootsOf, View;
    RootsAre(refs);
    R.ReachedIsLeast(View(odb), D.RootsOf(refs));
    assert Rooted(refs, R.Node(R.AsTree, refs.retention.value));
  }

  lemma SpotIsSpared(store: Odb, refs: Refs, swept: Odb, root: Node, q: Path)
    requires Entire(swept, refs) && Extends(swept, store)
    requires Good(root, Grounding.Kept(swept, refs, swept)) && Hereditary(swept, Grounding.Kept(swept, refs, swept))
    requires Good(root, InReach(swept, refs))
    ensures SpotAt(swept, root, q) == SpotAt(store, root, q)
    ensures RecordIn(swept, SpotAt(swept, root, q)) == RecordIn(store, SpotAt(store, root, q))
  {
    hide Entire, Extends, LookAt, TreeEdits.Open, ReachedBy, InReach, Good, Hereditary, RecordIn, Proper;
    LookSame(swept, refs, store, root, q);
    if LookAt(swept, root, q).Found? {
      var node := LookAt(swept, root, q).node;
      LookIsGood(swept, root, q, Grounding.Kept(swept, refs, swept));
      KeptIsInReach(swept, refs, node);
      OpenSame(swept, refs, store, node);
      if node.Ref? && node.entry.kind != Dir { LeafReadsAlike(store, refs, swept, node.entry); }
    }
    NoLeafNoRecord(store, swept, SpotAt(swept, root, q));
  }

  lemma ProperIsThere(odb: Odb, n: R.Node)
    requires Proper(odb, n)
    ensures n.id in odb
  {
    hide FileReads, R.Sound;
  }

  lemma LeafReadsAlike(store: Odb, refs: Refs, swept: Odb, entry: TreeEntry)
    requires Entire(swept, refs) && Extends(swept, store) && Good(Ref(entry), Grounding.Kept(swept, refs, swept))
        && entry.kind != Dir
    ensures RecordIn(swept, Leaf(entry)) == RecordIn(store, Leaf(entry))
  {
    hide Entire, ReachedBy, DecodeFile, DecodeRecord, Proper, Grounding.Kept, Extends;
    LeafIsRead(swept, refs, entry);
    ProperIsThere(swept, EntryNode(entry));
    ExtendsAt(swept, store, entry.id);
  }

  lemma NoLeafNoRecord(store: Odb, swept: Odb, spot: Spot)
    ensures !spot.Leaf? ==> RecordIn(swept, spot) == RecordIn(store, spot)
  {
    hide DecodeFile, DecodeRecord;
  }

  // A sweep spares whatever is reached.
  lemma SweepSpares(store: Odb, refs: Refs)
    requires Entire(store, refs) && M.Mark(View(store), D.RootsOf(refs)).Some?
    ensures var live := M.Mark(View(store), D.RootsOf(refs)).value;
      Spared(store, refs, map id | id in store && id in live :: store[id])
  {
    hide Entire, M.Mark, View, D.RootsOf, R.Reached, R.Unconfused, Collecting.AllSound, Collecting.Shallow;
    EntireIsUnconfused(store, refs);
    Collecting.MarkIsExact(View(store), D.RootsOf(refs));
    forall n | n in ReachedBy(store, refs)
      ensures n.id in store && n.id in R.Ids(ReachedBy(store, refs))
    {
      ReachedIsThere(store, refs, n);
    }
  }

  lemma SparedIsPart(store: Odb, refs: Refs, swept: Odb)
    requires Spared(store, refs, swept)
    ensures Extends(swept, store)
  {
    hide ReachedBy;
  }

  lemma TidyLess(w: World, store: Odb, swept: Odb)
    requires Tidy(w, store) && Extends(swept, store)
    ensures Tidy(w, swept)
  {
  }

  lemma SweepHolds(w: World, l: Ledger)
    requires WorldTrue(w) && Holds(w, l)
    ensures Holds(w, Next(w, l, SweepStore))
  {
    hide *;
    var mark := M.Mark(View(l.store), D.RootsOf(l.s.refs));
    HeldIs(w, l);
    SweptIs(w, l);
    if l.s.pending.None? && mark.Some? {
      var swept: Odb := map id | id in l.store && id in mark.value :: l.store[id];
      SettledIs(l.store, l.s.refs);
      SettledIs(swept, l.s.refs);
      HeldIs(w, l.(store := swept));
      SweepSpares(l.store, l.s.refs);
      SparedIsEntire(l.store, l.s.refs, swept);
      SparedIsPart(l.store, l.s.refs, swept);
      TidyLess(w, l.store, swept);
      var catalog: Catalog :| Represents(l.store, l.s.refs.retention, catalog);
      CatalogIsSpared(w, l.store, l.s.refs, swept, catalog);
    }
  }

  // What holds of a node that is building no block.
  lemma HeldIs(w: World, l: Ledger)
    ensures Holds(w, l) ==> Tidy(w, l.store) && Settled(l.store, l.s.refs)
    ensures l.s.pending.None? && Tidy(w, l.store) && Settled(l.store, l.s.refs) ==> Holds(w, l)
  {
    hide Tidy, Settled, Indexes, AtHand;
  }

  lemma SweptIs(w: World, l: Ledger)
    ensures var mark := M.Mark(View(l.store), D.RootsOf(l.s.refs));
      Next(w, l, SweepStore)
      == if l.s.pending.Some? || mark.None? then l
         else l.(store := map id | id in l.store && id in mark.value :: l.store[id])
  {
    hide M.Mark, View, D.RootsOf, AllAtHand, EnvOf, VerbOf, Transact;
  }

  lemma ReachedIsThere(odb: Odb, refs: Refs, n: R.Node)
    requires Entire(odb, refs) && n in ReachedBy(odb, refs)
    ensures n.id in odb
  {
    hide ReachedBy, FileReads, R.Sound;
  }

  // ---- every history -----------------------------------------------------------------------------------

  lemma StepHolds(w: World, l: Ledger, e: Event)
    requires WorldTrue(w) && Holds(w, l) && Welcomed(w, l, e)
    ensures Holds(w, Next(w, l, e))
  {
    hide Holds, WorldTrue, Welcomed, Next;
    match e
    case Execute(who, height, call) => ExecuteHolds(w, l, who, height, call);
    case AdoptBlock => AdoptHolds(w, l);
    case AbortBlock => AbortHolds(w, l);
    case SweepStore => SweepHolds(w, l);
  }

  lemma BlankHolds(w: World)
    ensures Holds(w, BLANK_NODE)
  {
    hide Settled, Tidy, Indexes;
    BlankIsSettled();
    BlankIsTidy(w);
  }

  lemma BlankIsSettled()
    ensures Settled(BLANK_NODE.store, BLANK_NODE.s.refs)
  {
    hide Represents, Entire;
    EmptyIsEntire();
    EmptyRepresents();
  }

  lemma BlankIsTidy(w: World)
    ensures Tidy(w, BLANK_NODE.store)
  {
  }

  lemma EmptyRepresents()
    ensures Represents(map[], None, map[])
  {
    EmptyShows(map[], map[]);
  }

  // Whatever happens, what holds goes on holding.
  lemma {:induction false} HistoryKeeps(w: World, from: Ledger, events: seq<Event>)
    requires WorldTrue(w) && Holds(w, from) && AllWelcomed(w, from, events)
    ensures Holds(w, Run(w, from, events))
    decreases |events|
  {
    hide Holds, WorldTrue, Welcomed, Next;
    if events != [] {
      HistoryKeeps(w, from, events[..|events| - 1]);
      StepHolds(w, Run(w, from, events[..|events| - 1]), events[|events| - 1]);
    }
  }

  // Refs with a catalog: the mark succeeds exactly if all they reach is sound, and what is missing is
  // found exactly if nothing is corrupt.
  lemma MarkIffSound(odb: Odb, refs: Refs, catalog: Catalog)
    requires Represents(odb, refs.retention, catalog) && R.Unconfused(ReachedBy(odb, refs))
    ensures M.Mark(View(odb), D.RootsOf(refs)).Some? <==> Collecting.AllSound(View(odb), D.RootsOf(refs))
    ensures M.CollectMissing(View(odb), D.RootsOf(refs)).Some? <==> Collecting.NoneCorrupt(View(odb), D.RootsOf(refs))
  {
    hide Represents, R.Unconfused, M.Mark, M.CollectMissing, View, D.RootsOf, R.Reached, Collecting.AllSound,
      Collecting.NoneCorrupt,
      Collecting.Shallow;
    CatalogIsShallow(odb, refs, catalog);
    Collecting.MarkIsExact(View(odb), D.RootsOf(refs));
    Collecting.MissingIsExact(View(odb), D.RootsOf(refs));
  }

  // So the mark of settled refs never fails, and finds what is reached and no more.
  lemma SettledMarks(odb: Odb, refs: Refs)
    requires Settled(odb, refs)
    ensures M.Mark(View(odb), D.RootsOf(refs)) == Some(R.Ids(ReachedBy(odb, refs)))
  {
    hide Entire, Represents, R.Unconfused, M.Mark, M.CollectMissing, View, D.RootsOf, R.Reached, Collecting.AllSound,
      R.Ids,
      Collecting.Shallow;
    var catalog: Catalog :| Represents(odb, refs.retention, catalog);
    EntireIsUnconfused(odb, refs);
    MarkIffSound(odb, refs, catalog);
    Collecting.MarkIsExact(View(odb), D.RootsOf(refs));
  }

  // At every point of every history from an empty node - verbs accepted or refused, blocks adopted or
  // dropped, sweeps in between - all the refs reach is at hand, is what its place demands, and every
  // file of it reads; the mark of the committed refs succeeds and finds just that, so a sweep takes
  // nothing they reach.
  lemma EveryHistoryHolds(w: World, events: seq<Event>)
    requires WorldTrue(w) && AllWelcomed(w, BLANK_NODE, events)
    ensures var l := Run(w, BLANK_NODE, events);
      && Entire(AllAtHand(w, l), Effective(l.s)) && Entire(l.store, l.s.refs)
      && M.Mark(View(l.store), D.RootsOf(l.s.refs)) == Some(R.Ids(ReachedBy(l.store, l.s.refs)))
  {
    hide WorldTrue, AllWelcomed, Run, Entire, Represents, M.Mark, View, D.RootsOf, R.Reached, Tidy, Indexes, AllAtHand;
    BlankHolds(w);
    HistoryKeeps(w, BLANK_NODE, events);
    var l := Run(w, BLANK_NODE, events);
    HoldsNow(w, l);
    SettledMarks(l.store, l.s.refs);
  }
}
