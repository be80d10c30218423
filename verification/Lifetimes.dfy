// A node over crashes and restarts (crates/duckfs/disk/src/commit.rs:26-107 around
// crates/duckfs/core/src/fs.rs:336-930): blocks are what the verbs build on the refs in memory and
// the objects at hand, and that is all crash safety asks of them.
module Lifetimes {
  import opened Wrappers
  import opened Kinds
  import opened RefsImage
  import opened Records
  import opened Verbs
  import opened TreeEdits
  import opened Grounding
  import opened Catalogs
  import opened Histories
  import C = Commits
  import Collecting
  import M = Marking
  import R = Reachability
  import D = Durability

  // Which object an id stands for: content addressing, once and for all.
  type Bodies = Id -> Blob

  ghost predicate BodiesTrue(w: World, bodies: Bodies) {
    && (forall b :: b in w.known ==> bodies(w.hash(b)) == b)
  }

  // Ids of known objects only.
  ghost predicate AllKnownIds(w: World, bodies: Bodies, ids: set<Id>) {
    forall id :: id in ids ==> bodies(id) in w.known && w.hash(bodies(id)) == id
  }

  ghost function OdbOf(bodies: Bodies, ids: set<Id>): Odb {
    map id | id in ids :: bodies(id)
  }

  ghost function ContentsOf(bodies: Bodies): D.Contents {
    (id: Id) => ObjectOf(bodies(id))
  }

  lemma StoreIsView(bodies: Bodies, ids: set<Id>)
    ensures D.StoreOf(ContentsOf(bodies), ids) == View(OdbOf(bodies, ids))
  {
    hide ObjectOf;
  }

  // Settled refs are all that durability asks for.
  lemma SettledIsSane(bodies: Bodies, ids: set<Id>, refs: Refs)
    requires Settled(OdbOf(bodies, ids), refs)
    ensures D.Sane(ContentsOf(bodies), ids, refs)
    ensures D.Needed(ContentsOf(bodies), ids, refs) == R.Ids(ReachedBy(OdbOf(bodies, ids), refs))
  {
    hide Entire, Represents, R.Unconfused, R.Reached, D.RootsOf, View, ContentsOf, Collecting.AllSound;
    StoreIsView(bodies, ids);
    EntireIsUnconfused(OdbOf(bodies, ids), refs);
  }

  // ---- blocks from verbs -------------------------------------------------------------------------------

  // The node as it is when the next block begins.
  ghost function Standing(bodies: Bodies, n: D.Machine): Ledger {
    Ledger(OdbOf(bodies, n.seen), State(n.memory, None, None))
  }

  ghost function IdsOf(hash: Hash, blobs: seq<Blob>): seq<Id> {
    seq(|blobs|, i requires 0 <= i < |blobs| => hash(blobs[i]))
  }

  predicate VerbsOnly(calls: seq<Event>) {
    forall i :: 0 <= i < |calls| ==> calls[i].Execute?
  }

  // This block is what these verbs make of the node.
  ghost predicate BlockOf(w: World, bodies: Bodies, n: D.Machine, calls: seq<Event>, objects: seq<Id>, refs: Refs) {
    && VerbsOnly(calls) && AllWelcomed(w, Standing(bodies, n), calls)
    && var l := Run(w, Standing(bodies, n), calls);
       l.s.pending.Some? && l.s.pending.value.refs == refs && IdsOf(w.hash, l.s.pending.value.objects) == objects
  }

  // What can happen next: a block the verbs built, or any other step of the machine, crashes included.
  ghost predicate Arises(w: World, bodies: Bodies, n: D.Machine, e: D.Event) {
    match e
    case Begin(objects, refs, _) => n.phase.Idle? && exists calls :: BlockOf(w, bodies, n, calls, objects, refs)
    case _ => D.Enabled(ContentsOf(bodies), n, e)
  }

  ghost predicate Lives(w: World, bodies: Bodies, events: seq<D.Event>) {
    events == [] ||
    (Lives(w, bodies, events[..|events| - 1])
     && Arises(w, bodies, D.After(ContentsOf(bodies), events[..|events| - 1]), events[|events| - 1]))
  }

  // ---- the invariant -----------------------------------------------------------------------------------

  ghost predicate PhaseSettled(w: World, bodies: Bodies, n: D.Machine) {
    match n.phase
    case Putting(left, refs, _) =>
      var ids := n.seen + (set id | id in left);
      AllKnownIds(w, bodies, ids) && Settled(OdbOf(bodies, ids), refs)
    case Synced(refs, _) => Settled(OdbOf(bodies, n.durable), refs)
    case Sweeping(todo, _) => AllKnownIds(w, bodies, todo)
    case _ => true
  }

  ghost predicate Sturdy(w: World, bodies: Bodies, n: D.Machine) {
    && AllKnownIds(w, bodies, n.seen) && AllKnownIds(w, bodies, n.durable) && AllKnownIds(w, bodies, n.loose)
    && Settled(OdbOf(bodies, n.durable), D.SavedRefs(n)) && PhaseSettled(w, bodies, n)
  }

  lemma OdbGrows(bodies: Bodies, ids: set<Id>, more: set<Id>)
    requires ids <= more
    ensures Extends(OdbOf(bodies, ids), OdbOf(bodies, more))
  {
  }

  lemma SettledGrows(bodies: Bodies, ids: set<Id>, more: set<Id>, refs: Refs)
    requires Settled(OdbOf(bodies, ids), refs) && ids <= more
    ensures Settled(OdbOf(bodies, more), refs)
  {
    hide Settled, Extends, OdbOf, Rooted;
    OdbGrows(bodies, ids, more);
    LessIsSettled(OdbOf(bodies, ids), refs, OdbOf(bodies, more), refs);
  }

  lemma SettledShrinks(w: World, bodies: Bodies, ids: set<Id>, fewer: set<Id>, refs: Refs)
    requires WorldTrue(w) && AllKnownIds(w, bodies, ids)
    requires Settled(OdbOf(bodies, ids), refs) && fewer <= ids && D.Needed(ContentsOf(bodies), ids, refs) <= fewer
    ensures Settled(OdbOf(bodies, fewer), refs)
  {
    SettledIsSane(bodies, ids, refs);
    hide Entire, Represents, ReachedBy, WorldTrue, D.Needed, ContentsOf, Extends, Tidy;
    var store, swept := OdbOf(bodies, ids), OdbOf(bodies, fewer);
    OdbGrows(bodies, fewer, ids);
    forall n | n in ReachedBy(store, refs)
      ensures n.id in swept
    {
      assert n.id in R.Ids(ReachedBy(store, refs));
    }
    SparedIsEntire(store, refs, swept);
    var catalog: Catalog :| Represents(store, refs.retention, catalog);
    KnownIsTidy(w, bodies, fewer);
    CatalogIsSpared(w, store, refs, swept, catalog);
  }

  lemma KnownIsTidy(w: World, bodies: Bodies, ids: set<Id>)
    requires AllKnownIds(w, bodies, ids)
    ensures Tidy(w, OdbOf(bodies, ids))
  {
  }

  lemma StandingHolds(w: World, bodies: Bodies, n: D.Machine)
    requires WorldTrue(w) && Sturdy(w, bodies, n) && D.Safe(ContentsOf(bodies), n) && n.phase.Idle?
    ensures Holds(w, Standing(bodies, n))
  {
    hide Settled, WorldTrue, Tidy, D.Sane, D.Needed, AllKnownIds, OdbOf;
    KnownIsTidy(w, bodies, n.seen);
    SettledGrows(bodies, n.durable, n.seen, n.memory);
  }

  lemma AtHandIsOdb(w: World, bodies: Bodies, ids: set<Id>, blobs: seq<Blob>)
    requires BodiesTrue(w, bodies) && Known(w, blobs) && AllKnownIds(w, bodies, ids)
    ensures var all := ids + (set id | id in IdsOf(w.hash, blobs));
      C.AtHand(w.hash, OdbOf(bodies, ids), blobs) == OdbOf(bodies, all) && AllKnownIds(w, bodies, all)
    decreases |blobs|
  {
    if blobs == [] {
      assert ids + (set id | id in IdsOf(w.hash, blobs)) == ids;
    } else {
      var front, last := blobs[..|blobs| - 1], blobs[|blobs| - 1];
      AtHandIsOdb(w, bodies, ids, front);
      assert IdsOf(w.hash, blobs) == IdsOf(w.hash, front) + [w.hash(last)];
      assert (set id | id in IdsOf(w.hash, blobs)) == (set id | id in IdsOf(w.hash, front)) + {w.hash(last)};
    }
  }

  lemma {:induction false} VerbsKeepTheStore(w: World, from: Ledger, calls: seq<Event>)
    requires VerbsOnly(calls)
    ensures Run(w, from, calls).store == from.store
    decreases |calls|
  {
    if calls != [] {
      var front, last := calls[..|calls| - 1], calls[|calls| - 1];
      assert VerbsOnly(front);
      VerbsKeepTheStore(w, from, front);
      hide Next;
      Executes(w, Run(w, from, front), last.who, last.height, last.call);
    }
  }

  // A block the verbs built may begin: its refs are settled over what is at hand and what it brings.
  lemma BlockIsSettled(w: World, bodies: Bodies, n: D.Machine, calls: seq<Event>, objects: seq<Id>, refs: Refs)
    requires WorldTrue(w) && BodiesTrue(w, bodies) && Sturdy(w, bodies, n) && D.Safe(ContentsOf(bodies), n)
        && n.phase.Idle?
    requires BlockOf(w, bodies, n, calls, objects, refs)
    ensures var ids := n.seen + (set id | id in objects);
        AllKnownIds(w, bodies, ids) && Settled(OdbOf(bodies, ids), refs)
  {
    hide *;
    StandingHolds(w, bodies, n);
    SturdyKnows(w, bodies, n);
    BlockIs(w, bodies, n, calls, objects, refs);
    HistoryKeeps(w, Standing(bodies, n), calls);
    var l := Run(w, Standing(bodies, n), calls);
    VerbsKeepTheStore(w, Standing(bodies, n), calls);
    HoldsNow(w, l);
    PendingIs(l.s);
    AtHandIsOdb(w, bodies, n.seen, l.s.pending.value.objects);
  }

  lemma BlockIs(w: World, bodies: Bodies, n: D.Machine, calls: seq<Event>, objects: seq<Id>, refs: Refs)
    requires BlockOf(w, bodies, n, calls, objects, refs)
    ensures VerbsOnly(calls) && AllWelcomed(w, Standing(bodies, n), calls)
    ensures Standing(bodies, n).store == OdbOf(bodies, n.seen)
    ensures var l := Run(w, Standing(bodies, n), calls);
      l.s.pending.Some? && l.s.pending.value.refs == refs && IdsOf(w.hash, l.s.pending.value.objects) == objects
  {
    hide VerbsOnly, AllWelcomed, OdbOf, Run, IdsOf;
  }

  lemma SturdyKnows(w: World, bodies: Bodies, n: D.Machine)
    requires Sturdy(w, bodies, n)
    ensures AllKnownIds(w, bodies, n.seen)
  {
    hide AllKnownIds, Settled;
  }

  lemma PendingIs(s: State)
    ensures s.pending.Some? ==> Effective(s) == s.pending.value.refs && ObjectsOf(s) == s.pending.value.objects
  {
  }

  lemma BeginIsSturdy(w: World, bodies: Bodies, n: D.Machine, e: D.Event)
    requires WorldTrue(w) && BodiesTrue(w, bodies) && Sturdy(w, bodies, n) && D.Safe(ContentsOf(bodies), n)
    requires Arises(w, bodies, n, e) && e.Begin?
    ensures D.Enabled(ContentsOf(bodies), n, e) && Sturdy(w, bodies, D.Next(ContentsOf(bodies), n, e))
  {
    hide WorldTrue, BodiesTrue, Settled, AllKnownIds, OdbOf, D.Safe, D.Sane, D.Needed, BlockOf, ContentsOf;
    var calls :| BlockOf(w, bodies, n, calls, e.objects, e.refs);
    BlockIsSettled(w, bodies, n, calls, e.objects, e.refs);
    SettledIsSane(bodies, n.seen + (set id | id in e.objects), e.refs);
  }

  lemma SyncIsSturdy(w: World, bodies: Bodies, n: D.Machine)
    requires Sturdy(w, bodies, n) && n.durable <= n.seen && D.Enabled(ContentsOf(bodies), n, D.SyncDirs)
    ensures Sturdy(w, bodies, D.Next(ContentsOf(bodies), n, D.SyncDirs))
  {
    hide Settled, AllKnownIds, OdbOf, ContentsOf, M.Mark;
    assert n.seen + (set id | id in n.phase.left) == n.seen;
    SettledGrows(bodies, n.durable, n.seen, D.SavedRefs(n));
  }

  lemma CrashIsSturdy(w: World, bodies: Bodies, n: D.Machine, survivors: set<Id>)
    requires Sturdy(w, bodies, n) && n.durable <= survivors <= n.durable + n.loose
    ensures Sturdy(w, bodies, D.Next(ContentsOf(bodies), n, D.Crash(survivors)))
  {
    hide Settled, AllKnownIds, OdbOf, ContentsOf, M.Mark;
    NothingIsKnown(w, bodies);
    CrashIsKnown(w, bodies, n, survivors);
    SettledGrows(bodies, n.durable, survivors, D.SavedRefs(n));
  }

  // The saves and the steps between them move no object.
  lemma QuietIsSturdy(w: World, bodies: Bodies, n: D.Machine, e: D.Event)
    requires Sturdy(w, bodies, n) && D.MemoryIsSaved(n) && D.Enabled(ContentsOf(bodies), n, e)
    requires e.SaveRefs? || e.AdoptRefs? || e.StopSweep? || e.SaveWatermark? || e.Fail?
    ensures Sturdy(w, bodies, D.Next(ContentsOf(bodies), n, e))
  {
    hide Settled, AllKnownIds, OdbOf, ContentsOf, M.Mark;
    NothingIsKnown(w, bodies);
  }

  lemma SafeFacts(contents: D.Contents, n: D.Machine)
    requires D.Safe(contents, n)
    ensures D.MemoryIsSaved(n) && n.durable <= n.seen
  {
    hide D.Sane, D.Needed, D.LogHolds;
  }

  lemma StepIsSturdy(w: World, bodies: Bodies, n: D.Machine, e: D.Event)
    requires WorldTrue(w) && BodiesTrue(w, bodies) && Sturdy(w, bodies, n) && D.Safe(ContentsOf(bodies), n)
    requires Arises(w, bodies, n, e)
    ensures D.Enabled(ContentsOf(bodies), n, e) && Sturdy(w, bodies, D.Next(ContentsOf(bodies), n, e))
  {
    hide WorldTrue, BodiesTrue, Sturdy, D.Safe, D.MemoryIsSaved, D.Next, D.Sane, BlockOf, ContentsOf;
    SafeFacts(ContentsOf(bodies), n);
    match e
    case Begin(_, _, _) => BeginIsSturdy(w, bodies, n, e);
    case PutNext => PutIsSturdy(w, bodies, n);
    case SyncDirs => SyncIsSturdy(w, bodies, n);
    case CheckGc => CheckIsSturdy(w, bodies, n);
    case RemoveOne(id) => RemoveIsSturdy(w, bodies, n, id);
    case Crash(survivors) => CrashIsSturdy(w, bodies, n, survivors);
    case _ => QuietIsSturdy(w, bodies, n, e);
  }

  lemma NothingIsKnown(w: World, bodies: Bodies)
    ensures AllKnownIds(w, bodies, {})
  {
  }

  lemma CrashIsKnown(w: World, bodies: Bodies, n: D.Machine, survivors: set<Id>)
    requires AllKnownIds(w, bodies, n.durable) && AllKnownIds(w, bodies, n.loose) && survivors <= n.durable + n.loose
    ensures AllKnownIds(w, bodies, survivors)
  {
  }

  lemma PutIsSturdy(w: World, bodies: Bodies, n: D.Machine)
    requires Sturdy(w, bodies, n) && n.phase.Putting? && n.phase.left != []
    ensures Sturdy(w, bodies, D.Next(ContentsOf(bodies), n, D.PutNext))
  {
    hide Settled, OdbOf, M.Mark, ContentsOf;
    var left := n.phase.left;
    assert left == [left[0]] + left[1..];
    assert left[0] in n.seen + (set id | id in left);
    assert n.seen + {left[0]} + (set id | id in left[1..]) == n.seen + (set id | id in left);
  }

  // What is still to be swept, nothing saved needs.
  lemma SweepFacts(contents: D.Contents, n: D.Machine, id: Id)
    requires D.Safe(contents, n) && n.phase.Sweeping? && id in n.phase.todo
    ensures n.memory == D.SavedRefs(n) && id !in D.Needed(contents, n.durable, n.memory)
  {
    hide D.Sane, D.Needed, D.WindowOf, D.LogHolds;
  }

  lemma RemoveIsSturdy(w: World, bodies: Bodies, n: D.Machine, id: Id)
    requires WorldTrue(w) && Sturdy(w, bodies, n) && D.Safe(ContentsOf(bodies), n) && n.phase.Sweeping?
        && id in n.phase.todo
    ensures Sturdy(w, bodies, D.Next(ContentsOf(bodies), n, D.RemoveOne(id)))
  {
    hide WorldTrue, Settled, OdbOf, D.Safe, D.Sane, D.Needed, M.Mark, D.RootsOf, D.StoreOf, ContentsOf;
    SweepFacts(ContentsOf(bodies), n, id);
    SettledIsSane(bodies, n.durable, n.memory);
    D.NeededIsPresent(ContentsOf(bodies), n.durable, n.memory);
    SettledShrinks(w, bodies, n.durable, n.durable - {id}, n.memory);
  }

  lemma CheckIsSturdy(w: World, bodies: Bodies, n: D.Machine)
    requires Sturdy(w, bodies, n) && n.phase.Adopted?
    ensures Sturdy(w, bodies, D.Next(ContentsOf(bodies), n, D.CheckGc))
  {
    hide Settled, OdbOf, M.Mark, ContentsOf, D.RootsOf, D.StoreOf, D.WindowOf;
  }

  // ---- every life ----------------------------------------------------------------------------------------

  lemma BlankIsSturdy(w: World, bodies: Bodies)
    ensures Sturdy(w, bodies, D.BLANK)
  {
    hide Entire, Represents;
    EmptyIsEntire();
    EmptyRepresents();
    assert OdbOf(bodies, {}) == map[];
  }

  lemma {:induction false} EveryLifeIsSturdy(w: World, bodies: Bodies, events: seq<D.Event>)
    requires WorldTrue(w) && BodiesTrue(w, bodies) && Lives(w, bodies, events)
    ensures D.Happens(ContentsOf(bodies), events) && Sturdy(w, bodies, D.After(ContentsOf(bodies), events))
    decreases |events|
  {
    hide WorldTrue, BodiesTrue, Sturdy, Arises, D.Enabled, D.Next, D.Safe, ContentsOf;
    if events == [] {
      BlankIsSturdy(w, bodies);
    } else {
      var front := events[..|events| - 1];
      EveryLifeIsSturdy(w, bodies, front);
      D.EveryPointIsSafe(ContentsOf(bodies), front);
      StepIsSturdy(w, bodies, D.After(ContentsOf(bodies), front), events[|events| - 1]);
    }
  }

  // Whatever verbs a node runs and wherever it crashes: what is saved reaches only what is sure to
  // survive, every file of it can be read, and no refs are in memory that were not saved.
  lemma CrashSafetyOfVerbs(w: World, bodies: Bodies, events: seq<D.Event>)
    requires WorldTrue(w) && BodiesTrue(w, bodies) && Lives(w, bodies, events)
    ensures var n := D.After(ContentsOf(bodies), events);
      && Entire(OdbOf(bodies, n.durable), D.SavedRefs(n))
      && R.Ids(ReachedBy(OdbOf(bodies, n.durable), D.SavedRefs(n))) <= n.durable
      && n.memory in n.saves && (n.memory != D.SavedRefs(n) ==> n.phase.Saved?)
  {
    hide WorldTrue, BodiesTrue, Lives, Entire, Represents, D.Sane, D.Needed, D.After, D.Happens, ContentsOf, OdbOf,
      ReachedBy, AllKnownIds,
      PhaseSettled;
    EveryLifeIsSturdy(w, bodies, events);
    D.CrashSafety(ContentsOf(bodies), events);
    var n := D.After(ContentsOf(bodies), events);
    SettledIsSane(bodies, n.durable, D.SavedRefs(n));
  }
}
