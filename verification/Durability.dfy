// The order in which a block becomes durable (crates/duckfs/disk/src/commit.rs:15-107), with a crash
// or a failed write possible between any two steps.
module Durability {
  import opened Wrappers
  import opened Kinds
  import opened Order
  import opened Sorting
  import opened Layouts
  import opened RefsImage
  import opened Reachability
  import opened Marking
  import opened Collecting

  const GC_PERIOD_BLOCKS: nat := 1024

  function WindowOf(height: nat): nat {
    height / GC_PERIOD_BLOCKS
  }

  predicate GcDue(height: nat, watermark: nat) {
    WindowOf(height) > WindowOf(watermark)
  }

  // A sweep is due exactly if a multiple of 1024 lies above the watermark and not above the height.
  lemma DueExactly(height: nat, watermark: nat)
    ensures GcDue(height, watermark) <==> exists k: nat :: watermark < 1024 * k <= height
  {
    if GcDue(height, watermark) {
      assert watermark < 1024 * WindowOf(height) <= height;
    }
    if exists k: nat :: watermark < 1024 * k <= height {
      var k: nat :| watermark < 1024 * k <= height;
      assert WindowOf(watermark) < k <= WindowOf(height);
    }
  }

  // What the refs keep alive (crates/duckfs/core/src/gc.rs:44-77).
  function RootsOf(r: Refs): Roots {
    BelowIsTotal();
    var pins := Entries(Below, r.pins);
    Roots(r.head, r.window, seq(|pins|, i requires 0 <= i < |pins| => pins[i].1.snapshot),
        Sorted(Below, r.staging.Keys), r.retention)
  }

  // Objects are content-addressed: an id stands for one object wherever it is stored.
  type Contents = Id -> Object

  function StoreOf(contents: Contents, ids: set<Id>): (store: Store)
    ensures store.Keys == ids && forall id :: id in ids ==> store[id] == contents(id)
  {
    map id | id in ids :: contents(id)
  }

  // Everything the refs reach is among these ids, is what its place demands, and is reached as one
  // thing only.
  ghost predicate Sane(contents: Contents, ids: set<Id>, refs: Refs) {
    AllSound(StoreOf(contents, ids), RootsOf(refs)) && Unconfused(Reached(StoreOf(contents, ids), RootsOf(refs)))
  }

  ghost function Needed(contents: Contents, ids: set<Id>, refs: Refs): set<Id> {
    Ids(Reached(StoreOf(contents, ids), RootsOf(refs)))
  }

  // Only the objects the refs reach matter.
  lemma OnlyTheNeededMatter(contents: Contents, ids: set<Id>, others: set<Id>, refs: Refs)
    requires Sane(contents, ids, refs) && Needed(contents, ids, refs) <= others
    ensures Sane(contents, others, refs) && Needed(contents, others, refs) == Needed(contents, ids, refs)
  {
    hide Reached, Edges, RootsOf, Unconfused;
    var roots, a, b := RootsOf(refs), StoreOf(contents, ids), StoreOf(contents, others);
    ReachedIsLeast(a, roots);
    ReachedIsLeast(b, roots);
    var all := Reached(a, roots);
    forall n | n in all
      ensures n.id in a && n.id in b && Children(b, n) == Children(a, n) && Edges(b, n) == Edges(a, n)
    {
      assert n.id in Ids(all);
      SameObject(a, b, n);
    }
    assert Closed(b, all);
    var part := Reached(b, roots);
    assert part <= all;
    assert Closed(a, part);
    assert part == all;
  }

  lemma SameObject(a: Store, b: Store, n: Node)
    requires n.id in a && n.id in b && a[n.id] == b[n.id]
    ensures Edges(b, n) == Edges(a, n) && Children(b, n) == Children(a, n)
  {
  }

  lemma NeededIsPresent(contents: Contents, ids: set<Id>, refs: Refs)
    requires Sane(contents, ids, refs)
    ensures Needed(contents, ids, refs) <= ids
  {
    hide Reached, Edges, RootsOf, Unconfused;
  }

  // ---- the machine ---------------------------------------------------------------------------------

  datatype Envelope = Envelope(refs: Refs, height: nat, watermark: nat)

  datatype Phase =
    | Idle
    | Putting(left: seq<Id>, refs: Refs, height: nat)
    | Synced(refs: Refs, height: nat)
    | Saved(refs: Refs, height: nat)
    | Adopted(height: nat)
    | Sweeping(todo: set<Id>, height: nat)

  // A sweep that was attempted, and whether its watermark was then saved.
  datatype Attempt = Attempt(window: nat, recorded: bool)

  // `seen` is the store the node works on; `durable` is sure to survive a crash and `loose` may or
  // may not. `memory` and `watermark` live in the process only.
  datatype Machine = Machine(seen: set<Id>, durable: set<Id>, loose: set<Id>, saved: Option<Envelope>,
                         memory: Refs, watermark: nat, phase: Phase, saves: set<Refs>, attempts: seq<Attempt>)

  datatype Event =
    | Begin(objects: seq<Id>, refs: Refs, height: nat)
    | PutNext
    | SyncDirs
    | SaveRefs
    | AdoptRefs
    | CheckGc
    | RemoveOne(id: Id)
    | StopSweep
    | SaveWatermark
    | Fail
    | Crash(survivors: set<Id>)

  const BLANK: Machine := Machine({}, {}, {}, None, EMPTY_REFS, 0, Idle, {EMPTY_REFS}, [])

  function SavedRefs(n: Machine): Refs {
    if n.saved.Some? then n.saved.value.refs else EMPTY_REFS
  }

  function SavedWatermark(n: Machine): nat {
    if n.saved.Some? then n.saved.value.watermark else 0
  }

  // What can happen next. A block's refs reach only what the store already keeps or the block
  // itself brings.
  ghost predicate Enabled(contents: Contents, n: Machine, e: Event) {
    match e
    case Begin(objects, refs, _) => n.phase.Idle? && Sane(contents, n.seen + (set id | id in objects), refs)
    case PutNext => n.phase.Putting? && n.phase.left != []
    case SyncDirs => n.phase.Putting? && n.phase.left == []
    case SaveRefs => n.phase.Synced?
    case AdoptRefs => n.phase.Saved?
    case CheckGc => n.phase.Adopted?
    case RemoveOne(id) => n.phase.Sweeping? && id in n.phase.todo
    case StopSweep => n.phase.Sweeping?
    case SaveWatermark => n.phase.Sweeping? && n.phase.todo == {}
    case Fail => n.phase.Putting? || n.phase.Synced? || (n.phase.Sweeping? && n.phase.todo == {})
    case Crash(survivors) => n.durable <= survivors <= n.durable + n.loose
  }

  function Next(contents: Contents, n: Machine, e: Event): Machine {
    match e
    case Begin(objects, refs, height) => n.(phase := Putting(objects, refs, height))
    case PutNext =>
      if n.phase.Putting? && n.phase.left != [] then
        var id := n.phase.left[0];
        n.(seen := n.seen + {id}, loose := n.loose + {id}, phase := n.phase.(left := n.phase.left[1..]))
      else n
    case SyncDirs => if n.phase.Putting? then n.(durable := n.seen, phase := Synced(n.phase.refs, n.phase.height))
        else n
    case SaveRefs =>
      if n.phase.Synced? then
        n.(saved := Some(Envelope(n.phase.refs, n.phase.height, n.watermark)), saves := n.saves + {n.phase.refs},
           phase := Saved(n.phase.refs, n.phase.height))
      else n
    case AdoptRefs => if n.phase.Saved? then n.(memory := n.phase.refs, phase := Adopted(n.phase.height)) else n
    case CheckGc =>
      if !n.phase.Adopted? then n
      else if !GcDue(n.phase.height, n.watermark) then n.(phase := Idle)
      else
        var live := Mark(StoreOf(contents, n.seen), RootsOf(n.memory));
        n.(phase := Sweeping(if live.None? then {} else n.seen - live.value, n.phase.height),
           attempts := n.attempts + [Attempt(WindowOf(n.phase.height), false)])
    case RemoveOne(id) =>
      if n.phase.Sweeping? then
        n.(seen := n.seen - {id}, durable := n.durable - {id}, loose := n.loose + {id},
            phase := n.phase.(todo := n.phase.todo - {id}))
      else n
    case StopSweep => if n.phase.Sweeping? then n.(phase := n.phase.(todo := {})) else n
    case SaveWatermark =>
      if n.phase.Sweeping? && n.attempts != [] then
        n.(saved := Some(Envelope(n.memory, n.phase.height, n.phase.height)), watermark := n.phase.height,
            phase := Idle,
           attempts := n.attempts[|n.attempts| - 1 := n.attempts[|n.attempts| - 1].(recorded := true)])
      else n
    case Fail => n.(phase := Idle)
    case Crash(survivors) =>
      n.(seen := survivors, durable := survivors, loose := {}, memory := SavedRefs(n), watermark := SavedWatermark(n),
          phase := Idle)
  }

  // ---- the invariant -------------------------------------------------------------------------------

  // Whatever is saved reaches only durable objects.
  ghost predicate SavedIsDurable(contents: Contents, n: Machine) {
    Sane(contents, n.durable, SavedRefs(n))
  }

  // The refs in memory have been saved: they are the saved ones, except between the save and the
  // adoption, when they are the ones saved before.
  predicate MemoryIsSaved(n: Machine) {
    n.memory in n.saves && (!n.phase.Saved? ==> n.memory == SavedRefs(n))
  }

  ghost predicate PhaseHolds(contents: Contents, n: Machine) {
    match n.phase
    case Putting(left, refs, _) => Sane(contents, n.seen + (set id | id in left), refs)
    case Synced(refs, _) => Sane(contents, n.durable, refs)
    case Saved(refs, _) => SavedRefs(n) == refs && refs in n.saves && n.saved.Some?
    case Adopted(_) => n.saved.Some?
    case Sweeping(todo, height) =>
      && todo !! Needed(contents, n.durable, n.memory) && n.saved.Some?
      && n.attempts != [] && n.attempts[|n.attempts| - 1] == Attempt(WindowOf(height), false)
        && GcDue(height, n.watermark)
    case Idle => true
  }

  predicate DiskHolds(n: Machine) {
    n.durable <= n.seen <= n.durable + n.loose && n.watermark == SavedWatermark(n)
  }

  // A recorded sweep's window is behind the watermark, and behind every later attempt's.
  predicate LogHolds(attempts: seq<Attempt>, watermark: nat) {
    && (forall i :: 0 <= i < |attempts| && attempts[i].recorded ==> attempts[i].window <= WindowOf(watermark))
    && (forall i, j :: 0 <= i < j < |attempts| && attempts[i].recorded ==> attempts[i].window < attempts[j].window)
  }

  ghost predicate Safe(contents: Contents, n: Machine) {
    SavedIsDurable(contents, n) && MemoryIsSaved(n) && PhaseHolds(contents, n) && DiskHolds(n)
        && LogHolds(n.attempts, n.watermark)
  }

  lemma BlankIsSafe(contents: Contents)
    ensures Safe(contents, BLANK)
  {
    assert Entries(Below, EMPTY_REFS.pins) == [] && Sorted(Below, EMPTY_REFS.staging.Keys) == [] by { BelowIsTotal(); }
    var roots := RootsOf(EMPTY_REFS);
    assert Ordinary(roots) + Catalog(roots) == [];
    ReachedIsLeast(StoreOf(contents, {}), roots);
    assert Closed(StoreOf(contents, {}), {}) && Holds({}, Ordinary(roots) + Catalog(roots));
  }

  lemma LogRecords(attempts: seq<Attempt>, watermark: nat, height: nat)
    requires LogHolds(attempts, watermark) && GcDue(height, watermark)
    requires attempts != [] && attempts[|attempts| - 1] == Attempt(WindowOf(height), false)
    ensures LogHolds(attempts[|attempts| - 1 := Attempt(WindowOf(height), true)], height)
  {
    hide WindowOf;
  }

  lemma LogGrows(attempts: seq<Attempt>, watermark: nat, height: nat)
    requires LogHolds(attempts, watermark) && GcDue(height, watermark)
    ensures LogHolds(attempts + [Attempt(WindowOf(height), false)], watermark)
  {
    hide WindowOf;
  }

  lemma HeadIsPut(seen: set<Id>, left: seq<Id>)
    requires left != []
    ensures seen + {left[0]} + (set id | id in left[1..]) == seen + (set id | id in left)
  {
    assert left == [left[0]] + left[1..];
  }

  lemma StepIsSafe(contents: Contents, n: Machine, e: Event)
    requires Safe(contents, n) && Enabled(contents, n, e)
    ensures Safe(contents, Next(contents, n, e))
  {
    hide Sane, Needed, Mark, RootsOf, WindowOf, StoreOf, LogHolds;
    match e
    case Begin(_, _, _) =>
    case PutNext => HeadIsPut(n.seen, n.phase.left);
    case SyncDirs =>
      assert n.seen + (set id | id in n.phase.left) == n.seen;
      NeededIsPresent(contents, n.durable, SavedRefs(n));
      OnlyTheNeededMatter(contents, n.durable, n.seen, SavedRefs(n));
    case SaveRefs =>
    case AdoptRefs =>
    case CheckGc => CheckIsSafe(contents, n);
    case RemoveOne(id) =>
      NeededIsPresent(contents, n.durable, n.memory);
      OnlyTheNeededMatter(contents, n.durable, n.durable - {id}, n.memory);
    case StopSweep =>
    case SaveWatermark => LogRecords(n.attempts, n.watermark, n.phase.height);
    case Fail =>
    case Crash(survivors) =>
      NeededIsPresent(contents, n.durable, SavedRefs(n));
      OnlyTheNeededMatter(contents, n.durable, survivors, SavedRefs(n));
  }

  lemma MarkIsNeeded(contents: Contents, ids: set<Id>, refs: Refs)
    requires Sane(contents, ids, refs) && Mark(StoreOf(contents, ids), RootsOf(refs)).Some?
    ensures Mark(StoreOf(contents, ids), RootsOf(refs)).value == Needed(contents, ids, refs)
  {
    hide Mark, RootsOf, Reached, Edges;
    MarkIsExact(StoreOf(contents, ids), RootsOf(refs));
  }

  // The sweep goes for nothing the refs need.
  lemma CheckIsSafe(contents: Contents, n: Machine)
    requires Safe(contents, n) && n.phase.Adopted?
    ensures Safe(contents, Next(contents, n, CheckGc))
  {
    hide Sane, Needed, Mark, RootsOf, WindowOf, StoreOf, LogHolds;
    if GcDue(n.phase.height, n.watermark) { LogGrows(n.attempts, n.watermark, n.phase.height); }
    var refs := n.memory;
    NeededIsPresent(contents, n.durable, refs);
    OnlyTheNeededMatter(contents, n.durable, n.seen, refs);
    var live := Mark(StoreOf(contents, n.seen), RootsOf(refs));
    if live.Some? {
      MarkIsNeeded(contents, n.seen, refs);
    }
  }

  // ---- runs ----------------------------------------------------------------------------------------

  ghost predicate Happens(contents: Contents, events: seq<Event>) {
    events == [] || (Happens(contents, events[..|events| - 1])
                     && Enabled(contents, After(contents, events[..|events| - 1]), events[|events| - 1]))
  }

  function After(contents: Contents, events: seq<Event>): Machine {
    if events == [] then BLANK
    else Next(contents, After(contents, events[..|events| - 1]), events[|events| - 1])
  }

  lemma {:induction false} EveryPointIsSafe(contents: Contents, events: seq<Event>)
    requires Happens(contents, events)
    ensures Safe(contents, After(contents, events))
  {
    if events == [] {
      BlankIsSafe(contents);
    } else {
      EveryPointIsSafe(contents, events[..|events| - 1]);
      hide Safe, Enabled, Next;
      StepIsSafe(contents, After(contents, events[..|events| - 1]), events[|events| - 1]);
    }
  }

  // At every point of every run, crashes and failed writes included: the saved refs reach only
  // durable objects, and the refs in memory are saved ones.
  lemma CrashSafety(contents: Contents, events: seq<Event>)
    requires Happens(contents, events)
    ensures var n := After(contents, events);
      && Sane(contents, n.durable, SavedRefs(n)) && Needed(contents, n.durable, SavedRefs(n)) <= n.durable
      && n.memory in n.saves && (n.memory != SavedRefs(n) ==> n.phase.Saved?)
  {
    hide Sane, Needed, After, Happens, PhaseHolds;
    EveryPointIsSafe(contents, events);
    var n := After(contents, events);
    NeededIsPresent(contents, n.durable, SavedRefs(n));
  }

  // Two sweeps fall into one period only if the first one's watermark was never saved.
  lemma OneRecordedSweepPerPeriod(contents: Contents, events: seq<Event>, i: nat, j: nat)
    requires Happens(contents, events) && i < j < |After(contents, events).attempts|
    ensures var a := After(contents, events).attempts;
      a[i].recorded ==> a[i].window < a[j].window
  {
    hide Sane, Needed, After, Happens, PhaseHolds;
    EveryPointIsSafe(contents, events);
  }

  // The period of the watermark is the last one a recorded sweep fell into.
  predicate WatermarkIsRecorded(n: Machine) {
    WindowOf(n.watermark) == 0
        || exists i :: 0 <= i < |n.attempts| && n.attempts[i].recorded && n.attempts[i].window == WindowOf(n.watermark)
  }

  predicate NoneRecorded(attempts: seq<Attempt>, window: nat) {
    forall i :: 0 <= i < |attempts| && attempts[i].recorded ==> attempts[i].window < window
  }

  lemma StepIsRecorded(contents: Contents, n: Machine, e: Event)
    requires Safe(contents, n) && Enabled(contents, n, e) && WatermarkIsRecorded(n)
    ensures WatermarkIsRecorded(Next(contents, n, e))
  {
    hide Sane, Needed, Mark, RootsOf, WindowOf, StoreOf, LogHolds, GcDue;
    var after := Next(contents, n, e);
    if e.SaveWatermark? {
      var last := |n.attempts| - 1;
      assert after.attempts[last].recorded && after.attempts[last].window == WindowOf(after.watermark);
    } else {
      NothingWindow();
      if i :| 0 <= i < |n.attempts| && n.attempts[i].recorded && n.attempts[i].window == WindowOf(n.watermark) {
        assert after.attempts[i] == n.attempts[i];
        assert after.watermark == n.watermark;
      }
    }
  }

  lemma NothingWindow()
    ensures WindowOf(0) == 0
  {
  }

  lemma {:induction false} EveryWatermarkIsRecorded(contents: Contents, events: seq<Event>)
    requires Happens(contents, events)
    ensures WatermarkIsRecorded(After(contents, events))
  {
    if events == [] {
      NothingWindow();
    } else {
      hide Safe, Enabled, Next, WatermarkIsRecorded;
      EveryWatermarkIsRecorded(contents, events[..|events| - 1]);
      EveryPointIsSafe(contents, events[..|events| - 1]);
      StepIsRecorded(contents, After(contents, events[..|events| - 1]), events[|events| - 1]);
    }
  }

  // Exactly when a sweep is attempted: in any period but the first, and unless a sweep of this period
  // or a later one had its watermark saved.
  lemma SweepIsDueExactly(contents: Contents, events: seq<Event>)
    requires Happens(contents, events) && After(contents, events).phase.Adopted?
    ensures var n := After(contents, events);
      && |Next(contents, n, CheckGc).attempts| >= |n.attempts|
      && (|Next(contents, n, CheckGc).attempts| > |n.attempts|
          <==> (WindowOf(n.phase.height) > 0 && NoneRecorded(n.attempts, WindowOf(n.phase.height))))
  {
    hide Sane, Needed, Mark, RootsOf, WindowOf, StoreOf, After, Happens;
    EveryPointIsSafe(contents, events);
    EveryWatermarkIsRecorded(contents, events);
  }

  // And that does happen: a crash between a sweep and its watermark leaves the same period to be
  // swept again.
  lemma CrashAfterSweepRepeatsIt(contents: Contents) returns (events: seq<Event>)
    ensures Happens(contents, events)
    ensures |After(contents, events).attempts| == 2
    ensures After(contents, events).attempts[0].window == After(contents, events).attempts[1].window
  {
    var h := GC_PERIOD_BLOCKS;
    BlankIsSafe(contents);
    assert Sane(contents, {}, EMPTY_REFS) && GcDue(h, 0);
    hide Sane, After, Happens, WindowOf, GcDue, Next, Mark, RootsOf, StoreOf;
    Nothing(contents);
    OneQuietBlock(contents, [], BLANK, h);
    var block := [Begin([], EMPTY_REFS, h), SyncDirs, SaveRefs, AdoptRefs, CheckGc];
    var first := [] + block;
    var n := After(contents, first);
    assert n.attempts == [Attempt(WindowOf(h), false)];
    CrashNow(contents, first);
    var crashed := first + [Crash({})];
    RestartedClean(contents, n);
    OneQuietBlock(contents, crashed, After(contents, crashed), h);
    events := crashed + block;
  }

  lemma RestartedClean(contents: Contents, n: Machine)
    requires n.durable == {} && n.saved.Some?
    ensures var after := Next(contents, n, Crash({}));
      && after.phase == Idle && after.seen == {} && after.memory == n.saved.value.refs
      && after.watermark == n.saved.value.watermark && after.saves == n.saves && after.attempts == n.attempts
  {
  }

  lemma Nothing(contents: Contents)
    ensures Happens(contents, []) && After(contents, []) == BLANK
  {
  }

  lemma CrashNow(contents: Contents, events: seq<Event>)
    requires Happens(contents, events) && After(contents, events).durable == {}
    ensures Happens(contents, events + [Crash({})])
    ensures After(contents, events + [Crash({})]) == Next(contents, After(contents, events), Crash({}))
  {
    hide After, Happens, Next;
    OneMore(contents, events, Crash({}));
  }

  lemma OneMore(contents: Contents, events: seq<Event>, e: Event)
    requires Happens(contents, events) && Enabled(contents, After(contents, events), e)
    ensures Happens(contents, events + [e])
        && After(contents, events + [e]) == Next(contents, After(contents, events), e)
  {
    hide Enabled, Next;
    assert (events + [e])[..|events|] == events;
  }

  // An empty block after which a sweep of nothing is due.
  lemma OneQuietBlock(contents: Contents, before: seq<Event>, n: Machine, h: nat)
    requires Happens(contents, before) && After(contents, before) == n && n.phase == Idle
    requires n.seen == {} && n.memory == EMPTY_REFS && Sane(contents, {}, EMPTY_REFS) && GcDue(h, n.watermark)
    requires n.saves == {EMPTY_REFS}
    ensures var events := before + [Begin([], EMPTY_REFS, h), SyncDirs, SaveRefs, AdoptRefs, CheckGc];
      && Happens(contents, events)
      && After(contents, events) == n.(durable := {}, saved := Some(Envelope(EMPTY_REFS, h, n.watermark)),
           phase := Sweeping({}, h), attempts := n.attempts + [Attempt(WindowOf(h), false)])
  {
    hide Sane, Mark, RootsOf, StoreOf, Needed, WindowOf, After, Happens;
    assert {} + (set id: Id | id in []) == {};
    OneMore(contents, before, Begin([], EMPTY_REFS, h));
    var e1 := before + [Begin([], EMPTY_REFS, h)];
    OneMore(contents, e1, SyncDirs);
    var e2 := e1 + [SyncDirs];
    OneMore(contents, e2, SaveRefs);
    var e3 := e2 + [SaveRefs];
    OneMore(contents, e3, AdoptRefs);
    var e4 := e3 + [AdoptRefs];
    OneMore(contents, e4, CheckGc);
    assert forall live: set<Id> :: n.seen - live == {};
    assert e4 + [CheckGc] == before + [Begin([], EMPTY_REFS, h), SyncDirs, SaveRefs, AdoptRefs, CheckGc];
  }
}
