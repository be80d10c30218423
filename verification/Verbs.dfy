// What each filesystem verb does to the refs of the pending block
// (crates/duckfs/core/src/fs.rs:153-156,336-362,470-904,1487-1515).
module Verbs {
  import opened Wrappers
  import opened Texts
  import opened Kinds
  import opened Actors
  import opened Sums
  import opened RefsImage
  import opened RefsLength
  import opened Records
  import Chunks

  const MAX_U64: nat := 0xFFFF_FFFF_FFFF_FFFF
  const STAGING_TTL_BLOCKS: nat := 4096
  const MAX_PINS_PER_OWNER: nat := 32
  const MAX_PIN_NAME_BYTES: nat := 128
  const MAX_WATCH_MODULE_ID_BYTES: nat := 128

  // The limits an `Fs` is built with; the tests shrink them.
  datatype Caps = Caps(quota: nat, window: nat, entries: nat, entriesPerOwner: nat)

  predicate ValidCaps(caps: Caps) {
    caps.quota < MAX_U64 && caps.window <= HISTORY_WINDOW && caps.entries <= MAX_STAGING_ENTRIES
  }

  // What the verbs ask of code outside this model: the content hash, the retention catalog's
  // membership answer under a root (None where reading the catalog fails), and the canonical
  // joined form of a path (None where the path is not canonical).
  datatype Env = Env(hash: Blob -> Id, kept: (Option<Id>, Id) -> Option<bool>, canonical: Text -> Option<Text>)

  // A commit that passed every check: its snapshot, the chunks its files name, the new objects.
  datatype Plan = Plan(snapshot: Id, references: seq<Id>, objects: seq<Blob>)

  datatype Verb =
    | PutBlob(bytes: Text)
    | Commit(plan: Option<Plan>)
    | Project(candidate: Option<(Id, seq<Blob>)>)
    | Retain(exchange: Option<(Option<Id>, seq<Blob>)>)
    | PinSnapshot(snapshot: Text, name: Text)
    | Unpin(name: Text)
    | WatchPrefix(prefix: Text, moduleId: Text)
    | UnwatchPrefix(prefix: Text, moduleId: Text)

  // One block's overlay: the refs after its verbs so far, its new objects and their index.
  datatype Block = Block(refs: Refs, objects: seq<Blob>, index: map<Id, (ObjectKind, nat)>, height: nat)

  // An accepted verb: the refs it leaves, and the objects it adds.
  datatype Effect = Effect(refs: Refs, objects: seq<Blob>)

  function Saturate(n: nat): nat {
    if n < MAX_U64 then n else MAX_U64
  }

  // Staged chunks expire at their height, not a block later.
  function Sweep(refs: Refs, height: nat): Refs {
    refs.(staging := map d | d in refs.staging && refs.staging[d].expires > height :: refs.staging[d])
  }

  // What commits, projections and retention may still add without asking.
  function Headroom(refs: Refs, window: nat): nat {
    (if refs.head.None? then 32 else 0)
    + (if |refs.window| < window then 32 * (window - |refs.window|) else 0)
    + (if refs.retention.None? then 32 else 0)
  }

  ghost predicate RoomFor(refs: Refs, entryLen: nat, window: nat) {
    EncodedRefsLen(refs) + entryLen + Headroom(refs, window) <= MAX_REFS_IMAGE_BYTES
  }

  function ControlledLens(staging: map<Id, Staged>, who: Authority): map<Id, nat> {
    map d | d in staging && who.Controls(staging[d].owner) :: staging[d].len
  }

  function ControlledPins(pins: map<Text, Pin>, who: Authority): set<Text> {
    set name | name in pins && who.Controls(pins[name].owner)
  }

  function Trim(window: seq<Id>, cap: nat): seq<Id> {
    if |window| > cap then window[|window| - cap..] else window
  }

  function ContainsSnapshot(env: Env, refs: Refs, id: Id): Option<bool> {
    if refs.head == Some(id) || id in refs.window
        || exists name :: name in refs.pins && refs.pins[name].snapshot == id then Some(true)
    else env.kept(refs.retention, id)
  }

  predicate MayWatch(who: Authority, moduleId: Text) {
    who == OfSystem || who == OfModule(moduleId)
  }

  ghost function StageChunk(env: Env, caps: Caps, block: Block, who: Authority, height: nat,
          bytes: Text): Option<Effect> {
    var refs := Sweep(block.refs, height);
    var chunk := Blob(ChunkKind, bytes);
    var digest := env.hash(chunk);
    if bytes == [] || |bytes| > Chunks.CHUNK_SIZE then None
    else if digest in block.index || digest in refs.staging then Some(Effect(refs, []))
    else if |refs.staging| >= caps.entries then None
    else if |ControlledLens(refs.staging, who)| >= caps.entriesPerOwner then None
    else if Saturate(Saturate(Sum(ControlledLens(refs.staging, who))) + |bytes|) > caps.quota then None
    else if !RoomFor(refs, StagedEntryLen(who.Actor()), caps.window) then None
    else
      var staged := Staged(who.Actor(), |bytes|, Saturate(height + STAGING_TTL_BLOCKS));
      Some(Effect(refs.(staging := refs.staging[digest := staged]), [chunk]))
  }

  function Named(ids: seq<Id>): set<Id> {
    set id | id in ids
  }

  function CommitPlan(caps: Caps, block: Block, height: nat, plan: Plan): Effect {
    var refs := Sweep(block.refs, height);
    Effect(refs.(head := Some(plan.snapshot), window := Trim(refs.window + [plan.snapshot], caps.window),
                 staging := refs.staging - Named(plan.references)),
           plan.objects)
  }

  function ProjectCandidate(caps: Caps, block: Block, height: nat, candidate: (Id, seq<Blob>)): Effect {
    var refs := Sweep(block.refs, height);
    Effect(refs.(window := Trim(refs.window + [candidate.0], caps.window)), candidate.1)
  }

  ghost function AddPin(env: Env, caps: Caps, block: Block, who: Authority, height: nat, snapshot: Text,
          name: Text): Option<Effect> {
    var refs := Sweep(block.refs, height);
    if name == [] || |name| > MAX_PIN_NAME_BYTES then None
    else if |refs.pins| >= MAX_PINS || name in refs.pins then None
    else if |ControlledPins(refs.pins, who)| >= MAX_PINS_PER_OWNER then None
    else
      match FromHex32(snapshot)
      case None => None
      case Some(id) =>
        if ContainsSnapshot(env, refs, id) != Some(true) then None
        else if !RoomFor(refs, PinEntryLen(name, who.Actor()), caps.window) then None
        else Some(Effect(refs.(pins := refs.pins[name := Pin(id, who.Actor())]), []))
  }

  function RemovePin(block: Block, height: nat, name: Text): Option<Effect> {
    var refs := Sweep(block.refs, height);
    if name !in refs.pins then None else Some(Effect(refs.(pins := refs.pins - {name}), []))
  }

  ghost function AddWatch(env: Env, caps: Caps, block: Block, who: Authority, height: nat, prefix: Text,
          moduleId: Text): Option<Effect> {
    var refs := Sweep(block.refs, height);
    if !MayWatch(who, moduleId) || moduleId == [] || |moduleId| > MAX_WATCH_MODULE_ID_BYTES then None
    else
      match env.canonical(prefix)
      case None => None
      case Some(joined) =>
        if |refs.watches| >= MAX_WATCHES || (joined, moduleId) in refs.watches then None
        else if !RoomFor(refs, WatchEntryLen(joined, moduleId), caps.window) then None
        else Some(Effect(refs.(watches := refs.watches + {(joined, moduleId)}), []))
  }

  function RemoveWatch(env: Env, block: Block, who: Authority, height: nat, prefix: Text,
          moduleId: Text): Option<Effect> {
    var refs := Sweep(block.refs, height);
    if !MayWatch(who, moduleId) then None
    else
      match env.canonical(prefix)
      case None => None
      case Some(joined) =>
        if (joined, moduleId) !in refs.watches then None
        else Some(Effect(refs.(watches := refs.watches - {(joined, moduleId)}), []))
  }

  // One verb against a block; None where it is refused.
  ghost function Apply(env: Env, caps: Caps, block: Block, who: Authority, height: nat, verb: Verb): Option<Effect> {
    match verb
    case PutBlob(bytes) => StageChunk(env, caps, block, who, height, bytes)
    case Commit(None) => None
    case Commit(Some(plan)) => Some(CommitPlan(caps, block, height, plan))
    case Project(None) => None
    case Project(Some(candidate)) => Some(ProjectCandidate(caps, block, height, candidate))
    case Retain(exchange) =>
      if !who.OfModule? || exchange.None? then None
      else Some(Effect(Sweep(block.refs, height).(retention := exchange.value.0), exchange.value.1))
    case PinSnapshot(snapshot, name) => AddPin(env, caps, block, who, height, snapshot, name)
    case Unpin(name) => RemovePin(block, height, name)
    case WatchPrefix(prefix, moduleId) => AddWatch(env, caps, block, who, height, prefix, moduleId)
    case UnwatchPrefix(prefix, moduleId) => RemoveWatch(env, block, who, height, prefix, moduleId)
  }

  lemma AppliesWhatIsMade(env: Env, caps: Caps, block: Block, who: Authority, height: nat, plan: Option<Plan>,
                          candidate: Option<(Id, seq<Blob>)>, exchange: Option<(Option<Id>, seq<Blob>)>)
    ensures Apply(env, caps, block, who, height, Commit(plan))
         == if plan.None? then None else Some(CommitPlan(caps, block, height, plan.value))
    ensures Apply(env, caps, block, who, height, Project(candidate))
         == if candidate.None? then None else Some(ProjectCandidate(caps, block, height, candidate.value))
    ensures Apply(env, caps, block, who, height, Retain(exchange))
         == if !who.OfModule? || exchange.None? then None
            else Some(Effect(Sweep(block.refs, height).(retention := exchange.value.0), exchange.value.1))
  {
    hide CommitPlan, ProjectCandidate, Sweep;
  }

  // ---- transactions --------------------------------------------------------------------------------

  // A node's refs: what is committed, the block being built, and what `commit_block` has handed out
  // for saving.
  datatype State = State(refs: Refs, pending: Option<Block>, handed: Option<Refs>)

  const FRESH: State := State(EMPTY_REFS, None, None)

  function Open(s: State, height: nat): Block {
    if s.pending.Some? then s.pending.value else Block(s.refs, [], map[], height)
  }

  function Indexed(env: Env, index: map<Id, (ObjectKind, nat)>, objects: seq<Blob>): map<Id, (ObjectKind, nat)> {
    if objects == [] then index
    else
      var last := objects[|objects| - 1];
      Indexed(env, index, objects[..|objects| - 1])[env.hash(last) := (last.kind, |last.body|)]
  }

  // `transact`: all or nothing, and the revision moves exactly when the refs do.
  ghost function Transact(env: Env, caps: Caps, s: State, who: Authority, height: nat, verb: Verb): (State, bool) {
    if !who.Valid() then (s, false)
    else
      var block := Open(s, height);
      if block.refs.revision + 1 > MAX_U64 then (s.(pending := Some(block)), false)
      else
        match Apply(env, caps, block, who, height, verb)
        case None => (s.(pending := Some(block)), false)
        case Some(effect) =>
          var refs := if effect.refs == block.refs then effect.refs
              else effect.refs.(revision := block.refs.revision + 1);
          (s.(pending := Some(block.(refs := refs, objects := block.objects + effect.objects,
                                     index := Indexed(env, block.index, effect.objects)))), true)
  }

  lemma VerbsLeaveTheRevision(env: Env, caps: Caps, block: Block, who: Authority, height: nat, verb: Verb)
    ensures var e := Apply(env, caps, block, who, height, verb);
      e.Some? ==> e.value.refs.revision == block.refs.revision
  {
    hide RoomFor, ControlledLens, ControlledPins, Sum, Saturate, ContainsSnapshot, StagedEntryLen, FromHex32;
  }

  function Effective(s: State): Refs {
    if s.pending.Some? then s.pending.value.refs else s.refs
  }

  // The index after some objects: what it said before, and the kind and size of each of them.
  lemma {:induction false} IndexedIs(env: Env, index: map<Id, (ObjectKind, nat)>, objects: seq<Blob>, id: Id)
    ensures var after := Indexed(env, index, objects);
      && (id in after <==> id in index || exists b :: b in objects && env.hash(b) == id)
      && (id in after ==>
            || (id in index && after[id] == index[id])
            || exists b :: b in objects && env.hash(b) == id && after[id] == (b.kind, |b.body|))
      && ((forall b :: b in objects ==> env.hash(b) != id) && id in index ==> after[id] == index[id])
    decreases |objects|
  {
    if objects != [] {
      var front, last := objects[..|objects| - 1], objects[|objects| - 1];
      IndexedIs(env, index, front, id);
      assert objects == front + [last];
      assert last in objects && forall b :: b in objects <==> b in front || b == last;
    }
  }

  // A verb is accepted exactly if its sender is a valid one, the revision can still rise and the verb goes
  // through. One that is refused leaves the block as it was, and so does nothing at all for an invalid
  // sender. An accepted one leaves the refs the verb makes, a revision higher exactly if they differ, and
  // adds its objects to the block and to the index. What is committed or handed out stays.
  lemma TransactIsAtomic(env: Env, caps: Caps, s: State, who: Authority, height: nat, verb: Verb)
    ensures Transact(env, caps, s, who, height, verb).1 <==>
      who.Valid() && Open(s, height).refs.revision < MAX_U64
      && Apply(env, caps, Open(s, height), who, height, verb).Some?
    ensures var (after, ok) := Transact(env, caps, s, who, height, verb);
      && after == s.(pending := after.pending) && (!who.Valid() ==> after == s)
      && (who.Valid() && !ok ==> after.pending == Some(Open(s, height)))
    ensures var (after, ok) := Transact(env, caps, s, who, height, verb);
      ok ==>
        var (block, effect) := (Open(s, height), Apply(env, caps, Open(s, height), who, height, verb).value);
        && after.pending.Some? && after.pending.value.height == block.height
        && after.pending.value.objects == block.objects + effect.objects
        && after.pending.value.index == Indexed(env, block.index, effect.objects)
        && after.pending.value.refs.(revision := block.refs.revision) == effect.refs
        && after.pending.value.refs.revision == block.refs.revision + (if effect.refs == block.refs then 0 else 1)
  {
    hide Apply, Indexed;
    VerbsLeaveTheRevision(env, caps, Open(s, height), who, height, verb);
  }

  // ---- what an accepted verb changes ---------------------------------------------------------------

  // No staged chunk that has expired is left; the others stay unless a commit names them, and the
  // only new one is a chunk just put, under its own hash and its sender.
  lemma StagingAfter(env: Env, caps: Caps, block: Block, who: Authority, height: nat, verb: Verb, d: Id)
    requires Apply(env, caps, block, who, height, verb).Some?
    ensures var (before, after) := (block.refs.staging, Apply(env, caps, block, who, height, verb).value.refs.staging);
      && (d in after && !(d in before && before[d] == after[d] && after[d].expires > height) ==>
            verb.PutBlob? && d == env.hash(Blob(ChunkKind, verb.bytes))
            && after[d] == Staged(who.Actor(), |verb.bytes|, Saturate(height + STAGING_TTL_BLOCKS)))
      && (d in before && before[d].expires > height && d !in after ==>
            verb.Commit? && verb.plan.Some? && d in verb.plan.value.references)
      && (verb.Commit? && verb.plan.Some? && d in verb.plan.value.references ==> d !in after)
  {
    hide RoomFor, ControlledLens, ControlledPins, Sum, Saturate, ContainsSnapshot, StagedEntryLen, PinEntryLen,
      WatchEntryLen, FromHex32;
  }

  // Who may watch for a module: the module itself and the system.
  predicate Watches(who: Authority, moduleId: Text) {
    who == OfSystem || (who.OfModule? && who.name == moduleId)
  }

  // Every other section is what it was, but for what the one verb that is there to change it asks.
  lemma SectionsAfter(env: Env, caps: Caps, block: Block, who: Authority, height: nat, verb: Verb)
    requires Apply(env, caps, block, who, height, verb).Some?
    ensures var (before, after) := (block.refs, Apply(env, caps, block, who, height, verb).value.refs);
      && after.revision == before.revision
      && after.pins == (match verb
           case PinSnapshot(snapshot, name) =>
             if FromHex32(snapshot).Some? then before.pins[name := Pin(FromHex32(snapshot).value, who.Actor())]
                 else before.pins
           case Unpin(name) => before.pins - {name}
           case _ => before.pins)
      && (verb.PinSnapshot? ==> verb.name !in before.pins && FromHex32(verb.snapshot).Some?)
      && (verb.Unpin? ==> verb.name in before.pins)
      && (verb.WatchPrefix? || verb.UnwatchPrefix? ==>
            env.canonical(verb.prefix).Some? && Watches(who, verb.moduleId)
            && ((env.canonical(verb.prefix).value, verb.moduleId) in before.watches <==> verb.UnwatchPrefix?))
      && after.watches == (match verb
           case WatchPrefix(prefix, moduleId) =>
             if env.canonical(prefix).Some? then before.watches + {(env.canonical(prefix).value, moduleId)} else {}
           case UnwatchPrefix(prefix, moduleId) =>
             if env.canonical(prefix).Some? then before.watches - {(env.canonical(prefix).value, moduleId)} else {}
           case _ => before.watches)
      && after.head == (if verb.Commit? && verb.plan.Some? then Some(verb.plan.value.snapshot) else before.head)
      && after.retention == (if verb.Retain? && verb.exchange.Some? then verb.exchange.value.0 else before.retention)
      && (verb.Retain? ==> who.OfModule?)
  {
    hide StageChunk, AddPin, RemovePin, AddWatch, RemoveWatch, Sweep, Trim, Named, MayWatch, FromHex32;
    SweepSections(block.refs, height);
    WatchersAre(who);
    match verb
    case PutBlob(bytes) => StageSections(env, caps, block, who, height, bytes);
    case PinSnapshot(snapshot, name) => PinSections(env, caps, block, who, height, snapshot, name);
    case Unpin(name) => UnpinSections(block, height, name);
    case WatchPrefix(prefix, moduleId) => WatchSections(env, caps, block, who, height, prefix, moduleId);
    case UnwatchPrefix(prefix, moduleId) => UnwatchSections(env, block, who, height, prefix, moduleId);
    case _ =>
  }

  lemma WatchersAre(who: Authority)
    ensures forall moduleId :: MayWatch(who, moduleId) <==> Watches(who, moduleId)
  {
  }

  // A sweep is a matter of staging only.
  lemma SweepSections(refs: Refs, height: nat)
    ensures Sweep(refs, height).(staging := refs.staging) == refs
  {
  }

  lemma StageSections(env: Env, caps: Caps, block: Block, who: Authority, height: nat, bytes: Text)
    ensures var e := StageChunk(env, caps, block, who, height, bytes);
      e.Some? ==> e.value.refs.(staging := block.refs.staging) == block.refs
  {
    hide RoomFor, ControlledLens, Sum, Saturate, Sweep;
    SweepSections(block.refs, height);
  }

  lemma PinSections(env: Env, caps: Caps, block: Block, who: Authority, height: nat, snapshot: Text, name: Text)
    ensures var e := AddPin(env, caps, block, who, height, snapshot, name);
      e.Some? ==>
        && FromHex32(snapshot).Some? && name !in block.refs.pins
        && e.value.refs.(staging := block.refs.staging)
           == block.refs.(pins := block.refs.pins[name := Pin(FromHex32(snapshot).value, who.Actor())])
  {
    hide RoomFor, ControlledPins, ContainsSnapshot, FromHex32, Sweep;
    SweepSections(block.refs, height);
  }

  lemma UnpinSections(block: Block, height: nat, name: Text)
    ensures var e := RemovePin(block, height, name);
      e.Some? ==>
        && name in block.refs.pins
        && e.value.refs.(staging := block.refs.staging) == block.refs.(pins := block.refs.pins - {name})
  {
    hide Sweep;
    SweepSections(block.refs, height);
  }

  lemma WatchSections(env: Env, caps: Caps, block: Block, who: Authority, height: nat, prefix: Text, moduleId: Text)
    ensures var e := AddWatch(env, caps, block, who, height, prefix, moduleId);
      e.Some? ==>
        var joined := env.canonical(prefix);
        && joined.Some? && MayWatch(who, moduleId) && (joined.value, moduleId) !in block.refs.watches
        && e.value.refs.(staging := block.refs.staging)
           == block.refs.(watches := block.refs.watches + {(joined.value, moduleId)})
  {
    hide RoomFor, Sweep, MayWatch;
    SweepSections(block.refs, height);
  }

  lemma UnwatchSections(env: Env, block: Block, who: Authority, height: nat, prefix: Text, moduleId: Text)
    ensures var e := RemoveWatch(env, block, who, height, prefix, moduleId);
      e.Some? ==>
        var joined := env.canonical(prefix);
        && joined.Some? && MayWatch(who, moduleId) && (joined.value, moduleId) in block.refs.watches
        && e.value.refs.(staging := block.refs.staging)
           == block.refs.(watches := block.refs.watches - {(joined.value, moduleId)})
  {
    hide Sweep, MayWatch;
    SweepSections(block.refs, height);
  }

  // A snapshot has entered a window: it is the last, and before it is as much of the latest part of the
  // window before, in its order, as the cap leaves room for.
  predicate Enters(before: seq<Id>, id: Id, after: seq<Id>, cap: nat) {
    && |after| == (if |before| < cap then |before| + 1 else cap)
    && (cap > 0 ==> after[|after| - 1] == id && after[..|after| - 1] == before[|before| - (|after| - 1)..])
  }

  // The snapshots of commits and projections enter the window; no other verb touches it.
  lemma WindowAfter(env: Env, caps: Caps, block: Block, who: Authority, height: nat, verb: Verb)
    requires Apply(env, caps, block, who, height, verb).Some?
    ensures var (before, after) := (block.refs.window, Apply(env, caps, block, who, height, verb).value.refs.window);
      match verb
      case Commit(Some(plan)) => Enters(before, plan.snapshot, after, caps.window)
      case Project(Some(candidate)) => Enters(before, candidate.0, after, caps.window)
      case _ => after == before
  {
    hide StageChunk, AddPin, RemovePin, AddWatch, RemoveWatch, Sweep, Trim, Named, Enters;
    SweepSections(block.refs, height);
    match verb
    case PutBlob(bytes) => StageSections(env, caps, block, who, height, bytes);
    case Commit(Some(plan)) => TrimEnters(block.refs.window, plan.snapshot, caps.window);
    case Project(Some(candidate)) => TrimEnters(block.refs.window, candidate.0, caps.window);
    case PinSnapshot(snapshot, name) => PinSections(env, caps, block, who, height, snapshot, name);
    case Unpin(name) => UnpinSections(block, height, name);
    case WatchPrefix(prefix, moduleId) => WatchSections(env, caps, block, who, height, prefix, moduleId);
    case UnwatchPrefix(prefix, moduleId) => UnwatchSections(env, block, who, height, prefix, moduleId);
    case _ =>
  }

  lemma TrimEnters(window: seq<Id>, id: Id, cap: nat)
    ensures Enters(window, id, Trim(window + [id], cap), cap)
  {
    var after := Trim(window + [id], cap);
    assert after == (window + [id])[|window| + 1 - |after|..];
  }
}
