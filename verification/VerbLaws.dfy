// When each verb is accepted, and what it adds (crates/duckfs/core/src/fs.rs:470-930): the refusals of the
// verbs as one condition each on the refs they find, with the room an entry must leave said of the
// image itself.
module VerbLaws {
  import opened Wrappers
  import opened Texts
  import opened Kinds
  import opened Objects
  import opened Actors
  import opened Sums
  import opened RefsImage
  import opened RefsLength
  import opened Records
  import opened Verbs
  import opened Runs
  import Base64
  import Grounding
  import R = Reachability

  // ---- room ----------------------------------------------------------------------------------------

  const NO_ID: Id := seq(32, _ => 0)

  // Refs with everything a commit, a projection or an exchange may still add: a head, a retention root
  // and a full window.
  function Fullest(refs: Refs, window: nat): Refs {
    refs.(head := Some(NO_ID), retention := Some(NO_ID),
          window := refs.window + if |refs.window| < window then seq(window - |refs.window|, _ => NO_ID) else [])
  }

  lemma FullestIsTyped(refs: Refs, window: nat)
    requires forall i :: 0 <= i < |refs.window| ==> IsId(refs.window[i])
    requires forall name :: name in refs.pins ==> IsId(refs.pins[name].snapshot)
    requires forall digest :: digest in refs.staging ==> IsId(digest)
    ensures Widths(Fullest(refs, window))
  {
  }

  // An entry is let in exactly if the image has room for it even once all the rest has been added.
  lemma RoomIsForTheFullest(refs: Refs, entryLen: nat, window: nat)
    requires Widths(refs)
    ensures RoomFor(refs, entryLen, window)
       <==> |EncodeRefs(Fullest(refs, window))| + entryLen <= MAX_REFS_IMAGE_BYTES
  {
    hide EncodeRefs, Sum, PinLens, StagedLens, WatchLens;
    FullestIsTyped(refs, window);
    hide Widths;
    LengthIsExact(Fullest(refs, window));
  }

  // ---- acceptance ----------------------------------------------------------------------------------

  // What is still staged at a height, and how much of it an authority controls.
  function StillStaged(refs: Refs, height: nat): map<Id, Staged> {
    map d | d in refs.staging && height < refs.staging[d].expires :: refs.staging[d]
  }

  function Controlled(staging: map<Id, Staged>, who: Authority): (lens: map<Id, nat>)
    ensures forall d :: d in lens <==> d in staging && who.Controls(staging[d].owner)
    ensures forall d :: d in lens ==> lens[d] == staging[d].len
  {
    map d | d in staging && who.Controls(staging[d].owner) :: staging[d].len
  }

  // The image has room for one more entry of this length.
  ghost predicate HasRoomFor(caps: Caps, refs: Refs, height: nat, entryLen: nat) {
    |EncodeRefs(Fullest(refs.(staging := StillStaged(refs, height)), caps.window))| + entryLen <= MAX_REFS_IMAGE_BYTES
  }

  lemma SweepIs(refs: Refs, height: nat)
    ensures Sweep(refs, height) == refs.(staging := StillStaged(refs, height))
    ensures Widths(refs) ==> Widths(Sweep(refs, height))
  {
    assert Sweep(refs, height).staging == StillStaged(refs, height);
  }

  // A chunk is taken if it has between one and a chunk's worth of bytes and either is there already or
  // fits: the table, its owner's shares of entries and bytes, and the image.
  lemma PutBlobIsAccepted(env: Env, caps: Caps, block: Block, who: Authority, height: nat, bytes: Text)
    requires caps.quota < MAX_U64 && Widths(block.refs)
    ensures var (staging, digest) := (StillStaged(block.refs, height), env.hash(Blob(ChunkKind, bytes)));
      var mine := Controlled(staging, who);
      Apply(env, caps, block, who, height, PutBlob(bytes)).Some? <==>
        && 0 < |bytes| <= 0x10_0000
        && (digest in block.index || digest in staging ||
            (&& |staging| < caps.entries && |mine| < caps.entriesPerOwner && Sum(mine) + |bytes| <= caps.quota
             && HasRoomFor(caps, block.refs, height, StagedEntryLen(who.Actor()))))
  {
    hide Sweep, RoomFor, Sum, ControlledLens, EncodeRefs, Widths, Fullest, StagedEntryLen;
    SweepIs(block.refs, height);
    RoomIsForTheFullest(Sweep(block.refs, height), StagedEntryLen(who.Actor()), caps.window);
    ControlledIs(StillStaged(block.refs, height), who);
  }

  lemma ControlledIs(staging: map<Id, Staged>, who: Authority)
    ensures ControlledLens(staging, who) == Controlled(staging, who)
  {
  }

  // Of a new chunk one object is added, and of one that is there already none.
  lemma PutBlobAdds(env: Env, caps: Caps, block: Block, who: Authority, height: nat, bytes: Text)
    requires Apply(env, caps, block, who, height, PutBlob(bytes)).Some?
    ensures var (chunk, effect) := (Blob(ChunkKind, bytes), Apply(env, caps, block, who, height, PutBlob(bytes)).value);
      if env.hash(chunk) in block.index || env.hash(chunk) in StillStaged(block.refs, height)
      then effect.objects == [] && effect.refs.staging == StillStaged(block.refs, height)
      else effect.objects == [chunk] && effect.refs.staging.Keys
           == StillStaged(block.refs, height).Keys + {env.hash(chunk)}
  {
    hide Sweep, RoomFor, Sum, ControlledLens, StagedEntryLen;
    SweepIs(block.refs, height);
  }

  // What the other verbs add: the objects their engines brought.
  lemma EnginesAdd(env: Env, caps: Caps, block: Block, who: Authority, height: nat, verb: Verb)
    requires Apply(env, caps, block, who, height, verb).Some? && !verb.PutBlob?
    ensures Apply(env, caps, block, who, height, verb).value.objects == (match verb
      case Commit(Some(plan)) => plan.objects
      case Project(Some(candidate)) => candidate.1
      case Retain(Some(exchange)) => exchange.1
      case _ => [])
  {
    hide Sweep, RoomFor, Sum, ControlledPins, ContainsSnapshot, Trim, Named, FromHex32;
  }

  function PinsOf(pins: map<Text, Pin>, who: Authority): (mine: set<Text>)
    ensures forall name :: name in mine <==> name in pins && who.Controls(pins[name].owner)
  {
    set name | name in pins && who.Controls(pins[name].owner)
  }

  // A pin is set on a snapshot the node keeps anyway, under a new name of 1 to 128 bytes, within the
  // table, the owner's share of it and the image.
  lemma PinIsAccepted(env: Env, caps: Caps, block: Block, who: Authority, height: nat, snapshot: Text, name: Text)
    requires Widths(block.refs)
    ensures Apply(env, caps, block, who, height, PinSnapshot(snapshot, name)).Some? <==>
      && 0 < |name| <= 128 && name !in block.refs.pins
      && |block.refs.pins| < MAX_PINS && |PinsOf(block.refs.pins, who)| < 32
      && FromHex32(snapshot).Some? && IsKept(env, block.refs, FromHex32(snapshot).value)
      && HasRoomFor(caps, block.refs, height, PinEntryLen(name, who.Actor()))
  {
    hide Sweep, RoomFor, ControlledPins, ContainsSnapshot, IsKept, EncodeRefs, Widths, Fullest, PinEntryLen, FromHex32;
    SweepIs(block.refs, height);
    RoomIsForTheFullest(Sweep(block.refs, height), PinEntryLen(name, who.Actor()), caps.window);
    PinsAre(block.refs.pins, who);
    if FromHex32(snapshot).Some? { ContainedIsKept(env, Sweep(block.refs, height), FromHex32(snapshot).value); }
    hide StillStaged;
    KeptAnyway(env, block.refs, StillStaged(block.refs, height));
  }

  lemma PinsAre(pins: map<Text, Pin>, who: Authority)
    ensures ControlledPins(pins, who) == PinsOf(pins, who)
  {
  }

  // A snapshot the sweep of objects spares: the refs name it, or the catalog does.
  ghost predicate IsKept(env: Env, refs: Refs, id: Id) {
    Grounding.Rooted(refs, R.Node(R.AsSnapshot, id)) || env.kept(refs.retention, id) == Some(true)
  }

  lemma KeptAnyway(env: Env, refs: Refs, staging: map<Id, Staged>)
    ensures forall id :: IsKept(env, refs.(staging := staging), id) <==> IsKept(env, refs, id)
  {
  }

  // A snapshot counts as there exactly if it is a root of the mark, or in the catalog.
  lemma ContainedIsKept(env: Env, refs: Refs, id: Id)
    ensures ContainsSnapshot(env, refs, id) == Some(true) <==> IsKept(env, refs, id)
  {
  }

  lemma UnpinIsAccepted(env: Env, caps: Caps, block: Block, who: Authority, height: nat, name: Text)
    ensures Apply(env, caps, block, who, height, Unpin(name)).Some? <==> name in block.refs.pins
  {
    hide Sweep;
    SweepIs(block.refs, height);
  }

  // A watch is for the module that asks, or for any where the system asks; the prefix is canonical, the
  // pair new, and table and image have room.
  lemma WatchIsAccepted(env: Env, caps: Caps, block: Block, who: Authority, height: nat, prefix: Text, moduleId: Text)
    requires Widths(block.refs)
    ensures Apply(env, caps, block, who, height, WatchPrefix(prefix, moduleId)).Some? <==>
      && Watches(who, moduleId) && 0 < |moduleId| <= 128 && env.canonical(prefix).Some?
      && (env.canonical(prefix).value, moduleId) !in block.refs.watches && |block.refs.watches| < MAX_WATCHES
      && HasRoomFor(caps, block.refs, height, WatchEntryLen(env.canonical(prefix).value, moduleId))
    ensures Apply(env, caps, block, who, height, UnwatchPrefix(prefix, moduleId)).Some? <==>
      && Watches(who, moduleId) && env.canonical(prefix).Some?
      && (env.canonical(prefix).value, moduleId) in block.refs.watches
  {
    hide Sweep, RoomFor, EncodeRefs, Widths, Fullest, WatchEntryLen, MayWatch, Watches;
    SweepIs(block.refs, height);
    WatchersAre(who);
    if env.canonical(prefix).Some? {
      RoomIsForTheFullest(Sweep(block.refs, height), WatchEntryLen(env.canonical(prefix).value, moduleId), caps.window);
    }
  }

  // The verbs with engines are accepted exactly if their engine found nothing against them, and
  // exchanges only from modules.
  lemma EnginesDecide(env: Env, caps: Caps, block: Block, who: Authority, height: nat, verb: Verb)
    requires verb.Commit? || verb.Project? || verb.Retain?
    ensures Apply(env, caps, block, who, height, verb).Some? <==> match verb
      case Commit(plan) => plan.Some?
      case Project(candidate) => candidate.Some?
      case Retain(exchange) => exchange.Some? && who.OfModule?
      case _ => false
  {
    hide Sweep;
  }

  // ---- the image on the wire -----------------------------------------------------------------------

  // The reply that carries the refs image has no pages: the image of every run fits its budget.
  lemma RefsReplyFits(env: Env, caps: Caps, events: seq<Event>)
    requires ValidCaps(caps) && TypedEnv(env) && TypedEvents(events)
    ensures |Base64.Encode(EncodeRefs(Run(env, caps, events).refs))| <= 1_572_864
  {
    hide Within, Base64.Encode, EncodeRefs, Run, ValidCaps, TypedEnv, TypedEvents;
    var refs := Run(env, caps, events).refs;
    EveryRunStaysWithin(env, caps, events);
    WithinIsShort(caps, refs);
    Base64.LengthIs(EncodeRefs(refs));
  }

  lemma WithinIsShort(caps: Caps, refs: Refs)
    requires Within(caps, refs)
    ensures |EncodeRefs(refs)| <= 0x10_0000
  {
    hide EncodeRefs, Within;
    WithinDecodes(caps, refs);
  }
}
