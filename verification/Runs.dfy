// What every run of verbs keeps (crates/duckfs/core/src/fs.rs:336-362,470-904,1480-1515): the refs
// always encode, within the byte cap and every count cap and share, to an image that decodes to
// them again.
module Runs {
  import opened Wrappers
  import opened Texts
  import opened Kinds
  import opened Grammars
  import opened Objects
  import opened Actors
  import opened Sums
  import opened RefsImage
  import opened RefsLength
  import opened Records
  import opened Verbs

  // ---- the invariant -------------------------------------------------------------------------------

  function OwnedLens(staging: map<Id, Staged>, owner: Actor): map<Id, nat> {
    map d | d in staging && staging[d].owner == owner :: staging[d].len
  }

  function OwnedPins(pins: map<Text, Pin>, owner: Actor): set<Text> {
    set name | name in pins && pins[name].owner == owner
  }

  // One actor's shares: staged bytes, staged entries, pins.
  ghost predicate StagingShare(caps: Caps, staging: map<Id, Staged>, owner: Actor) {
    Sum(OwnedLens(staging, owner)) <= caps.quota && |OwnedLens(staging, owner)| <= caps.entriesPerOwner
  }

  ghost predicate PinShare(pins: map<Text, Pin>, owner: Actor) {
    |OwnedPins(pins, owner)| <= MAX_PINS_PER_OWNER
  }

  ghost predicate Shares(caps: Caps, refs: Refs) {
    && (forall owner :: StagingShare(caps, refs.staging, owner))
    && (forall owner :: PinShare(refs.pins, owner))
  }

  ghost predicate Within(caps: Caps, refs: Refs) {
    && RefsFit(refs) && |refs.window| <= caps.window && |refs.staging| <= caps.entries
    && RoomFor(refs, 0, caps.window) && Shares(caps, refs)
  }

  ghost predicate AllWithin(caps: Caps, s: State) {
    && Within(caps, s.refs)
    && (s.pending.Some? ==> Within(caps, s.pending.value.refs))
    && (s.handed.Some? ==> Within(caps, s.handed.value))
  }

  // What the source's types promise of the environment and of a call.
  ghost predicate TypedEnv(env: Env) {
    && (forall blob :: IsId(env.hash(blob)))
    && (forall path :: env.canonical(path).Some? ==>
          |env.canonical(path).value| < Range(8) && Utf8(env.canonical(path).value))
  }

  predicate TypedCall(who: Authority, height: nat, verb: Verb) {
    && Typed(who.Actor()) && height <= MAX_U64
    && match verb
       case Commit(Some(plan)) => IsId(plan.snapshot)
       case Project(Some(candidate)) => IsId(candidate.0)
       case Retain(Some(exchange)) => OptionalId(exchange.0)
       case PinSnapshot(_, name) => Utf8(name)
       case WatchPrefix(_, moduleId) => Utf8(moduleId)
       case _ => true
  }

  lemma U64Range()
    ensures Range(8) == MAX_U64 + 1
  {
    assert Range(2) == 0x1_0000;
    assert Range(4) == 0x1_0000 * 0x1_0000;
    assert Range(6) == 0x1_0000 * Range(4);
  }

  // ---- staging shrinks -----------------------------------------------------------------------------

  predicate PartOf(part: map<Id, Staged>, whole: map<Id, Staged>) {
    forall d :: d in part ==> d in whole && part[d] == whole[d]
  }

  lemma SubsetCount<T>(part: set<T>, whole: set<T>)
    requires part <= whole
    ensures |part| <= |whole|
  {
    assert whole == part + (whole - part);
  }

  lemma MapCount<K, V, W>(part: map<K, V>, whole: map<K, W>)
    requires part.Keys <= whole.Keys
    ensures |part| <= |whole|
  {
    SubsetCount(part.Keys, whole.Keys);
    assert |part| == |part.Keys| && |whole| == |whole.Keys|;
  }

  lemma StagingShrinks(caps: Caps, refs: Refs, staging: map<Id, Staged>)
    requires Within(caps, refs) && PartOf(staging, refs.staging)
    ensures Within(caps, refs.(staging := staging))
  {
    hide Sum, StagedFits, PinsFit, WatchesFit, WindowFits, PinShare, PinLens, WatchLens;
    MapCount(staging, refs.staging);
    SumPart(StagedLens(staging), StagedLens(refs.staging));
    forall owner
      ensures StagingShare(caps, staging, owner)
    {
      assert StagingShare(caps, refs.staging, owner);
      SumPart(OwnedLens(staging, owner), OwnedLens(refs.staging, owner));
      MapCount(OwnedLens(staging, owner), OwnedLens(refs.staging, owner));
    }
  }

  lemma SweepKeeps(caps: Caps, refs: Refs, height: nat)
    requires Within(caps, refs)
    ensures Within(caps, Sweep(refs, height))
  {
    hide Within;
    StagingShrinks(caps, refs, Sweep(refs, height).staging);
  }

  // ---- the verbs, one by one -----------------------------------------------------------------------

  // Whoever an authority acts as, it controls all that actor owns, so its tally is an upper bound.
  lemma TallyCovers(staging: map<Id, Staged>, pins: map<Text, Pin>, who: Authority)
    ensures Sum(OwnedLens(staging, who.Actor())) <= Sum(ControlledLens(staging, who))
    ensures |OwnedLens(staging, who.Actor())| <= |ControlledLens(staging, who)|
    ensures |OwnedPins(pins, who.Actor())| <= |ControlledPins(pins, who)|
  {
    OwnerControls(who);
    SumPart(OwnedLens(staging, who.Actor()), ControlledLens(staging, who));
    MapCount(OwnedLens(staging, who.Actor()), ControlledLens(staging, who));
    SubsetCount(OwnedPins(pins, who.Actor()), ControlledPins(pins, who));
  }

  lemma StagedShare(caps: Caps, staging: map<Id, Staged>, digest: Id, staged: Staged, owner: Actor)
    requires StagingShare(caps, staging, owner) && digest !in staging
    requires staged.owner == owner ==>
      Sum(OwnedLens(staging, owner)) + staged.len <= caps.quota && |OwnedLens(staging, owner)| < caps.entriesPerOwner
    ensures StagingShare(caps, staging[digest := staged], owner)
  {
    var before, after := OwnedLens(staging, owner), OwnedLens(staging[digest := staged], owner);
    if staged.owner == owner {
      assert after == before[digest := staged.len];
      SumPut(before, digest, staged.len);
      OneMoreKey(before, digest, staged.len);
    } else {
      assert after == before;
    }
  }

  lemma OneMoreKey<K, V>(m: map<K, V>, k: K, v: V)
    ensures |m[k := v]| <= |m| + 1
    ensures k !in m ==> |m[k := v]| == |m| + 1
  {
    assert m[k := v].Keys == m.Keys + {k};
    assert |m| == |m.Keys| && |m[k := v]| == |m[k := v].Keys|;
    if k in m { assert m.Keys + {k} == m.Keys; }
  }

  lemma StageKeeps(caps: Caps, refs: Refs, digest: Id, staged: Staged)
    requires Within(caps, refs) && digest !in refs.staging && StagedFits(digest, staged)
    requires |refs.staging| < caps.entries <= MAX_STAGING_ENTRIES
    requires RoomFor(refs, StagedEntryLen(staged.owner), caps.window)
    requires Sum(OwnedLens(refs.staging, staged.owner)) + staged.len <= caps.quota
    requires |OwnedLens(refs.staging, staged.owner)| < caps.entriesPerOwner
    ensures Within(caps, refs.(staging := refs.staging[digest := staged]))
  {
    hide Sum, StagedFits, PinsFit, WatchesFit, WindowFits, PinShare, StagingShare, PinLens, WatchLens, OwnedLens,
      StagedEntryLen;
    var after := refs.staging[digest := staged];
    OneMoreKey(refs.staging, digest, staged);
    assert StagedLens(after) == StagedLens(refs.staging)[digest := StagedEntryLen(staged.owner)];
    SumPut(StagedLens(refs.staging), digest, StagedEntryLen(staged.owner));
    forall owner
      ensures StagingShare(caps, after, owner)
    {
      StagedShare(caps, refs.staging, digest, staged, owner);
    }
  }

  lemma StageChunkKeeps(env: Env, caps: Caps, block: Block, who: Authority, height: nat, bytes: Text)
    requires ValidCaps(caps) && TypedEnv(env) && TypedCall(who, height, PutBlob(bytes)) && who.Valid()
        && Within(caps, block.refs)
    ensures var e := StageChunk(env, caps, block, who, height, bytes); e.Some? ==> Within(caps, e.value.refs)
  {
    hide Within, Sum, RoomFor, Sweep, ControlledLens, OwnedLens, Typed, Proper, Range, Utf8, StagedEntryLen;
    SweepKeeps(caps, block.refs, height);
    U64Range();
    var refs, chunk := Sweep(block.refs, height), Blob(ChunkKind, bytes);
    var staged := Staged(who.Actor(), |bytes|, Saturate(height + STAGING_TTL_BLOCKS));
    TallyCovers(refs.staging, refs.pins, who);
    var e := StageChunk(env, caps, block, who, height, bytes);
    if e.Some? && e.value.objects != [] {
      StageKeeps(caps, refs, env.hash(chunk), staged);
    }
  }

  lemma TrimLength(window: seq<Id>, cap: nat, id: Id)
    requires |window| <= cap && IsId(id) && forall i :: 0 <= i < |window| ==> IsId(window[i])
    ensures var after := Trim(window + [id], cap);
      && |after| == (if |window| < cap then |window| + 1 else cap)
      && forall i :: 0 <= i < |after| ==> IsId(after[i])
  {
  }

  // A window entry takes the place of headroom: the length and the headroom together stay put.
  lemma WindowKeeps(caps: Caps, refs: Refs, id: Id)
    requires ValidCaps(caps) && Within(caps, refs) && IsId(id)
    ensures Within(caps, refs.(window := Trim(refs.window + [id], caps.window)))
  {
    hide Sum, StagingFits, PinsFit, WatchesFit, PinShare, StagingShare, PinLens, WatchLens, StagedLens, Trim;
    TrimLength(refs.window, caps.window, id);
  }

  lemma HeadKeeps(caps: Caps, refs: Refs, id: Id)
    requires Within(caps, refs) && IsId(id)
    ensures Within(caps, refs.(head := Some(id)))
  {
    hide Sum, StagingFits, PinsFit, WatchesFit, WindowFits, PinShare, StagingShare, PinLens, WatchLens, StagedLens;
  }

  lemma RetentionKeeps(caps: Caps, refs: Refs, root: Option<Id>)
    requires Within(caps, refs) && OptionalId(root)
    ensures Within(caps, refs.(retention := root))
  {
    hide Sum, StagingFits, PinsFit, WatchesFit, WindowFits, PinShare, StagingShare, PinLens, WatchLens, StagedLens;
  }

  lemma CommitPlanKeeps(caps: Caps, block: Block, height: nat, plan: Plan)
    requires ValidCaps(caps) && Within(caps, block.refs) && IsId(plan.snapshot)
    ensures Within(caps, CommitPlan(caps, block, height, plan).refs)
  {
    hide Within, Sweep, Trim;
    SweepKeeps(caps, block.refs, height);
    var refs := Sweep(block.refs, height);
    WindowKeeps(caps, refs, plan.snapshot);
    var windowed := refs.(window := Trim(refs.window + [plan.snapshot], caps.window));
    HeadKeeps(caps, windowed, plan.snapshot);
    StagingShrinks(caps, windowed.(head := Some(plan.snapshot)), refs.staging - Named(plan.references));
  }

  lemma PinnedShare(pins: map<Text, Pin>, name: Text, pin: Pin, owner: Actor)
    requires PinShare(pins, owner) && name !in pins
    requires pin.owner == owner ==> |OwnedPins(pins, owner)| < MAX_PINS_PER_OWNER
    ensures PinShare(pins[name := pin], owner)
  {
    var before, after := OwnedPins(pins, owner), OwnedPins(pins[name := pin], owner);
    if pin.owner == owner {
      assert after == before + {name};
    } else {
      assert after == before;
    }
  }

  lemma PinKeeps(caps: Caps, refs: Refs, name: Text, pin: Pin)
    requires Within(caps, refs) && name !in refs.pins && PinFits(name, pin) && |refs.pins| < MAX_PINS
    requires RoomFor(refs, PinEntryLen(name, pin.owner), caps.window)
    requires |OwnedPins(refs.pins, pin.owner)| < MAX_PINS_PER_OWNER
    ensures Within(caps, refs.(pins := refs.pins[name := pin]))
  {
    hide Sum, StagingFits, PinFits, WatchesFit, WindowFits, PinShare, StagingShare, StagedLens, WatchLens, OwnedPins,
      PinEntryLen;
    var after := refs.pins[name := pin];
    OneMoreKey(refs.pins, name, pin);
    assert PinLens(after) == PinLens(refs.pins)[name := PinEntryLen(name, pin.owner)];
    SumPut(PinLens(refs.pins), name, PinEntryLen(name, pin.owner));
    forall owner
      ensures PinShare(after, owner)
    {
      PinnedShare(refs.pins, name, pin, owner);
    }
  }

  lemma {:induction false} HexPairsLength(hex: Text)
    ensures FromHexPairs(hex).Some? ==> 2 * |FromHexPairs(hex).value| == |hex|
  {
    if |hex| >= 2 { HexPairsLength(hex[2..]); }
  }

  lemma AddPinKeeps(env: Env, caps: Caps, block: Block, who: Authority, height: nat, snapshot: Text, name: Text)
    requires TypedCall(who, height, PinSnapshot(snapshot, name)) && who.Valid() && Within(caps, block.refs)
    ensures var e := AddPin(env, caps, block, who, height, snapshot, name); e.Some? ==> Within(caps, e.value.refs)
  {
    hide Within, RoomFor, Sweep, ControlledPins, OwnedPins, Typed, Proper, Range, Utf8, FromHexPairs,
      ContainsSnapshot, PinEntryLen;
    SweepKeeps(caps, block.refs, height);
    U64Range();
    HexPairsLength(snapshot);
    var refs := Sweep(block.refs, height);
    TallyCovers(refs.staging, refs.pins, who);
    if AddPin(env, caps, block, who, height, snapshot, name).Some? {
      PinKeeps(caps, refs, name, Pin(FromHex32(snapshot).value, who.Actor()));
    }
  }

  lemma RemovePinKeeps(caps: Caps, block: Block, height: nat, name: Text)
    requires Within(caps, block.refs)
    ensures var e := RemovePin(block, height, name); e.Some? ==> Within(caps, e.value.refs)
  {
    hide Within, Sweep;
    SweepKeeps(caps, block.refs, height);
    PinsShrink(caps, Sweep(block.refs, height), name);
  }

  lemma PinsShrink(caps: Caps, refs: Refs, name: Text)
    requires Within(caps, refs)
    ensures Within(caps, refs.(pins := refs.pins - {name}))
  {
    hide Sum, StagingFits, PinFits, WatchesFit, WindowFits, StagingShare, StagedLens, WatchLens, PinEntryLen;
    var after := refs.pins - {name};
    MapCount(after, refs.pins);
    SumPart(PinLens(after), PinLens(refs.pins));
    forall owner
      ensures PinShare(after, owner)
    {
      assert PinShare(refs.pins, owner);
      SubsetCount(OwnedPins(after, owner), OwnedPins(refs.pins, owner));
    }
  }

  lemma WatchKeeps(caps: Caps, refs: Refs, watch: Watch)
    requires Within(caps, refs) && watch !in refs.watches && WatchFits(watch) && |refs.watches| < MAX_WATCHES
    requires RoomFor(refs, WatchEntryLen(watch.0, watch.1), caps.window)
    ensures Within(caps, refs.(watches := refs.watches + {watch}))
  {
    hide Sum, StagingFits, PinsFit, WatchFits, WindowFits, PinShare, StagingShare, StagedLens, PinLens, WatchEntryLen;
    assert WatchLens(refs.watches + {watch}) == WatchLens(refs.watches)[watch := WatchEntryLen(watch.0, watch.1)];
    SumPut(WatchLens(refs.watches), watch, WatchEntryLen(watch.0, watch.1));
  }

  lemma WatchesShrink(caps: Caps, refs: Refs, watch: Watch)
    requires Within(caps, refs)
    ensures Within(caps, refs.(watches := refs.watches - {watch}))
  {
    hide Sum, StagingFits, PinsFit, WatchFits, WindowFits, PinShare, StagingShare, StagedLens, PinLens, WatchEntryLen;
    var after := refs.watches - {watch};
    SubsetCount(after, refs.watches);
    SumPart(WatchLens(after), WatchLens(refs.watches));
  }

  lemma WatchVerbsKeep(env: Env, caps: Caps, block: Block, who: Authority, height: nat, prefix: Text, moduleId: Text)
    requires TypedEnv(env) && TypedCall(who, height, WatchPrefix(prefix, moduleId)) && Within(caps, block.refs)
    ensures var e := AddWatch(env, caps, block, who, height, prefix, moduleId); e.Some? ==> Within(caps, e.value.refs)
    ensures var e := RemoveWatch(env, block, who, height, prefix, moduleId); e.Some? ==> Within(caps, e.value.refs)
  {
    hide Within, RoomFor, Sweep, Typed, Range, Utf8, WatchEntryLen;
    SweepKeeps(caps, block.refs, height);
    U64Range();
    var refs := Sweep(block.refs, height);
    var joined := env.canonical(prefix);
    if joined.Some? {
      if AddWatch(env, caps, block, who, height, prefix,
          moduleId).Some? { WatchKeeps(caps, refs, (joined.value, moduleId)); }
      WatchesShrink(caps, refs, (joined.value, moduleId));
    }
  }

  lemma ApplyKeeps(env: Env, caps: Caps, block: Block, who: Authority, height: nat, verb: Verb)
    requires ValidCaps(caps) && TypedEnv(env) && TypedCall(who, height, verb) && who.Valid() && Within(caps, block.refs)
    ensures var e := Apply(env, caps, block, who, height, verb); e.Some? ==> Within(caps, e.value.refs)
  {
    hide Within, Sweep, StageChunk, AddPin, RemovePin, AddWatch, RemoveWatch, CommitPlan, Typed, Utf8, Range,
      ValidCaps, TypedEnv;
    match verb
    case PutBlob(bytes) => StageChunkKeeps(env, caps, block, who, height, bytes);
    case Commit(plan) => if plan.Some? { CommitPlanKeeps(caps, block, height, plan.value); }
    case Project(candidate) =>
      if candidate.Some? {
        SweepKeeps(caps, block.refs, height);
        WindowKeeps(caps, Sweep(block.refs, height), candidate.value.0);
      }
    case Retain(exchange) =>
      if exchange.Some? {
        SweepKeeps(caps, block.refs, height);
        RetentionKeeps(caps, Sweep(block.refs, height), exchange.value.0);
      }
    case PinSnapshot(snapshot, name) => AddPinKeeps(env, caps, block, who, height, snapshot, name);
    case Unpin(name) => RemovePinKeeps(caps, block, height, name);
    case WatchPrefix(prefix, moduleId) => WatchVerbsKeep(env, caps, block, who, height, prefix, moduleId);
    case UnwatchPrefix(prefix, moduleId) =>
      SweepKeeps(caps, block.refs, height);
      if env.canonical(prefix).Some? {
        WatchesShrink(caps, Sweep(block.refs, height), (env.canonical(prefix).value, moduleId));
      }
      RemoveWatchEffect(env, block, who, height, prefix, moduleId);
  }

  lemma RemoveWatchEffect(env: Env, block: Block, who: Authority, height: nat, prefix: Text, moduleId: Text)
    ensures var e := RemoveWatch(env, block, who, height, prefix, moduleId);
      var swept := Sweep(block.refs, height);
      e.Some? ==>
        env.canonical(prefix).Some?
            && e.value.refs == swept.(watches := swept.watches - {(env.canonical(prefix).value, moduleId)})
  {
    hide Sweep;
  }

  lemma RevisionKeeps(caps: Caps, refs: Refs, revision: nat)
    requires Within(caps, refs) && revision <= MAX_U64
    ensures Within(caps, refs.(revision := revision))
  {
    hide Sum, StagingFits, PinsFit, WatchesFit, WindowFits, PinShare, StagingShare, PinLens, WatchLens, StagedLens,
      Range;
    U64Range();
  }

  lemma TransactKeeps(env: Env, caps: Caps, s: State, who: Authority, height: nat, verb: Verb)
    requires ValidCaps(caps) && TypedEnv(env) && TypedCall(who, height, verb) && AllWithin(caps, s)
    ensures AllWithin(caps, Transact(env, caps, s, who, height, verb).0)
  {
    hide Within, Apply, TypedEnv, TypedCall, ValidCaps;
    if who.Valid() {
      var block := Open(s, height);
      ApplyKeeps(env, caps, block, who, height, verb);
      var e := Apply(env, caps, block, who, height, verb);
      if e.Some? && block.refs.revision + 1 <= MAX_U64 { RevisionKeeps(caps, e.value.refs, block.refs.revision + 1); }
    }
  }

  // ---- shares by authority -------------------------------------------------------------------------

  lemma {:induction false} SumUnion<K(!new)>(whole: map<K, nat>, a: map<K, nat>, b: map<K, nat>)
    requires forall k :: k in whole ==> (k in a && whole[k] <= a[k]) || (k in b && whole[k] <= b[k])
    ensures Sum(whole) <= Sum(a) + Sum(b)
    decreases |whole|
  {
    if whole != map[] {
      var k :| k in whole;
      SumTake(whole, k);
      Smaller(whole, k);
      if k in a && whole[k] <= a[k] {
        SumTake(a, k);
        SumUnion(whole - {k}, a - {k}, b);
      } else {
        SumTake(b, k);
        SumUnion(whole - {k}, a, b - {k});
      }
    }
  }

  // The quota is per owner. An authority controls at most two owners, its key and its account, so
  // what it controls is at most twice the quota, and once the quota where the two are one.
  lemma ControlledShare(caps: Caps, refs: Refs, who: Authority)
    requires Within(caps, refs)
    ensures Sum(ControlledLens(refs.staging, who)) <= 2 * caps.quota
    ensures !(who.External? && who.account.Some?) ==> Sum(ControlledLens(refs.staging, who)) <= caps.quota
  {
    hide Sum, RefsFit, RoomFor;
    var mine := OwnedLens(refs.staging, who.Actor());
    assert StagingShare(caps, refs.staging, who.Actor());
    if who.External? {
      var keyed := OwnedLens(refs.staging, Key(who.key));
      assert StagingShare(caps, refs.staging, Key(who.key));
      SumUnion(ControlledLens(refs.staging, who), mine, keyed);
    }
    if !(who.External? && who.account.Some?) { SumPart(ControlledLens(refs.staging, who), mine); }
  }

  // ---- runs ----------------------------------------------------------------------------------------

  // What can happen to a node: verbs, and the block boundary in any order around them. `Hand` takes
  // the block out for saving, `Adopt` makes what was saved the committed refs.
  datatype Event = Call(who: Authority, height: nat, verb: Verb) | Hand | Adopt | Abort

  ghost function Step(env: Env, caps: Caps, s: State, event: Event): State {
    match event
    case Call(who, height, verb) => Transact(env, caps, s, who, height, verb).0
    case Hand => if s.pending.Some? then s.(pending := None, handed := Some(s.pending.value.refs)) else s
    case Adopt => if s.handed.Some? then s.(refs := s.handed.value, handed := None) else s
    case Abort => s.(pending := None)
  }

  ghost function Run(env: Env, caps: Caps, events: seq<Event>): State {
    if events == [] then FRESH
    else Step(env, caps, Run(env, caps, events[..|events| - 1]), events[|events| - 1])
  }

  predicate TypedEvents(events: seq<Event>) {
    forall i :: 0 <= i < |events| && events[i].Call? ==> TypedCall(events[i].who, events[i].height, events[i].verb)
  }

  lemma FreshIsWithin(caps: Caps)
    requires ValidCaps(caps)
    ensures Within(caps, EMPTY_REFS)
  {
    U64Range();
    assert PinLens(map[]) == map[] && StagedLens(map[]) == map[] && WatchLens({}) == map[];
    forall owner
      ensures StagingShare(caps, map[], owner) && PinShare(map[], owner)
    {
      assert OwnedLens(map[], owner) == map[] && OwnedPins(map[], owner) == {};
    }
  }

  // Every run keeps every limit, and so every refs value it ever commits, builds or hands out has
  // an image that decodes to it again.
  lemma {:induction false} EveryRunStaysWithin(env: Env, caps: Caps, events: seq<Event>)
    requires ValidCaps(caps) && TypedEnv(env) && TypedEvents(events)
    ensures AllWithin(caps, Run(env, caps, events))
  {
    hide Within, Transact, TypedCall, TypedEnv, ValidCaps;
    if events == [] {
      FreshIsWithin(caps);
    } else {
      var before, last := events[..|events| - 1], events[|events| - 1];
      EveryRunStaysWithin(env, caps, before);
      if last.Call? { TransactKeeps(env, caps, Run(env, caps, before), last.who, last.height, last.verb); }
    }
  }

  lemma WithinDecodes(caps: Caps, refs: Refs)
    requires Within(caps, refs)
    ensures DecodeRefs(EncodeRefs(refs)) == Some(refs)
  {
    assert Widths(refs) && |EncodeRefs(refs)| <= MAX_REFS_IMAGE_BYTES by {
      hide EncodeRefs, Shares, Sum, PinLens, StagedLens, WatchLens;
      LengthIsExact(refs);
    }
    assert RefsFit(refs);
    hide EncodeRefs, DecodeRefs, Within, RefsFit;
    ImageIsCanonical(EncodeRefs(refs), refs);
  }

  lemma EveryRunDecodes(env: Env, caps: Caps, events: seq<Event>)
    requires ValidCaps(caps) && TypedEnv(env) && TypedEvents(events)
    ensures var s := Run(env, caps, events);
      && DecodeRefs(EncodeRefs(s.refs)) == Some(s.refs) && DecodeRefs(EncodeRefs(Effective(s))) == Some(Effective(s))
      && (s.handed.Some? ==> DecodeRefs(EncodeRefs(s.handed.value)) == Some(s.handed.value))
  {
    hide Within, EncodeRefs, DecodeRefs, Run, ValidCaps, TypedEnv, TypedEvents;
    EveryRunStaysWithin(env, caps, events);
    var s := Run(env, caps, events);
    WithinDecodes(caps, s.refs);
    WithinDecodes(caps, Effective(s));
    if s.handed.Some? { WithinDecodes(caps, s.handed.value); }
  }
}
