// The filesystem object (crates/duckfs/core/src/fs.rs): verbs edit the block's overlay in place and
// one transaction makes each of them all or nothing.
module FileSystems {
  import opened Wrappers
  import opened Texts
  import opened Kinds
  import opened Actors
  import opened Sums
  import opened RefsImage
  import opened RefsLength
  import opened Records
  import opened Verbs
  import opened Runs
  import Chunks

  // The block after a verb's effect, before the revision moves.
  function Applied(env: Env, block: Block, effect: Effect): Block {
    block.(refs := effect.refs, objects := block.objects + effect.objects,
        index := Indexed(env, block.index, effect.objects))
  }

  lemma AppliedNothing(env: Env, block: Block, refs: Refs)
    ensures Applied(env, block, Effect(refs, [])) == block.(refs := refs)
  {
    assert block.objects + [] == block.objects;
  }

  // ---- what the checks measure ---------------------------------------------------------------------

  method SumOf<K(==, !new)>(m: map<K, nat>) returns (total: nat)
    ensures total == Sum(m)
  {
    total := 0;
    var left := m;
    assert left == m;
    while left != map[]
      invariant total + Sum(left) == Sum(m)
      decreases |left|
    {
      var k :| k in left;
      SumTake(left, k);
      Smaller(left, k);
      total := total + left[k];
      left := left - {k};
    }
  }

  method RefsLen(refs: Refs) returns (len: nat)
    ensures len == EncodedRefsLen(refs)
  {
    var pins := SumOf(PinLens(refs.pins));
    var staging := SumOf(StagedLens(refs.staging));
    var watches := SumOf(WatchLens(refs.watches));
    len := IdLen(refs.head) + (4 + 32 * |refs.window|) + (4 + pins) + (4 + staging) + (4 + watches) + 8
        + IdLen(refs.retention);
  }

  // `refuse_refs_growth`, the other way up.
  method HasRoom(refs: Refs, entryLen: nat, window: nat) returns (ok: bool)
    ensures ok == RoomFor(refs, entryLen, window)
  {
    var len := RefsLen(refs);
    ok := len + entryLen + Headroom(refs, window) <= MAX_REFS_IMAGE_BYTES;
  }

  function TalliedLens(staging: map<Id, Staged>, who: Authority, todo: set<Id>): map<Id, nat> {
    map d | d in staging && d !in todo && who.Controls(staging[d].owner) :: staging[d].len
  }

  lemma TalliesOne(staging: map<Id, Staged>, who: Authority, todo: set<Id>, d: Id)
    requires d in todo && d in staging
    ensures var (before, after) := (TalliedLens(staging, who, todo), TalliedLens(staging, who, todo - {d}));
      if who.Controls(staging[d].owner) then Sum(after) == Sum(before) + staging[d].len && |after| == |before| + 1
      else after == before
  {
    hide Sum;
    var before, after := TalliedLens(staging, who, todo), TalliedLens(staging, who, todo - {d});
    if who.Controls(staging[d].owner) {
      assert after == before[d := staging[d].len];
      SumPut(before, d, staging[d].len);
      OneMoreKey(before, d, staging[d].len);
    } else {
      assert after == before;
    }
  }

  // What an authority's staged chunks add up to, saturating at a u64, and how many there are.
  method Tally(staging: map<Id, Staged>, who: Authority) returns (used: nat, entries: nat)
    ensures used == Saturate(Sum(ControlledLens(staging, who))) && entries == |ControlledLens(staging, who)|
  {
    hide *;
    used, entries := 0, 0;
    var todo := staging.Keys;
    TalliesNone(staging, who);
    while todo != {}
      invariant todo <= staging.Keys
      invariant used == Saturate(Sum(TalliedLens(staging, who, todo))) && entries == |TalliedLens(staging, who, todo)|
      decreases todo
    {
      var d :| d in todo;
      TalliesOne(staging, who, todo, d);
      if who.Controls(staging[d].owner) {
        SaturateTwice(Sum(TalliedLens(staging, who, todo)), staging[d].len);
        used := Saturate(used + staging[d].len);
        entries := entries + 1;
      }
      todo := todo - {d};
    }
    TalliesAll(staging, who);
  }

  lemma TalliesAll(staging: map<Id, Staged>, who: Authority)
    ensures TalliedLens(staging, who, {}) == ControlledLens(staging, who)
  {
  }

  lemma TalliesNone(staging: map<Id, Staged>, who: Authority)
    ensures var none := TalliedLens(staging, who, staging.Keys); |none| == 0 && Saturate(Sum(none)) == 0
  {
    assert TalliedLens(staging, who, staging.Keys) == map[];
  }

  lemma SaturateTwice(a: nat, b: nat)
    ensures Saturate(Saturate(a) + b) == Saturate(a + b)
  {
  }

  // ---- the object ----------------------------------------------------------------------------------

  class Fs {
    const env: Env
    const caps: Caps
    var refs: Refs
    var pending: Option<Block>
    var handed: Option<Refs>

    constructor (env: Env, caps: Caps)
      ensures this.env == env && this.caps == caps && Now() == FRESH
    {
      this.env, this.caps := env, caps;
      refs, pending, handed := EMPTY_REFS, None, None;
    }

    function Now(): State
      reads this
    {
      State(refs, pending, handed)
    }

    // What a verb did to the block: its effect, or, where it was refused, nothing but to the refs.
    ghost predicate Did(before: Block, e: Option<Effect>, ok: bool)
      reads this
    {
      && pending.Some? && ok == e.Some?
      && (ok ==> pending.value == Applied(env, before, e.value))
      && (!ok ==> pending.value.(refs := before.refs) == before)
    }

    method RequirePending(height: nat)
      modifies this`pending
      ensures pending == Some(Open(old(Now()), height))
    {
      if pending.None? {
        pending := Some(Block(refs, [], map[], height));
      }
    }

    method SetRefs(after: Refs)
      requires pending.Some?
      modifies this`pending
      ensures pending == Some(old(pending.value).(refs := after))
    {
      pending := Some(pending.value.(refs := after));
    }

    method PushObjects(objects: seq<Blob>)
      requires pending.Some?
      modifies this`pending
      ensures pending == Some(Applied(env, old(pending.value), Effect(old(pending.value).refs, objects)))
    {
      var n := 0;
      AppliedNothing(env, pending.value, pending.value.refs);
      while n < |objects|
        invariant n <= |objects| && pending.Some?
        invariant pending.value == Applied(env, old(pending.value), Effect(old(pending.value).refs, objects[..n]))
      {
        var blob := objects[n];
        assert objects[..n + 1][..n] == objects[..n];
        pending := Some(pending.value.(objects := pending.value.objects + [blob],
                                       index := pending.value.index[env.hash(blob) := (blob.kind, |blob.body|)]));
        n := n + 1;
      }
      assert objects[..n] == objects;
    }

    method PutBlobApply(who: Authority, height: nat, bytes: Text) returns (ok: bool)
      requires pending.Some?
      modifies this`pending
      ensures Did(old(pending.value), StageChunk(env, caps, old(pending.value), who, height, bytes), ok)
    {
      hide Sum, RoomFor, ControlledLens, Sweep, StagedEntryLen, Saturate;
      var swept := Sweep(pending.value.refs, height);
      SetRefs(swept);
      AppliedNothing(env, old(pending.value), swept);
      if bytes == [] {
        return false;
      }
      if |bytes| > Chunks.CHUNK_SIZE {
        return false;
      }
      var digest := env.hash(Blob(ChunkKind, bytes));
      if digest in pending.value.index || digest in swept.staging {
        return true;
      }
      if |swept.staging| >= caps.entries {
        return false;
      }
      var used, entries := Tally(swept.staging, who);
      if entries >= caps.entriesPerOwner {
        return false;
      }
      if Saturate(used + |bytes|) > caps.quota {
        return false;
      }
      var room := HasRoom(swept, StagedEntryLen(who.Actor()), caps.window);
      if !room {
        return false;
      }
      var staged := Staged(who.Actor(), |bytes|, Saturate(height + STAGING_TTL_BLOCKS));
      SetRefs(swept.(staging := swept.staging[digest := staged]));
      PushObjects([Blob(ChunkKind, bytes)]);
      ok := true;
    }

    // The engine's plan lands in one step; a commit it refused leaves the block alone.
    method CommitApply(height: nat, plan: Option<Plan>) returns (ok: bool)
      requires pending.Some?
      modifies this`pending
      ensures Did(old(pending.value),
          if plan.None? then None else Some(CommitPlan(caps, old(pending.value), height, plan.value)), ok)
    {
      if plan.None? {
        return false;
      }
      var after := Sweep(pending.value.refs, height);
      var window := PushWindow(after.window, plan.value.snapshot);
      after := after.(head := Some(plan.value.snapshot), window := window);
      var n := 0;
      ghost var staging := after.staging;
      assert staging - {} == staging;
      while n < |plan.value.references|
        invariant n <= |plan.value.references|
        invariant after == Sweep(old(pending.value).refs, height).(head := Some(plan.value.snapshot), window := window,
            staging := after.staging)
        invariant after.staging == staging - Named(plan.value.references[..n])
      {
        assert plan.value.references[..n + 1] == plan.value.references[..n] + [plan.value.references[n]];
        assert Named(plan.value.references[..n + 1]) == Named(plan.value.references[..n]) + {plan.value.references[n]};
        after := after.(staging := after.staging - {plan.value.references[n]});
        n := n + 1;
      }
      assert plan.value.references[..n] == plan.value.references;
      SetRefs(after);
      PushObjects(plan.value.objects);
      ok := true;
    }

    // The newest entry at the back, the oldest off the front until the window fits.
    method PushWindow(window: seq<Id>, id: Id) returns (after: seq<Id>)
      ensures after == Trim(window + [id], caps.window)
    {
      after := window + [id];
      ghost var dropped := 0;
      while |after| > caps.window
        invariant dropped <= |window| + 1 && after == (window + [id])[dropped..]
        invariant dropped > 0 ==> |after| >= caps.window
      {
        after := after[1..];
        dropped := dropped + 1;
      }
    }

    method ProjectApply(height: nat, candidate: Option<(Id, seq<Blob>)>) returns (ok: bool)
      requires pending.Some?
      modifies this`pending
      ensures Did(old(pending.value),
          if candidate.None? then None
          else Some(ProjectCandidate(caps, old(pending.value), height, candidate.value)), ok)
    {
      if candidate.None? {
        return false;
      }
      var swept := Sweep(pending.value.refs, height);
      var window := PushWindow(swept.window, candidate.value.0);
      SetRefs(swept.(window := window));
      PushObjects(candidate.value.1);
      ok := true;
    }

    method RetainApply(who: Authority, height: nat, exchange: Option<(Option<Id>, seq<Blob>)>) returns (ok: bool)
      requires pending.Some?
      modifies this`pending
      ensures Did(old(pending.value), Apply(env, caps, old(pending.value), who, height, Retain(exchange)), ok)
    {
      if !who.OfModule? || exchange.None? {
        return false;
      }
      SetRefs(Sweep(pending.value.refs, height).(retention := exchange.value.0));
      PushObjects(exchange.value.1);
      ok := true;
    }

    method PinApply(who: Authority, height: nat, snapshot: Text, name: Text) returns (ok: bool)
      requires pending.Some?
      modifies this`pending
      ensures Did(old(pending.value), AddPin(env, caps, old(pending.value), who, height, snapshot, name), ok)
    {
      hide RoomFor, ControlledPins, Sweep, PinEntryLen, FromHexPairs, ContainsSnapshot;
      var swept := Sweep(pending.value.refs, height);
      SetRefs(swept);
      if name == [] || |name| > MAX_PIN_NAME_BYTES {
        return false;
      }
      if |swept.pins| >= MAX_PINS || name in swept.pins {
        return false;
      }
      if |ControlledPins(swept.pins, who)| >= MAX_PINS_PER_OWNER {
        return false;
      }
      var id := FromHex32(snapshot);
      if id.None? || ContainsSnapshot(env, swept, id.value) != Some(true) {
        return false;
      }
      var room := HasRoom(swept, PinEntryLen(name, who.Actor()), caps.window);
      if !room {
        return false;
      }
      var after := swept.(pins := swept.pins[name := Pin(id.value, who.Actor())]);
      SetRefs(after);
      AppliedNothing(env, old(pending.value), after);
      ok := true;
    }

    method UnpinApply(height: nat, name: Text) returns (ok: bool)
      requires pending.Some?
      modifies this`pending
      ensures Did(old(pending.value), RemovePin(old(pending.value), height, name), ok)
    {
      var swept := Sweep(pending.value.refs, height);
      SetRefs(swept);
      if name !in swept.pins {
        return false;
      }
      var after := swept.(pins := swept.pins - {name});
      SetRefs(after);
      AppliedNothing(env, old(pending.value), after);
      ok := true;
    }

    method WatchApply(who: Authority, height: nat, prefix: Text, moduleId: Text) returns (ok: bool)
      requires pending.Some?
      modifies this`pending
      ensures Did(old(pending.value), AddWatch(env, caps, old(pending.value), who, height, prefix, moduleId), ok)
    {
      hide RoomFor, Sweep, WatchEntryLen;
      var swept := Sweep(pending.value.refs, height);
      SetRefs(swept);
      if !MayWatch(who, moduleId) || moduleId == [] || |moduleId| > MAX_WATCH_MODULE_ID_BYTES {
        return false;
      }
      var joined := env.canonical(prefix);
      if joined.None? || |swept.watches| >= MAX_WATCHES || (joined.value, moduleId) in swept.watches {
        return false;
      }
      var room := HasRoom(swept, WatchEntryLen(joined.value, moduleId), caps.window);
      if !room {
        return false;
      }
      var after := swept.(watches := swept.watches + {(joined.value, moduleId)});
      SetRefs(after);
      AppliedNothing(env, old(pending.value), after);
      ok := true;
    }

    method UnwatchApply(who: Authority, height: nat, prefix: Text, moduleId: Text) returns (ok: bool)
      requires pending.Some?
      modifies this`pending
      ensures Did(old(pending.value), RemoveWatch(env, old(pending.value), who, height, prefix, moduleId), ok)
    {
      var swept := Sweep(pending.value.refs, height);
      SetRefs(swept);
      if !MayWatch(who, moduleId) {
        return false;
      }
      var joined := env.canonical(prefix);
      if joined.None? || (joined.value, moduleId) !in swept.watches {
        return false;
      }
      var after := swept.(watches := swept.watches - {(joined.value, moduleId)});
      SetRefs(after);
      AppliedNothing(env, old(pending.value), after);
      ok := true;
    }

    method ApplyVerb(who: Authority, height: nat, verb: Verb) returns (ok: bool)
      requires pending.Some?
      modifies this`pending
      ensures Did(old(pending.value), Apply(env, caps, old(pending.value), who, height, verb), ok)
    {
      hide Did, StageChunk, AddPin, RemovePin, AddWatch, RemoveWatch, CommitPlan, ProjectCandidate;
      match verb {
        case PutBlob(bytes) => ok := PutBlobApply(who, height, bytes);
        case Commit(plan) => ok := CommitApply(height, plan);
        case Project(candidate) => ok := ProjectApply(height, candidate);
        case Retain(exchange) => ok := RetainApply(who, height, exchange);
        case PinSnapshot(snapshot, name) => ok := PinApply(who, height, snapshot, name);
        case Unpin(name) => ok := UnpinApply(height, name);
        case WatchPrefix(prefix, moduleId) => ok := WatchApply(who, height, prefix, moduleId);
        case UnwatchPrefix(prefix, moduleId) => ok := UnwatchApply(who, height, prefix, moduleId);
      }
    }

    method Transact(who: Authority, height: nat, verb: Verb) returns (ok: bool)
      modifies this`pending
      ensures (Now(), ok) == Verbs.Transact(env, caps, old(Now()), who, height, verb)
    {
      hide Apply, Indexed;
      if !who.Valid() {
        return false;
      }
      RequirePending(height);
      var before := pending.value.refs;
      if before.revision + 1 > MAX_U64 {
        return false;
      }
      ghost var block := pending.value;
      ok := ApplyVerb(who, height, verb);
      if ok {
        if pending.value.refs != before {
          SetRefs(pending.value.refs.(revision := before.revision + 1));
        }
      } else {
        SetRefs(before);
      }
    }

    // The block boundary: hand out, adopt what was saved, or drop.
    method CommitBlock() returns (block: Option<Block>)
      modifies this
      ensures block == old(pending)
      ensures Now() == Step(env, caps, old(Now()), Hand)
    {
      block := pending;
      if pending.Some? {
        handed := Some(pending.value.refs);
      }
      pending := None;
    }

    method AdoptRefs()
      modifies this
      ensures Now() == Step(env, caps, old(Now()), Adopt)
    {
      if handed.Some? {
        refs, handed := handed.value, None;
      }
    }

    method AbortBlock()
      modifies this
      ensures Now() == Step(env, caps, old(Now()), Abort)
    {
      pending := None;
    }
  }
}
