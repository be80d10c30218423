// Whom the staging quota holds (crates/duckfs/core/src/fs.rs:470-563): what an authority has staged
// stays within it over every run exactly if the authority does not own by a key and by an account at
// once. One that does fills the quota with its account and goes on without it.
module Quotas {
  import opened Wrappers
  import opened Texts
  import opened Kinds
  import opened Grammars
  import opened Actors
  import opened Sums
  import opened RefsImage
  import opened RefsLength
  import opened Records
  import opened Verbs
  import opened Runs
  import Chunks

  // The limits a node runs with.
  const PRODUCTION := Caps(0x4000_0000, HISTORY_WINDOW, MAX_STAGING_ENTRIES, 4096)

  ghost function StagedBy(env: Env, caps: Caps, events: seq<Event>, who: Authority): nat {
    Sum(ControlledLens(Effective(Run(env, caps, events)).staging, who))
  }

  // An authority whose account and whose key are both actors the images accept.
  predicate OwnsTwice(who: Authority) {
    who.External? && who.account.Some? && Proper(who.Actor()) && Proper(Key(who.key))
  }

  // ---- the chunks staged ---------------------------------------------------------------------------

  function PieceLen(caps: Caps): nat {
    if caps.quota < Chunks.CHUNK_SIZE then caps.quota else Chunks.CHUNK_SIZE
  }

  // How many pieces the quota takes.
  function Pieces(caps: Caps): nat
    requires caps.quota > 0
  {
    caps.quota / PieceLen(caps)
  }

  function Piece(caps: Caps, i: nat): Text {
    ToBytes(PieceLen(caps), i)
  }

  function PieceBlob(caps: Caps, i: nat): Blob {
    Blob(ChunkKind, Piece(caps, i))
  }

  // The caps leave room for one authority's two shares.
  predicate BothSharesFit(caps: Caps, keyLen: nat) {
    && caps.quota > 0 && Pieces(caps) < caps.entries && Pieces(caps) <= caps.entriesPerOwner
    && 26 + 57 * Pieces(caps) + 57 + keyLen + 64 + 32 * caps.window <= MAX_REFS_IMAGE_BYTES
  }

  // The hash tells the pieces apart.
  ghost predicate ToldApart(env: Env, caps: Caps)
    requires caps.quota > 0
  {
    forall i, j {:trigger PieceBlob(caps, i), PieceBlob(caps, j)} :: 0 <= i < j <= Pieces(caps) ==>
      env.hash(PieceBlob(caps, i)) != env.hash(PieceBlob(caps, j))
  }

  // In production there is room for every key up to most of the image, so for every key of a protocol.
  lemma ProductionFits(keyLen: nat)
    requires keyLen <= 900_000
    ensures ValidCaps(PRODUCTION) && BothSharesFit(PRODUCTION, keyLen) && Pieces(PRODUCTION) == 1024
  {
    assert PieceLen(PRODUCTION) == Chunks.CHUNK_SIZE;
    assert 1024 * Chunks.CHUNK_SIZE == PRODUCTION.quota;
  }

  lemma PiecesFill(caps: Caps)
    requires caps.quota > 0
    ensures Pieces(caps) >= 1 && Pieces(caps) * PieceLen(caps) <= caps.quota
    ensures caps.quota < Pieces(caps) * PieceLen(caps) + PieceLen(caps)
  {
    var q, p := caps.quota, PieceLen(caps);
    assert q == p * (q / p) + q % p && 0 <= q % p < p;
    assert p * (q / p) > 0;
    assert q / p >= 1;
  }

  // Within each limit, one more piece of this length still fits below the last.
  lemma PiecesBelow(caps: Caps, i: nat)
    requires caps.quota > 0 && i < Pieces(caps)
    ensures i * PieceLen(caps) + PieceLen(caps) <= caps.quota
  {
    PiecesFill(caps);
    var p := PieceLen(caps);
    assert i * p + p == (i + 1) * p <= Pieces(caps) * p;
  }

  // ---- staging one piece ---------------------------------------------------------------------------

  function WithPiece(env: Env, caps: Caps, staging: map<Id, Staged>, owner: Actor, i: nat): map<Id, Staged> {
    staging[env.hash(PieceBlob(caps, i)) := Staged(owner, PieceLen(caps), STAGING_TTL_BLOCKS)]
  }

  // The block holds these staged bytes and nothing else.
  ghost predicate Holding(s: State, revision: nat, staging: map<Id, Staged>) {
    var block := Verbs.Open(s, 0);
    && block.refs == EMPTY_REFS.(revision := revision, staging := staging)
    && block.index.Keys == staging.Keys && Effective(s).staging == staging
  }

  // There is room for one more piece of this authority's.
  ghost predicate Roomy(env: Env, caps: Caps, revision: nat, staging: map<Id, Staged>, who: Authority, i: nat) {
    && who.Valid() && revision < MAX_U64 && caps.quota < MAX_U64
    && 0 < PieceLen(caps) && env.hash(PieceBlob(caps, i)) !in staging
    && (forall d :: d in staging ==> staging[d].expires > 0)
    && |staging| < caps.entries && |ControlledLens(staging, who)| < caps.entriesPerOwner
    && Sum(ControlledLens(staging, who)) + PieceLen(caps) <= caps.quota
    && 26 + Sum(StagedLens(staging)) + StagedEntryLen(who.Actor()) + 64 + 32 * caps.window <= MAX_REFS_IMAGE_BYTES
  }

  lemma SumNothing()
    ensures Sum<Id>(map[]) == 0 && Sum(PinLens(map[])) == 0 && Sum(WatchLens({})) == 0
  {
    assert PinLens(map[]) == map[] && WatchLens({}) == map[];
  }

  lemma ThereIsRoom(caps: Caps, revision: nat, staging: map<Id, Staged>, entryLen: nat)
    requires 26 + Sum(StagedLens(staging)) + entryLen + 64 + 32 * caps.window <= MAX_REFS_IMAGE_BYTES
    ensures RoomFor(EMPTY_REFS.(revision := revision, staging := staging), entryLen, caps.window)
  {
    hide StagedLens, PinLens, WatchLens, Sum;
    SumNothing();
  }

  lemma OneIndexed(env: Env, index: map<Id, (ObjectKind, nat)>, chunk: Blob)
    ensures Indexed(env, index, [chunk]).Keys == index.Keys + {env.hash(chunk)}
  {
    assert [chunk][..0] == [];
  }

  lemma NothingExpires(refs: Refs)
    requires forall d :: d in refs.staging ==> refs.staging[d].expires > 0
    ensures Sweep(refs, 0) == refs
  {
    assert Sweep(refs, 0).staging == refs.staging;
  }

  lemma PieceIsStaged(env: Env, caps: Caps, block: Block, who: Authority, i: nat)
    requires Roomy(env, caps, block.refs.revision, block.refs.staging, who, i)
    requires block.refs == EMPTY_REFS.(revision := block.refs.revision, staging := block.refs.staging)
    requires block.index.Keys == block.refs.staging.Keys
    ensures StageChunk(env, caps, block, who, 0, Piece(caps, i))
         == Some(Effect(block.refs.(staging := WithPiece(env, caps, block.refs.staging, who.Actor(), i)),
                        [PieceBlob(caps, i)]))
  {
    hide EncodedLen, ControlledLens, StagedLens, Sum, Actors.Proper, RoomFor, ToBytes, Sweep;
    NothingExpires(block.refs);
    ThereIsRoom(caps, block.refs.revision, block.refs.staging, StagedEntryLen(who.Actor()));
  }

  lemma Stages(env: Env, caps: Caps, s: State, revision: nat, staging: map<Id, Staged>, who: Authority, i: nat)
    requires Holding(s, revision, staging) && Roomy(env, caps, revision, staging, who, i)
    ensures Holding(Step(env, caps, s, Call(who, 0, PutBlob(Piece(caps, i)))), revision + 1,
                    WithPiece(env, caps, staging, who.Actor(), i))
  {
    hide StageChunk, Sum, ControlledLens, StagedLens, Indexed, EncodedLen, ToBytes, PieceLen, Step, Piece, Saturate;
    var block, after := Verbs.Open(s, 0), WithPiece(env, caps, staging, who.Actor(), i);
    PieceIsStaged(env, caps, block, who, i);
    OneIndexed(env, block.index, PieceBlob(caps, i));
    assert env.hash(PieceBlob(caps, i)) in after;
    var effect := Effect(block.refs.(staging := after), [PieceBlob(caps, i)]);
    Accepted(env, caps, s, who, Piece(caps, i), effect);
  }

  lemma Accepted(env: Env, caps: Caps, s: State, who: Authority, bytes: Text, effect: Effect)
    requires who.Valid() && Verbs.Open(s, 0).refs.revision < MAX_U64 && effect.refs != Verbs.Open(s, 0).refs
    requires StageChunk(env, caps, Verbs.Open(s, 0), who, 0, bytes) == Some(effect)
    ensures var after, block := Step(env, caps, s, Call(who, 0, PutBlob(bytes))), Verbs.Open(s, 0);
      && after.pending.Some?
      && after.pending.value.refs == effect.refs.(revision := block.refs.revision + 1)
      && after.pending.value.index == Indexed(env, block.index, effect.objects)
  {
    hide StageChunk, Indexed, Sum, EncodedLen, Sweep;
  }

  // ---- filling the quota ---------------------------------------------------------------------------

  function Uploads(caps: Caps, who: Authority, n: nat): seq<Event> {
    if n == 0 then [] else Uploads(caps, who, n - 1) + [Call(who, 0, PutBlob(Piece(caps, n - 1)))]
  }

  function Uploaded(env: Env, caps: Caps, owner: Actor, n: nat): map<Id, Staged> {
    if n == 0 then map[] else WithPiece(env, caps, Uploaded(env, caps, owner, n - 1), owner, n - 1)
  }

  lemma OneMore(env: Env, caps: Caps, staging: map<Id, Staged>, owner: Actor, i: nat)
    requires env.hash(PieceBlob(caps, i)) !in staging
    ensures var after := WithPiece(env, caps, staging, owner, i);
      && |after| == |staging| + 1 && Sum(StagedLens(after)) == Sum(StagedLens(staging)) + StagedEntryLen(owner)
      && after.Keys == staging.Keys + {env.hash(PieceBlob(caps, i))}
  {
    hide Sum, PieceLen, PieceBlob, StagedEntryLen, StagedLens;
    var d, entry := env.hash(PieceBlob(caps, i)), Staged(owner, PieceLen(caps), STAGING_TTL_BLOCKS);
    StagedAfter(staging, d, entry);
    SumPut(StagedLens(staging), d, StagedEntryLen(owner));
    OneEntryMore(staging, d, entry);
  }

  lemma StagedAfter(staging: map<Id, Staged>, d: Id, entry: Staged)
    requires d !in staging
    ensures d !in StagedLens(staging)
    ensures StagedLens(staging[d := entry]) == StagedLens(staging)[d := StagedEntryLen(entry.owner)]
  {
    hide StagedEntryLen;
  }

  lemma OneEntryMore<K, V>(m: map<K, V>, k: K, v: V)
    requires k !in m
    ensures |m[k := v]| == |m| + 1 && m[k := v].Keys == m.Keys + {k}
  {
    assert m[k := v].Keys == m.Keys + {k};
    assert |m[k := v].Keys| == |m[k := v]| && |m.Keys| == |m|;
  }

  lemma ControlledAfter(staging: map<Id, Staged>, who: Authority, d: Id, entry: Staged)
    requires d !in staging
    ensures d !in ControlledLens(staging, who)
    ensures ControlledLens(staging[d := entry], who)
         == if who.Controls(entry.owner) then ControlledLens(staging, who)[d := entry.len]
            else ControlledLens(staging, who)
  {
  }

  lemma OneMoreControlled(env: Env, caps: Caps, staging: map<Id, Staged>, owner: Actor, i: nat, who: Authority)
    requires env.hash(PieceBlob(caps, i)) !in staging
    ensures var after := WithPiece(env, caps, staging, owner, i);
      if who.Controls(owner) then
        && |ControlledLens(after, who)| == |ControlledLens(staging, who)| + 1
        && Sum(ControlledLens(after, who)) == Sum(ControlledLens(staging, who)) + PieceLen(caps)
      else ControlledLens(after, who) == ControlledLens(staging, who)
  {
    hide Sum, PieceLen, PieceBlob, ControlledLens;
    var d := env.hash(PieceBlob(caps, i));
    ControlledAfter(staging, who, d, Staged(owner, PieceLen(caps), STAGING_TTL_BLOCKS));
    SumPut(ControlledLens(staging, who), d, PieceLen(caps));
    OneEntryMore(ControlledLens(staging, who), d, PieceLen(caps));
  }

  lemma {:induction false} UploadedIs(env: Env, caps: Caps, owner: Actor, n: nat)
    requires caps.quota > 0 && ToldApart(env, caps) && n <= Pieces(caps)
    ensures var staging := Uploaded(env, caps, owner, n);
      && |staging| == n && Sum(StagedLens(staging)) == n * StagedEntryLen(owner)
      && (forall d :: d in staging ==> staging[d].expires > 0)
      && (forall i :: n <= i <= Pieces(caps) ==> env.hash(PieceBlob(caps, i)) !in staging)
    decreases n
  {
    hide Sum, PieceLen, Piece, StagedEntryLen, Pieces, StagedLens, PieceBlob;
    if n == 0 {
      NothingStaged();
    } else {
      UploadedIs(env, caps, owner, n - 1);
      OneMore(env, caps, Uploaded(env, caps, owner, n - 1), owner, n - 1);
      Times(n, StagedEntryLen(owner));
      forall i | n <= i <= Pieces(caps)
        ensures env.hash(PieceBlob(caps, i)) !in Uploaded(env, caps, owner, n)
      {
        assert env.hash(PieceBlob(caps, n - 1)) != env.hash(PieceBlob(caps, i));
      }
    }
  }

  lemma NothingStaged()
    ensures Sum(StagedLens(map[])) == 0 && forall who: Authority :: ControlledLens(map[], who) == map[]
  {
    SumNothing();
    assert StagedLens(map[]) == map[];
  }

  lemma Times(n: nat, p: nat)
    requires n > 0
    ensures n * p == (n - 1) * p + p
  {
  }

  lemma {:induction false} UploadedControlled(env: Env, caps: Caps, who: Authority, owner: Actor, n: nat)
    requires caps.quota > 0 && ToldApart(env, caps) && n <= Pieces(caps)
    ensures var lens := ControlledLens(Uploaded(env, caps, owner, n), who);
      if who.Controls(owner) then |lens| == n && Sum(lens) == n * PieceLen(caps) else lens == map[]
    decreases n
  {
    hide *;
    if n == 0 {
      NothingStaged();
      SumNothing();
      NothingUploaded(env, caps, owner);
    } else {
      var before := Uploaded(env, caps, owner, n - 1);
      UploadedControlled(env, caps, who, owner, n - 1);
      UploadedIs(env, caps, owner, n - 1);
      UploadedNext(env, caps, owner, n);
      OneMoreControlled(env, caps, before, owner, n - 1, who);
      Times(n, PieceLen(caps));
    }
  }

  lemma NothingUploaded(env: Env, caps: Caps, owner: Actor)
    ensures Uploaded(env, caps, owner, 0) == map[]
  {
  }

  lemma UploadedNext(env: Env, caps: Caps, owner: Actor, n: nat)
    requires n > 0
    ensures Uploaded(env, caps, owner, n) == WithPiece(env, caps, Uploaded(env, caps, owner, n - 1), owner, n - 1)
  {
    hide WithPiece;
  }

  lemma AccountHasRoom(env: Env, caps: Caps, who: Authority, n: nat)
    requires OwnsTwice(who) && caps.quota < MAX_U64 && BothSharesFit(caps, |who.key|) && ToldApart(env, caps)
    requires n < Pieces(caps)
    ensures Roomy(env, caps, n, Uploaded(env, caps, who.Actor(), n), who, n)
  {
    hide Sum, ControlledLens, StagedLens, ToldApart, Uploaded;
    UploadedIs(env, caps, who.Actor(), n);
    UploadedControlled(env, caps, who, who.Actor(), n);
    PiecesBelow(caps, n);
    PiecesFill(caps);
    SmallCount(caps);
  }

  lemma SmallCount(caps: Caps)
    requires caps.quota > 0
    ensures Pieces(caps) <= caps.quota
  {
    PiecesFill(caps);
    assert Pieces(caps) * 1 <= Pieces(caps) * PieceLen(caps);
  }

  lemma {:induction false} AccountFills(env: Env, caps: Caps, who: Authority, n: nat)
    requires OwnsTwice(who) && caps.quota < MAX_U64 && BothSharesFit(caps, |who.key|) && ToldApart(env, caps)
    requires n <= Pieces(caps)
    ensures Holding(Run(env, caps, Uploads(caps, who, n)), n, Uploaded(env, caps, who.Actor(), n))
    decreases n
  {
    hide Holding, Step, Roomy, ToldApart, BothSharesFit, Pieces, PieceLen, Piece, PieceBlob;
    if n == 0 {
      NothingYet();
    } else {
      AccountFills(env, caps, who, n - 1);
      AccountHasRoom(env, caps, who, n - 1);
      var events := Uploads(caps, who, n);
      assert events[..|events| - 1] == Uploads(caps, who, n - 1);
      Stages(env, caps, Run(env, caps, Uploads(caps, who, n - 1)), n - 1, Uploaded(env, caps, who.Actor(), n - 1), who,
             n - 1);
    }
  }

  lemma NothingYet()
    ensures Holding(FRESH, 0, map[])
  {
  }

  // The quota filled with the account, and one more piece staged with the key alone.
  function PastTheQuota(caps: Caps, who: Authority): seq<Event>
    requires who.External? && caps.quota > 0
  {
    Uploads(caps, who, Pieces(caps)) + [Call(External(who.key, None), 0, PutBlob(Piece(caps, Pieces(caps))))]
  }

  lemma KeyHasRoom(env: Env, caps: Caps, who: Authority)
    requires OwnsTwice(who) && caps.quota < MAX_U64 && BothSharesFit(caps, |who.key|) && ToldApart(env, caps)
    ensures var n := Pieces(caps);
      Roomy(env, caps, n, Uploaded(env, caps, who.Actor(), n), External(who.key, None), n)
  {
    hide Sum, ControlledLens, StagedLens, ToldApart, Uploaded;
    UploadedIs(env, caps, who.Actor(), Pieces(caps));
    UploadedControlled(env, caps, External(who.key, None), who.Actor(), Pieces(caps));
    SumNothing();
    PiecesFill(caps);
    SmallCount(caps);
  }

  lemma {:induction false} UploadsAreTyped(caps: Caps, who: Authority, n: nat)
    requires Typed(who.Actor())
    ensures TypedEvents(Uploads(caps, who, n))
    decreases n
  {
    hide Piece;
    if n > 0 { UploadsAreTyped(caps, who, n - 1); }
  }

  // Every authority that owns by key and by account, under any limits with room for both shares, has
  // a run after which it controls more than the quota.
  lemma RunsPastTheQuota(env: Env, caps: Caps, who: Authority)
    requires OwnsTwice(who) && Typed(who.Actor()) && ValidCaps(caps)
    requires BothSharesFit(caps, |who.key|) && ToldApart(env, caps)
    ensures TypedEvents(PastTheQuota(caps, who))
    ensures StagedBy(env, caps, PastTheQuota(caps, who), who) > caps.quota
  {
    hide Sum, Holding, Step, Roomy, ToldApart, Pieces, PieceLen, Piece, PieceBlob, ControlledLens, Uploaded,
      Effective, Run;
    var n, keyed := Pieces(caps), External(who.key, None);
    var staging := Uploaded(env, caps, who.Actor(), n);
    var events, last := Uploads(caps, who, n), Call(keyed, 0, PutBlob(Piece(caps, n)));
    UploadsAreTyped(caps, who, n);
    KeyIsTyped(caps, who);
    AccountFills(env, caps, who, n);
    KeyHasRoom(env, caps, who);
    Stages(env, caps, Run(env, caps, events), n, staging, keyed, n);
    OneStepMore(env, caps, events, last);
    UploadedIs(env, caps, who.Actor(), n);
    UploadedControlled(env, caps, who, who.Actor(), n);
    OneMoreControlled(env, caps, staging, Key(who.key), n, who);
    HoldingIs(Run(env, caps, events + [last]), n + 1, WithPiece(env, caps, staging, Key(who.key), n));
    PiecesFill(caps);
  }

  lemma KeyIsTyped(caps: Caps, who: Authority)
    requires who.External? && BothSharesFit(caps, |who.key|)
    ensures Typed(Key(who.key))
  {
    U64Range();
  }

  lemma OneStepMore(env: Env, caps: Caps, events: seq<Event>, last: Event)
    ensures Run(env, caps, events + [last]) == Step(env, caps, Run(env, caps, events), last)
  {
    hide Step;
    assert (events + [last])[..|events + [last]| - 1] == events;
  }

  lemma HoldingIs(s: State, revision: nat, staging: map<Id, Staged>)
    requires Holding(s, revision, staging)
    ensures Effective(s).staging == staging
  {
  }

  // ---- exactly whom the quota holds ----------------------------------------------------------------

  // Only actors the images accept ever own anything.
  lemma UnfitOwnersOwnNothing(caps: Caps, refs: Refs, owner: Actor)
    requires Within(caps, refs) && !Proper(owner)
    ensures OwnedLens(refs.staging, owner) == map[]
  {
    hide Sum, RoomFor, Shares;
    forall d | d in refs.staging
      ensures refs.staging[d].owner != owner
    {
      assert StagedFits(d, refs.staging[d]);
    }
  }

  lemma OneOwnerIsHeld(caps: Caps, refs: Refs, who: Authority)
    requires Within(caps, refs) && !OwnsTwice(who)
    ensures Sum(ControlledLens(refs.staging, who)) <= caps.quota
  {
    hide Sum, RefsFit, RoomFor, Proper;
    ControlledShare(caps, refs, who);
    if who.External? && who.account.Some? {
      var mine, keyed := OwnedLens(refs.staging, who.Actor()), OwnedLens(refs.staging, Key(who.key));
      assert StagingShare(caps, refs.staging, who.Actor()) && StagingShare(caps, refs.staging, Key(who.key));
      SumNothing();
      if !Proper(who.Actor()) { UnfitOwnersOwnNothing(caps, refs, who.Actor()); }
      if !Proper(Key(who.key)) { UnfitOwnersOwnNothing(caps, refs, Key(who.key)); }
      SumUnion(ControlledLens(refs.staging, who), mine, keyed);
    }
  }

  // What an authority has staged stays within the quota over every run, exactly if it does not own by
  // key and by account at once.
  lemma QuotaHoldsExactly(env: Env, caps: Caps, who: Authority)
    requires ValidCaps(caps) && TypedEnv(env) && Typed(who.Actor())
    requires BothSharesFit(caps, if who.External? then |who.key| else 0) && ToldApart(env, caps)
    ensures (forall events :: TypedEvents(events) ==> StagedBy(env, caps, events, who) <= caps.quota)
       <==> !OwnsTwice(who)
  {
    hide TypedEvents, StagedBy, TypedEnv, ToldApart, BothSharesFit, Typed, OwnsTwice, PastTheQuota;
    if OwnsTwice(who) {
      TwiceIsExternal(who);
      RunsPastTheQuota(env, caps, who);
    } else {
      forall events | TypedEvents(events)
        ensures StagedBy(env, caps, events, who) <= caps.quota
      {
        RunIsHeld(env, caps, events, who);
      }
    }
  }

  lemma TwiceIsExternal(who: Authority)
    requires OwnsTwice(who)
    ensures who.External?
  {
  }

  lemma RunIsHeld(env: Env, caps: Caps, events: seq<Event>, who: Authority)
    requires ValidCaps(caps) && TypedEnv(env) && TypedEvents(events) && !OwnsTwice(who)
    ensures StagedBy(env, caps, events, who) <= caps.quota
  {
    hide Within, Run, ValidCaps, TypedEnv, TypedEvents, OwnsTwice, ControlledLens, Sum;
    EveryRunStaysWithin(env, caps, events);
    OneOwnerIsHeld(caps, Effective(Run(env, caps, events)), who);
  }
}
