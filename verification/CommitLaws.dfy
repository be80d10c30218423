// Where the commit engine keeps less than it says (crates/duckfs/core/src/fs.rs:1380-1424,1749-1768,
// crates/duckfs/core/src/objects.rs:333-365): links without a target, and objects no one refers to.
module CommitLaws {
  import opened Wrappers
  import opened Texts
  import opened Kinds
  import opened Grammars
  import opened Objects
  import opened RefsImage
  import opened Records
  import opened Verbs
  import opened TreeEdits
  import opened Grounding
  import opened Commits
  import Actors
  import Chunks
  import Healing
  import R = Reachability
  import D = Durability

  // ---- links without a target ------------------------------------------------------------------------

  predicate HasFile(change: Change) {
    change.PutFile? || change.PutSymlink?
  }

  // The file object a change puts.
  function FileOf(sc: Scene, change: Change): FileObj
    requires HasFile(change)
  {
    if change.PutFile? then FileFor(sc, change.meta, change.content) else LinkFor(sc, change.target)
  }

  // A file object a peer can hand on: `ingest_object` takes in no other.
  predicate CanBeFetched(sc: Scene, change: Change)
    requires HasFile(change)
  {
    Healing.Shaped(FileBlob(FileOf(sc, change)))
  }

  lemma ShapeOfFile(sc: Scene, d: Draft, path: Path, exec: bool, meta: map<Text, Text>, content: Content)
    requires TreeEdits.Typed(sc.env.hash) && MetaFits(meta)
        && forall key :: key in meta ==> Utf8(key) && Utf8(meta[key])
    requires PlanFile(sc, d, path, exec, meta, content).Some?
    ensures var f := FileFor(sc, meta, content);
      FileFits(f) && f.size < Chunks.U64_END && Chunks.VerifyFileShape(f.size, |f.chunks|)
  {
    hide FileFits, MetaFits, PlanEntry, PlanInline, Utf8, Chunks.Cut, ParseAll, ParseChunks, HashesOf, ChunkBlobs;
    match content
    case Inline(Some(bytes)) =>
      InlineFits(sc.env.hash, meta, bytes);
      Chunks.CutPassesTheRules(bytes);
    case ByChunks(size, chunks) =>
      ParsedIs(size, chunks);
      ParsedFits(size, chunks, meta);
      ParsedShape(size, chunks);
    case Inline(None) =>
  }

  lemma ShapeOfLink(sc: Scene, target: Text)
    requires TreeEdits.Typed(sc.env.hash) && |target| <= MAX_SYMLINK_TARGET_BYTES
    ensures var f := LinkFor(sc, target);
      FileFits(f) && f.size < Chunks.U64_END && (Chunks.VerifyFileShape(f.size, |f.chunks|) <==> target != [])
  {
    hide FileFits, HashesOf, ChunkBlobs;
    FitsIf(|target|, HashesOf(sc.env.hash, ChunkBlobs([target])), map[]);
  }

  lemma ShapeOfChange(sc: Scene, who: Actors.Authority, d: Draft, change: Change)
    requires SceneTrue(sc) && TypedChange(sc, change) && HasFile(change) && PlanChange(sc, who, d, change).Some?
    ensures FileFits(FileOf(sc, change)) && FileOf(sc, change).size < Chunks.U64_END
    ensures Chunks.VerifyFileShape(FileOf(sc, change).size, |FileOf(sc, change).chunks|) <==>
        change.PutSymlink? ==> change.target != []
  {
    hide SceneTrue, FileFits, FileBlob, FileFor, LinkFor, MetaFits, PlanFile, PlanInline, Utf8, AllKnown, Claim,
      Chunks.Cut, Chunks.VerifyFileShape;
    SceneTyped(sc);
    var claimed := Claim(sc, who, d, change.path).value;
    if change.PutFile? {
      ShapeOfFile(sc, claimed.1, claimed.0, change.exec, change.meta, change.content);
    } else {
      ShapeOfLink(sc, change.target);
    }
  }

  lemma FetchedIs(sc: Scene, change: Change)
    requires HasFile(change) && FileFits(FileOf(sc, change)) && FileOf(sc, change).size < Chunks.U64_END
    ensures CanBeFetched(sc, change) <==> Chunks.VerifyFileShape(FileOf(sc, change).size, |FileOf(sc, change).chunks|)
  {
    hide FileFits, EncodeFile, DecodeFile, FileOf;
    BlobDecodes(FileOf(sc, change));
  }

  lemma {:induction false} PlannedOne(sc: Scene, who: Actors.Authority, changes: seq<Change>, i: nat)
    requires PlanAll(sc, who, changes).Some? && i < |changes|
    ensures exists d :: PlanChange(sc, who, d, changes[i]).Some?
    decreases |changes|
  {
    hide PlanChange;
    if i < |changes| - 1 {
      PlannedOne(sc, who, changes[..|changes| - 1], i);
    } else {
      assert PlanChange(sc, who, PlanAll(sc, who, changes[..i]).value, changes[i]).Some?;
    }
  }

  // No symlink without a target.
  predicate AllLinked(changes: seq<Change>) {
    forall i :: 0 <= i < |changes| ==> changes[i].PutSymlink? ==> changes[i].target != []
  }

  // Every file object of an accepted commit is one a peer can fetch exactly if no link of it is
  // without a target.
  lemma FetchedIffLinked(sc: Scene, h: Header, base: Option<Text>, changes: seq<Change>)
    requires SceneTrue(sc) && AllTyped(sc, changes) && Decide(sc, h, base, changes).Some?
    ensures (forall i :: 0 <= i < |changes| && HasFile(changes[i]) ==> CanBeFetched(sc, changes[i])) <==>
        AllLinked(changes)
  {
    hide SceneTrue, TypedChange, Decide, PlanAll, PlanChange, CanBeFetched, FileFits, FileOf;
    DecidedPlan(sc, h, base, changes);
    forall i | 0 <= i < |changes| && HasFile(changes[i])
      ensures CanBeFetched(sc, changes[i]) <==> changes[i].PutSymlink? ==> changes[i].target != []
    {
      PlannedOne(sc, h.who, changes, i);
      var d :| PlanChange(sc, h.who, d, changes[i]).Some?;
      ShapeOfChange(sc, h.who, d, changes[i]);
      FetchedIs(sc, changes[i]);
    }
  }

  // ---- a small commit, worked out ----------------------------------------------------------------------

  const NAME: Text := [120]
  const OTHER: Text := [121]

  // An empty node: no refs, no block yet, and these objects in its store. Two names are canonical.
  function FreshScene(hash: Hash, committed: Odb): Scene {
    Scene(Env(hash, (root, id) => Some(false), path => None), path => if path == NAME
        || path == OTHER then Some([path]) else None,
          committed, Block(EMPTY_REFS, [], map[], 0), FreshKnown(hash))
  }

  // The few objects there is talk of.
  function FreshKnown(hash: Hash): set<Blob> {
    {EMPTY_DIR, CHUNK, FileBlob(FileObj(1, [hash(CHUNK)], map[])), FileBlob(LinkOf(hash)), Blob(ChunkKind, [])}
  }

  function LinkOf(hash: Hash): FileObj {
    FileObj(0, [hash(Blob(ChunkKind, []))], map[])
  }

  const BYTES: Text := [1]
  const CHUNK: Blob := Blob(ChunkKind, BYTES)

  const SYSTEM: Header := Header(Actors.OfSystem, 0, 0, [])

  lemma {:induction false} LeavesBuild(hash: Hash, dir: Node, names: seq<Text>)
    requires dir.Made? && (forall name :: name in dir.children ==> dir.children[name].Ref?)
        && forall name :: name in names ==> name in dir.children
    ensures BuildAll(hash, dir, names).Some? && |BuildAll(hash, dir, names).value.0| <= |names|
    decreases |names|
  {
    BuildNext(hash, dir, names);
    if names != [] {
      LeavesBuild(hash, dir, names[1..]);
      BuildRef(hash, dir.children[names[0]]);
      var rest, name, made := BuildAll(hash, dir, names[1..]).value.0, names[0], Build(hash,
          dir.children[names[0]]).value.0;
      assert rest[name := made].Keys == rest.Keys + {name};
      assert |rest[name := made].Keys| <= |rest.Keys| + 1;
    }
  }

  // A root directory of one or two leaves is built.
  lemma SmallRootBuilds(sc: Scene, d: Draft, edited: Node)
    requires edited.Made? && edited.children != map[] && |edited.children| <= 2
    requires forall name :: name in edited.children ==> edited.children[name].Ref?
    ensures BuildRoot(sc, d, edited).Some?
  {
    hide BuildAll, StageObject, NamesOf, DirBlob;
    var names := NamesOf(edited.children);
    NamesCount(edited.children);
    LeavesBuild(sc.env.hash, edited, names);
    BuildIs(sc.env.hash, edited);
  }

  lemma NamesCount(children: map<Text, Node>)
    ensures |NamesOf(children)| == |children|
  {
    assert |children.Keys| == |children|;
  }

  // One leaf put at the top of an empty tree.
  lemma FirstPut(odb: Odb, name: Text, entry: TreeEntry)
    ensures EditAll(odb, Made(map[]), [Put([name], entry)]) == Some(Made(map[name := Ref(entry)]))
  {
    hide LookAt;
    var op := Put([name], entry);
    assert [op][..0] == [];
    assert EditAll(odb, Made(map[]), [op]) == Edit(odb, Made(map[]), op);
    SetLast(odb, Made(map[]), [name], Some(Ref(entry)), true);
    MadeOpens(odb, Made(map[]));
  }

  lemma SecondPut(odb: Odb, name: Text, entry: TreeEntry, other: Text, last: TreeEntry)
    ensures EditAll(odb, Made(map[]), [Put([name], entry), Put([other], last)])
        == Some(Made(map[name := Ref(entry)][other := Ref(last)]))
  {
    hide LookAt;
    var ops := [Put([name], entry), Put([other], last)];
    assert ops[..1] == [Put([name], entry)];
    FirstPut(odb, name, entry);
    var made := Made(map[name := Ref(entry)]);
    assert EditAll(odb, Made(map[]), ops) == Edit(odb, made, ops[1]);
    SetLast(odb, made, [other], Some(Ref(last)), true);
    MadeOpens(odb, made);
  }

  lemma FreshFacts(hash: Hash, committed: Odb)
    ensures var sc := FreshScene(hash, committed);
      sc.env.hash == hash && sc.committed == committed && sc.block == Block(EMPTY_REFS, [], map[], 0)
          && ViewOf(sc) == committed
  {
    hide FreshKnown;
  }

  lemma NothingSwept()
    ensures Sweep(EMPTY_REFS, 0) == EMPTY_REFS
  {
  }

  // On an empty node a first commit is decided by its chunks, its edits and its root.
  lemma FirstCommit(sc: Scene, changes: seq<Change>, d: Draft)
    requires sc == FreshScene(sc.env.hash, sc.committed) && PlanAll(sc, SYSTEM.who, changes) == Some(d)
    requires changes != [] && |changes| <= MAX_CHANGES_PER_COMMIT
    ensures !AllAvailable(EMPTY_REFS, sc.block, d) ==> Decide(sc, SYSTEM, None, changes).None?
    ensures (AllAvailable(EMPTY_REFS, sc.block, d) && EditAll(sc.committed, Made(map[]), d.ops).Some?
             && BuildRoot(sc, d, EditAll(sc.committed, Made(map[]), d.ops).value).Some?) ==>
               Decide(sc, SYSTEM, None, changes).Some?
  {
    hide FreshScene, PlanAll, AllAvailable, EditAll, BuildRoot, Unmoved, SnapshotBlob, ViewOf, Sweep;
    FreshFacts(sc.env.hash, sc.committed);
    NothingSwept();
    NothingMoved(sc.committed, d.touched);
  }

  // A link without a target is accepted, and no node can fetch the file object it puts.
  lemma EmptyLinkIsAccepted(hash: Hash)
    requires TreeEdits.Typed(hash)
    ensures Decide(FreshScene(hash, map[]), SYSTEM, None, [PutSymlink(NAME, [])]).Some?
    ensures !CanBeFetched(FreshScene(hash, map[]), PutSymlink(NAME, []))
  {
    hide FreshScene, Decide, BuildRoot, EditAll, PlanChange, CanBeFetched, LinkFor, FileFits, FileBlob, AllAvailable;
    var sc, change := FreshScene(hash, map[]), PutSymlink(NAME, []);
    FreshFacts(hash, map[]);
    PlanOfLink(sc);
    var d := PlanAll(sc, SYSTEM.who, [change]).value;
    NothingToFind(sc.block, d);
    FreshName(sc);
    FirstPut(map[], NAME, OpOf(sc, change).entry);
    var edited := Made(map[NAME := Ref(OpOf(sc, change).entry)]);
    assert |edited.children| == 1;
    SmallRootBuilds(sc, d, edited);
    FirstCommit(sc, [change], d);
    ShapeOfLink(sc, []);
    FetchedIs(sc, change);
  }

  lemma FreshName(sc: Scene)
    requires sc == FreshScene(sc.env.hash, sc.committed)
    ensures SegmentsOf(sc, NAME) == [NAME]
  {
    hide FreshKnown;
  }

  lemma NothingToFind(block: Block, d: Draft)
    requires d.checks == []
    ensures AllAvailable(EMPTY_REFS, block, d)
  {
  }

  lemma PlanOfLink(sc: Scene)
    requires sc == FreshScene(sc.env.hash, sc.committed)
    ensures var change := PutSymlink(NAME, []); var d := PlanAll(sc, SYSTEM.who, [change]);
      d.Some? && d.value.checks == [] && d.value.ops == [OpOf(sc, change)]
  {
    hide FreshScene, StageObject, StageAll, FileBlob, PlanInline, LinkFor, Claim, OpOf;
    var change := PutSymlink(NAME, []);
    var changes := [change];
    ClaimFresh(sc, NOTHING_YET, NAME);
    assert changes[..0] == [];
    assert PlanAll(sc, SYSTEM.who, changes) == PlanChange(sc, SYSTEM.who, NOTHING_YET, change);
    PlanOneIs(sc, SYSTEM.who, NOTHING_YET, change);
    LinkChecks(sc, SYSTEM.who, change);
  }

  lemma LinkChecks(sc: Scene, who: Actors.Authority, change: Change)
    requires change.PutSymlink? && PlanChange(sc, who, NOTHING_YET, change).Some?
    ensures PlanChange(sc, who, NOTHING_YET, change).value.checks == []
  {
    hide StageObject, StageAll, EncodeFile;
    var claimed := Claim(sc, who, NOTHING_YET, change.path).value.1;
    StagedAllAlike(sc, claimed, ChunkBlobs([change.target]));
    StagedAlike(sc, StageAll(sc, claimed, ChunkBlobs([change.target])), FileBlob(LinkFor(sc, change.target)));
  }

  // ---- objects no one refers to ------------------------------------------------------------------------

  // One file with its bytes, and one that names the same chunk by its digest.
  function TwoFiles(id: Id): seq<Change> {
    [PutFile(NAME, false, map[], Inline(Some(BYTES))), PutFile(OTHER, false, map[], ByChunks(1, [ToHex(id)]))]
  }

  lemma StagesOne(sc: Scene, d: Draft, blob: Blob, id: Id)
    ensures var after := StageObject(sc, d, blob);
      && (id in d.staged ==> id in after.staged && after.staged[id] == d.staged[id])
      && (id in sc.committed && id !in d.staged ==> id !in after.staged)
      && (sc.env.hash(blob) !in d.staged && sc.env.hash(blob) !in sc.block.index
          && sc.env.hash(blob) !in sc.committed ==>
            sc.env.hash(blob) in after.staged && after.staged[sc.env.hash(blob)] == (blob.kind, |blob.body|))
  {
  }

  // How the two files are planned: the chunk is staged unless the store already holds it.
  lemma PlanTwo(sc: Scene, id: Id)
    requires IsId(id) && id == sc.env.hash(CHUNK) && sc == FreshScene(sc.env.hash, sc.committed)
    ensures PlanAll(sc, SYSTEM.who, TwoFiles(id)).Some?
    ensures var d := PlanAll(sc, SYSTEM.who, TwoFiles(id)).value;
      && d.checks == [(1, [id])] && d.ops == OpsOf(sc, TwoFiles(id))
      && (if id in sc.committed then id !in d.staged else id in d.staged && d.staged[id] == (ChunkKind, 1))
  {
    hide FreshScene, PlanChange, ToHex, FromHex32, OpOf, ParseAll;
    var changes := TwoFiles(id);
    HexIsCanonical(id, ToHex(id));
    ParseOne(ToHex(id), id);
    var first := PlanChange(sc, SYSTEM.who, NOTHING_YET, changes[0]);
    FirstFile(sc, id);
    SecondFile(sc, id, first.value);
    assert changes[..1] == [changes[0]] && changes[..1][..0] == [];
    assert PlanAll(sc, SYSTEM.who, changes[..1]) == first;
    assert PlanAll(sc, SYSTEM.who, changes) == PlanChange(sc, SYSTEM.who, first.value, changes[1]);
    PlanIs(sc, SYSTEM.who, changes);
  }

  lemma ParseOne(hex: Text, id: Id)
    requires FromHex32(hex) == Some(id)
    ensures ParseAll([hex]) == Some([id])
  {
    hide FromHex32;
    assert [hex][1..] == [] && ParseAll([]) == Some([]);
    assert [id] + [] == [id];
  }

  lemma ClaimFresh(sc: Scene, d: Draft, name: Text)
    requires sc == FreshScene(sc.env.hash, sc.committed) && [name] !in d.touched && (name == NAME || name == OTHER)
    ensures Claim(sc, SYSTEM.who, d, name) == Some(([name], d.(touched := d.touched + [[name]])))
  {
  }

  lemma FirstFile(sc: Scene, id: Id)
    requires id == sc.env.hash(CHUNK) && sc == FreshScene(sc.env.hash, sc.committed)
    ensures var first := PlanChange(sc, SYSTEM.who, NOTHING_YET, TwoFiles(id)[0]);
      && first.Some? && first.value.checks == [] && first.value.touched == [[NAME]]
      && (if id in sc.committed then id !in first.value.staged
          else id in first.value.staged && first.value.staged[id] == (ChunkKind, 1))
  {
    hide FileBlob, StageObject, StageAll, ToHex, FreshScene, Claim, HashesOf, Chunks.Cut;
    ClaimFresh(sc, NOTHING_YET, NAME);
    assert NOTHING_YET.touched + [[NAME]] == [[NAME]];
    var begun := NOTHING_YET.(touched := [[NAME]], inline := 1);
    var blobs := ChunkBlobs([BYTES]);
    OnePiece();
    var staged := StageObject(sc, begun, CHUNK);
    StageOnly(sc, begun, CHUNK);
    StagesOne(sc, begun, CHUNK, id);
    StagedAlike(sc, begun, CHUNK);
    var f := FileObj(1, HashesOf(sc.env.hash, blobs), map[]);
    StagesOne(sc, staged, FileBlob(f), id);
    StagedAlike(sc, staged, FileBlob(f));
    FreshIs(sc);
    assert PlanFile(sc, NOTHING_YET.(touched := [[NAME]]), [NAME], false, map[], Inline(Some(BYTES))) ==
      Some(PlanInline(sc, begun, [NAME], File, false, map[], 1, [BYTES]));
    assert PlanInline(sc, begun, [NAME], File, false, map[], 1, [BYTES])
        == PlanEntry(sc, staged, [NAME], File, false, f);
  }

  lemma FreshIs(sc: Scene)
    requires sc == FreshScene(sc.env.hash, sc.committed)
    ensures sc.block == Block(EMPTY_REFS, [], map[], 0)
  {
  }

  lemma OnePiece()
    ensures Chunks.Cut(BYTES) == [BYTES] && ChunkBlobs([BYTES]) == [CHUNK]
  {
  }

  lemma StageOnly(sc: Scene, d: Draft, blob: Blob)
    ensures StageAll(sc, d, [blob]) == StageObject(sc, d, blob)
  {
    hide StageObject;
    assert [blob][..0] == [] && StageAll(sc, d, []) == d;
  }

  lemma SecondFile(sc: Scene, id: Id, d: Draft)
    requires sc == FreshScene(sc.env.hash, sc.committed) && ParseAll([ToHex(id)]) == Some([id])
    requires d.checks == [] && d.touched == [[NAME]]
    ensures var second := PlanChange(sc, SYSTEM.who, d, TwoFiles(id)[1]);
      && second.Some? && second.value.checks == [(1, [id])] && second.value.touched == [[NAME], [OTHER]]
      && (id in d.staged ==> id in second.value.staged && second.value.staged[id] == d.staged[id])
      && (id in sc.committed && id !in d.staged ==> id !in second.value.staged)
  {
    hide FileBlob, StageObject, ToHex, ParseAll, ParseChunks, FreshScene, Claim;
    assert NAME != OTHER && [OTHER] != [NAME];
    ClaimFresh(sc, d, OTHER);
    var f, noted := FileObj(1, [id], map[]), d.(touched := [[NAME], [OTHER]], checks := [(1, [id])]);
    StagesOne(sc, noted, FileBlob(f), id);
    StagedAlike(sc, noted, FileBlob(f));
    ParseTheOne(ToHex(id), id);
    var claimed := d.(touched := d.touched + [[OTHER]]);
    assert claimed.(checks := claimed.checks + [(1, [id])]) == noted;
    assert PlanFile(sc, claimed, [OTHER], false, map[], ByChunks(1, [ToHex(id)]))
        == Some(PlanEntry(sc, noted, [OTHER], File, false, f));
  }

  lemma ParseTheOne(hex: Text, id: Id)
    requires ParseAll([hex]) == Some([id])
    ensures ParseChunks(1, [hex]) == Some([id])
  {
    hide ParseAll;
  }

  // A fresh node is what the laws below ask for.
  lemma FreshIsTrue(hash: Hash, committed: Odb)
    requires TreeEdits.Typed(hash) && CollisionFree(hash, FreshKnown(hash))
    requires committed == map[] || committed == map[hash(CHUNK) := CHUNK]
    ensures SceneTrue(FreshScene(hash, committed)) && ViewOf(FreshScene(hash, committed)) == committed
    ensures CatalogTrue(FreshScene(hash, committed), map[])
        && AllTyped(FreshScene(hash, committed), TwoFiles(hash(CHUNK)))
  {
    hide SceneTrue, CatalogTrue, AllTyped, FreshScene, CollisionFree;
    FreshFacts(hash, committed);
    FreshScenes(hash, committed);
    FreshChanges(hash, committed);
  }

  lemma FreshScenes(hash: Hash, committed: Odb)
    requires TreeEdits.Typed(hash) && CollisionFree(hash, FreshKnown(hash))
    requires committed == map[] || committed == map[hash(CHUNK) := CHUNK]
    ensures SceneTrue(FreshScene(hash, committed)) && CatalogTrue(FreshScene(hash, committed), map[])
  {
    hide FileBlob, DirBlob, CollisionFree, Short, ReachedBy;
    NamesAreShort();
  }

  lemma FreshChanges(hash: Hash, committed: Odb)
    requires TreeEdits.Typed(hash)
    ensures AllTyped(FreshScene(hash, committed), TwoFiles(hash(CHUNK)))
  {
    hide FileBlob, DirBlob, ToHex, ParseAll, Chunks.Cut, ChunkBlobs, HashesOf;
    var id := hash(CHUNK);
    OnePiece();
    HexIsCanonical(id, ToHex(id));
    ParseOne(ToHex(id), id);
    OneHash(hash);
  }

  lemma OneHash(hash: Hash)
    ensures HashesOf(hash, [CHUNK]) == [hash(CHUNK)]
  {
  }

  lemma NamesAreShort()
    ensures Short(NAME, MAX_NAME_BYTES) && Short(OTHER, MAX_NAME_BYTES)
  {
    NothingIsSmall();
    Wide8();
    assert NAME[1..] == [] && OTHER[1..] == [];
    assert Utf8([]);
  }

  // The same commit on the same refs, on two nodes that hold all the refs reach: accepted by the one
  // with nothing else in its store, refused by the one that still keeps the chunk from somewhere else.
  lemma OrphanSplitsNodes(hash: Hash)
    requires TreeEdits.Typed(hash) && CollisionFree(hash, FreshKnown(hash))
    ensures var (a, b, changes) := (FreshScene(hash, map[]), FreshScene(hash, map[hash(CHUNK) := CHUNK]),
        TwoFiles(hash(CHUNK)));
      && SceneTrue(a) && SceneTrue(b) && Twins(a, b) && AllTyped(a, changes) && AllTyped(b, changes)
      && Entire(map[], a.block.refs) && CatalogTrue(a, map[]) && Extends(map[], ViewOf(a)) && Extends(map[], ViewOf(b))
      && Decide(a, SYSTEM, None, changes).Some? && Decide(b, SYSTEM, None, changes).None?
  {
    hide SceneTrue, Entire, CatalogTrue, Decide, AllTyped, PlanAll, ToHex, CollisionFree, FreshKnown;
    var id := hash(CHUNK);
    FreshIsTrue(hash, map[]);
    FreshIsTrue(hash, map[id := CHUNK]);
    EmptyIsEntire();
    PlanTwo(FreshScene(hash, map[]), id);
    PlanTwo(FreshScene(hash, map[id := CHUNK]), id);
    AcceptsTwo(FreshScene(hash, map[]), id);
    RefusesTwo(FreshScene(hash, map[id := CHUNK]), id);
  }

  lemma AcceptsTwo(sc: Scene, id: Id)
    requires sc == FreshScene(sc.env.hash, map[]) && PlanAll(sc, SYSTEM.who, TwoFiles(id)).Some?
    requires var d := PlanAll(sc, SYSTEM.who, TwoFiles(id)).value;
      d.checks == [(1, [id])] && d.ops == OpsOf(sc, TwoFiles(id)) && id in d.staged && d.staged[id] == (ChunkKind, 1)
    ensures Decide(sc, SYSTEM, None, TwoFiles(id)).Some?
  {
    hide FreshScene, Decide, PlanAll, FileBlob, BuildRoot, EditAll, FileFor, ToHex, AllAvailable;
    FreshFacts(sc.env.hash, map[]);
    var d := PlanAll(sc, SYSTEM.who, TwoFiles(id)).value;
    var e0, e1 := OpOf(sc, TwoFiles(id)[0]).entry, OpOf(sc, TwoFiles(id)[1]).entry;
    TwoPuts(sc, id);
    SecondPut(map[], NAME, e0, OTHER, e1);
    TheChunkIsThere(sc.block, d, id);
    var edited := Made(map[NAME := Ref(e0)][OTHER := Ref(e1)]);
    assert |edited.children| == 2;
    SmallRootBuilds(sc, d, edited);
    FirstCommit(sc, TwoFiles(id), d);
  }

  lemma TwoPuts(sc: Scene, id: Id)
    requires sc == FreshScene(sc.env.hash, sc.committed)
    ensures var changes := TwoFiles(id);
      OpsOf(sc, changes) == [Put([NAME], OpOf(sc, changes[0]).entry), Put([OTHER], OpOf(sc, changes[1]).entry)]
  {
    hide FileBlob, FileFor, FreshKnown, ToHex;
  }

  lemma NothingMoved(odb: Odb, touched: seq<Path>)
    ensures Unmoved(odb, Made(map[]), Made(map[]), touched)
  {
    hide LookAt;
    forall i | 0 <= i < |touched| { NothingBelow(odb, touched[i]); }
  }

  lemma TheChunkIsThere(block: Block, d: Draft, id: Id)
    requires d.checks == [(1, [id])] && id in d.staged && d.staged[id] == (ChunkKind, 1) && id !in block.index
    ensures AllAvailable(EMPTY_REFS, block, d)
  {
  }

  lemma RefusesTwo(sc: Scene, id: Id)
    requires sc == FreshScene(sc.env.hash, sc.committed) && PlanAll(sc, SYSTEM.who, TwoFiles(id)).Some?
    requires PlanAll(sc, SYSTEM.who, TwoFiles(id)).value.checks == [(1, [id])]
        && id !in PlanAll(sc, SYSTEM.who, TwoFiles(id)).value.staged
    ensures Decide(sc, SYSTEM, None, TwoFiles(id)).None?
  {
    hide FreshScene, Decide, PlanAll, AllAvailable, ToHex;
    FreshFacts(sc.env.hash, sc.committed);
    var d := PlanAll(sc, SYSTEM.who, TwoFiles(id)).value;
    TheChunkIsNot(sc.block, d, id);
    FirstCommit(sc, TwoFiles(id), d);
  }

  lemma TheChunkIsNot(block: Block, d: Draft, id: Id)
    requires d.checks == [(1, [id])] && id !in d.staged && id !in block.index
    ensures !AllAvailable(EMPTY_REFS, block, d)
  {
    assert d.checks[0].1[0] == id;
    assert !Available(EMPTY_REFS, block, d, d.checks[0].0, |d.checks[0].1|, 0, d.checks[0].1[0]);
  }

  // ---- the same verdict everywhere else ----------------------------------------------------------------

  // Directories in reach of these refs, and any leaf.
  ghost function InReach(core: Odb, refs: Refs): TreeEntry -> bool {
    (e: TreeEntry) => e.kind == Dir ==> EntryNode(e) in ReachedBy(core, refs)
  }

  lemma ReachedReads(core: Odb, refs: Refs, id: Id)
    requires Entire(core, refs) && R.Node(R.AsTree, id) in ReachedBy(core, refs)
    ensures FetchTree(core, id).Some?
  {
    hide R.Reached, D.RootsOf;
    RoleIsKind(core, R.Node(R.AsTree, id));
    TreeReads(core, id);
  }

  lemma TreeReads(core: Odb, id: Id)
    requires id in core && core[id].kind == TreeKind && R.Sound(View(core), R.Node(R.AsTree, id))
    ensures FetchTree(core, id).Some?
  {
    hide DecodeTree, EntriesOf;
  }

  lemma InReachIsHereditary(core: Odb, refs: Refs)
    requires Entire(core, refs)
    ensures Hereditary(core, InReach(core, refs))
  {
    hide R.Reached, R.Children, R.Ordinary, R.Catalog, D.RootsOf, View, Proper, FetchTree;
    R.ReachedIsLeast(View(core), D.RootsOf(refs));
    forall e: TreeEntry, name | InReach(core, refs)(e) && e.kind == Dir && FetchTree(core, e.id).Some?
        && name in FetchTree(core, e.id).value
      ensures InReach(core, refs)(FetchTree(core, e.id).value[name])
    {
      DirLeadsTo(core, e.id);
      assert EntryNode(e) in ReachedBy(core, refs);
    }
  }

  lemma OpenSame(core: Odb, refs: Refs, odb: Odb, node: Node)
    requires Entire(core, refs) && Extends(core, odb) && Good(node, InReach(core, refs))
    ensures TreeEdits.Open(odb, node) == TreeEdits.Open(core, node)
    ensures TreeEdits.Open(core, node).None? ==> node.Ref? && node.entry.kind != Dir
  {
    hide FetchTree, ReachedBy, Entire, Extends, Short;
    if node.Ref? && node.entry.kind == Dir {
      ReachedReads(core, refs, node.entry.id);
      FetchStays(core, node.entry.id, odb);
    }
  }

  lemma BelowALeaf(odb: Odb, node: Node, q: Path)
    requires node.Ref? && node.entry.kind != Dir && q != []
    ensures LookAt(odb, node, q) == Absent
  {
  }

  lemma {:induction false} LookSame(core: Odb, refs: Refs, odb: Odb, node: Node, q: Path)
    requires Entire(core, refs) && Extends(core, odb) && Good(node, InReach(core, refs))
    ensures LookAt(odb, node, q) == LookAt(core, node, q)
    decreases |q|
  {
    hide TreeEdits.Open, Entire, Extends, Good, InReach, LookAt, Short;
    OpenSame(core, refs, odb, node);
    LookNone(odb, node);
    LookNone(core, node);
    if q == [] {
    } else if TreeEdits.Open(core, node).None? {
      BelowALeaf(odb, node, q);
      BelowALeaf(core, node, q);
    } else {
      LookUnfold(odb, node, q);
      LookUnfold(core, node, q);
      InReachIsHereditary(core, refs);
      OpenIsGood(core, node, InReach(core, refs));
      var children := TreeEdits.Open(core, node).value;
      if q[0] in children { LookSame(core, refs, odb, children[q[0]], q[1..]); }
    }
  }

  lemma {:induction false} SetSame(core: Odb, refs: Refs, odb: Odb, node: Node, path: Path, value: Option<Node>,
          create: bool)
    requires Entire(core, refs) && Extends(core, odb) && Good(node, InReach(core, refs)) && path != []
    ensures SetAt(odb, node, path, value, create) == SetAt(core, node, path, value, create)
    decreases |path|
  {
    hide TreeEdits.Open, Entire, Extends, InReach, SetAt, Short;
    OpenSame(core, refs, odb, node);
    if |path| == 1 {
      SetLast(odb, node, path, value, create);
      SetLast(core, node, path, value, create);
    } else {
      SetUnfold(odb, node, path, value, create);
      SetUnfold(core, node, path, value, create);
      if TreeEdits.Open(core, node).Some? {
        InReachIsHereditary(core, refs);
        OpenIsGood(core, node, InReach(core, refs));
        SetSame(core, refs, odb, Child(TreeEdits.Open(core, node).value, path[0]), path[1..], value, create);
      }
    }
  }

  lemma EditSame(core: Odb, refs: Refs, odb: Odb, root: Node, op: EditOp)
    requires Entire(core, refs) && Extends(core, odb) && Good(root, InReach(core, refs))
        && OpGood(op, InReach(core, refs))
    ensures Edit(odb, root, op) == Edit(core, root, op)
  {
    hide TreeEdits.Open, Entire, Extends, InReach, SetAt, LookAt, Good, PathFits;
    match op
    case Put(path, entry) => if path != [] { SetSame(core, refs, odb, root, path, Some(Ref(entry)), true); }
    case Mkdir(path) =>
      if path != [] {
        LookSame(core, refs, odb, root, path);
        SetSame(core, refs, odb, root, path, Some(Made(map[])), true);
      }
    case Rm(path) =>
      if path != [] {
        LookSame(core, refs, odb, root, path);
        SetSame(core, refs, odb, root, path, None, false);
      }
    case Mv(from, to) => if from != [] && to != [] { MoveSame(core, refs, odb, root, from, to); }
  }

  lemma MoveSame(core: Odb, refs: Refs, odb: Odb, root: Node, from: Path, to: Path)
    requires Entire(core, refs) && Extends(core, odb) && Good(root, InReach(core, refs))
        && OpGood(Mv(from, to), InReach(core, refs))
    requires from != [] && to != []
    ensures Edit(odb, root, Mv(from, to)) == Edit(core, root, Mv(from, to))
  {
    hide TreeEdits.Open, Entire, Extends, InReach, SetAt, LookAt, Good, PathFits;
    InReachIsHereditary(core, refs);
    LookSame(core, refs, odb, root, from);
    LookSame(core, refs, odb, root, to);
    var parent := to[..|to| - 1];
    LookSame(core, refs, odb, root, parent);
    if LookAt(core, root, parent).Found? {
      LookIsGood(core, root, parent, InReach(core, refs));
      OpenSame(core, refs, odb, LookAt(core, root, parent).node);
    }
    assert Free(odb, root, to) == Free(core, root, to);
    SetSame(core, refs, odb, root, from, None, false);
    assert from in Touched(Mv(from, to));
    if SetAt(core, root, from, None, false).Some? && LookAt(core, root, from).Found? {
      var lifted := SetAt(core, root, from, None, false).value;
      SetIsGood(core, root, from, None, false, InReach(core, refs));
      SetSame(core, refs, odb, lifted, to, Some(LookAt(core, root, from).node), false);
    }
  }

  lemma {:induction false} RunSame(core: Odb, refs: Refs, odb: Odb, root: Node, ops: seq<EditOp>)
    requires Entire(core, refs) && Extends(core, odb) && Good(root, InReach(core, refs))
    requires forall i :: 0 <= i < |ops| ==> OpGood(ops[i], InReach(core, refs))
    ensures EditAll(odb, root, ops) == EditAll(core, root, ops)
    decreases |ops|
  {
    hide Entire, Extends, InReach, Good, OpGood, Edit;
    if ops != [] {
      var front := ops[..|ops| - 1];
      RunSame(core, refs, odb, root, front);
      if EditAll(core, root, front).Some? {
        InReachIsHereditary(core, refs);
        RunIsGood(core, root, front, InReach(core, refs));
        EditSame(core, refs, odb, EditAll(core, root, front).value, ops[|ops| - 1]);
      }
    }
  }

  // Two nodes at the same point of the same block, whatever else their stores keep.
  ghost predicate Twins(a: Scene, b: Scene) {
    a.env == b.env && a.segments == b.segments && a.block == b.block && a.known == b.known
  }

  // Both stores keep this object, or neither does.
  predicate Agree(a: Scene, b: Scene, blob: Blob) {
    a.env.hash(blob) in a.committed <==> a.env.hash(blob) in b.committed
  }

  // The objects a change amounts to.
  predicate Asked(sc: Scene, change: Change, blob: Blob) {
    match change
    case PutFile(_, _, meta, content) =>
      blob == FileBlob(FileFor(sc, meta, content))
          || (content.Inline? && content.bytes.Some? && blob in ChunkBlobs(Chunks.Cut(content.bytes.value)))
    case PutSymlink(_, target) => blob == FileBlob(LinkFor(sc, target)) || blob in ChunkBlobs([target])
    case _ => false
  }

  ghost predicate AgreeOn(a: Scene, b: Scene, change: Change) {
    forall blob :: Asked(a, change, blob) ==> Agree(a, b, blob)
  }

  lemma StageSame(a: Scene, b: Scene, d: Draft, blob: Blob)
    requires Twins(a, b) && Agree(a, b, blob)
    ensures StageObject(a, d, blob) == StageObject(b, d, blob)
  {
  }

  lemma {:induction false} StageAllSame(a: Scene, b: Scene, d: Draft, blobs: seq<Blob>)
    requires Twins(a, b) && forall blob :: blob in blobs ==> Agree(a, b, blob)
    ensures StageAll(a, d, blobs) == StageAll(b, d, blobs)
    decreases |blobs|
  {
    hide StageObject, Agree;
    if blobs != [] {
      StageAllSame(a, b, d, blobs[..|blobs| - 1]);
      StageSame(a, b, StageAll(a, d, blobs[..|blobs| - 1]), blobs[|blobs| - 1]);
    }
  }

  lemma PlanOneSame(a: Scene, b: Scene, who: Actors.Authority, d: Draft, change: Change)
    requires Twins(a, b) && AgreeOn(a, b, change)
    ensures PlanChange(a, who, d, change) == PlanChange(b, who, d, change)
  {
    hide StageObject, StageAll, MayWrite, MetaFits, Agree, ParseChunks, Chunks.Cut, FileBlob, HashesOf, ChunkBlobs;
    match change
    case PutFile(path, exec, meta, content) =>
      var claim := Claim(a, who, d, path);
      if claim.Some? { FileSame(a, b, claim.value.1, claim.value.0, path, exec, meta, content); }
    case PutSymlink(path, target) =>
      var claim := Claim(a, who, d, path);
      if claim.Some? {
        assert forall blob :: blob in ChunkBlobs([target]) ==> Asked(a, change, blob);
        InlineSame(a, b, claim.value.1, claim.value.0, Symlink, false, map[], |target|, [target]);
      }
    case _ =>
  }

  lemma InlineSame(a: Scene, b: Scene, d: Draft, path: Path, kind: EntryKind, exec: bool, meta: map<Text, Text>,
          size: nat, pieces: seq<Text>)
    requires Twins(a, b) && (forall blob :: blob in ChunkBlobs(pieces) ==> Agree(a, b, blob))
    requires Agree(a, b, FileBlob(FileObj(size, HashesOf(a.env.hash, ChunkBlobs(pieces)), meta)))
    ensures PlanInline(a, d, path, kind, exec, meta, size, pieces)
        == PlanInline(b, d, path, kind, exec, meta, size, pieces)
  {
    hide StageObject, StageAll, Agree, FileBlob;
    StageAllSame(a, b, d, ChunkBlobs(pieces));
    StageSame(a, b, StageAll(a, d, ChunkBlobs(pieces)),
        FileBlob(FileObj(size, HashesOf(a.env.hash, ChunkBlobs(pieces)), meta)));
  }

  lemma FileSame(a: Scene, b: Scene, d: Draft, path: Path, name: Text, exec: bool, meta: map<Text, Text>,
          content: Content)
    requires Twins(a, b) && AgreeOn(a, b, PutFile(name, exec, meta, content))
    ensures PlanFile(a, d, path, exec, meta, content) == PlanFile(b, d, path, exec, meta, content)
  {
    hide StageObject, StageAll, Agree, FileBlob, ParseChunks, ParseAll, HashesOf, ChunkBlobs, PlanInline, Chunks.Cut;
    var change, f := PutFile(name, exec, meta, content), FileFor(a, meta, content);
    assert Asked(a, change, FileBlob(f));
    match content
    case Inline(Some(bytes)) =>
      assert forall blob :: blob in ChunkBlobs(Chunks.Cut(bytes)) ==> Asked(a, change, blob);
      InlineSame(a, b, d.(inline := d.inline + |bytes|), path, File, exec, meta, |bytes|, Chunks.Cut(bytes));
    case ByChunks(size, chunks) =>
      if ParseChunks(size, chunks).Some? {
        ParsedIs(size, chunks);
        var ids := ParseChunks(size, chunks).value;
        StageSame(a, b, d.(checks := d.checks + [(size, ids)]), FileBlob(f));
      }
    case Inline(None) =>
  }

  lemma {:induction false} PlanSame(a: Scene, b: Scene, who: Actors.Authority, changes: seq<Change>)
    requires Twins(a, b) && forall i :: 0 <= i < |changes| ==> AgreeOn(a, b, changes[i])
    ensures PlanAll(a, who, changes) == PlanAll(b, who, changes)
    decreases |changes|
  {
    hide PlanChange, AgreeOn;
    if changes != [] {
      PlanSame(a, b, who, changes[..|changes| - 1]);
      if PlanAll(a, who, changes[..|changes| - 1]).Some? {
        PlanOneSame(a, b, who, PlanAll(a, who, changes[..|changes| - 1]).value, changes[|changes| - 1]);
      }
    }
  }

  // What the catalog answers for is in reach.
  ghost predicate CatalogTrue(sc: Scene, core: Odb) {
    forall id :: sc.env.kept(sc.block.refs.retention, id) == Some(true) ==>
      R.Node(R.AsSnapshot, id) in ReachedBy(core, sc.block.refs)
  }

  lemma ResolvedIsReached(sc: Scene, core: Odb, height: nat, id: Id)
    requires CatalogTrue(sc, core) && ContainsSnapshot(sc.env, Sweep(sc.block.refs, height), id) == Some(true)
    ensures R.Node(R.AsSnapshot, id) in ReachedBy(core, sc.block.refs)
  {
    hide R.Reached, R.Ordinary, R.Catalog, D.RootsOf, View;
    RootsAre(sc.block.refs);
    R.ReachedIsLeast(View(core), D.RootsOf(sc.block.refs));
    if !(sc.env.kept(sc.block.refs.retention, id) == Some(true)) {
      assert Rooted(sc.block.refs, R.Node(R.AsSnapshot, id));
    }
  }

  lemma SnapshotSame(core: Odb, refs: Refs, odb: Odb, id: Id)
    requires Entire(core, refs) && Extends(core, odb) && R.Node(R.AsSnapshot, id) in ReachedBy(core, refs)
    ensures SnapshotNode(odb, Some(id)) == SnapshotNode(core, Some(id)) && SnapshotNode(core, Some(id)).Some?
    ensures Good(SnapshotNode(core, Some(id)).value, InReach(core, refs))
  {
    hide R.Reached, R.Ordinary, R.Catalog, R.Children, D.RootsOf, View, Proper, DecodeSnapshot;
    ProperSnapshot(core, id);
    ExtendsAt(core, odb, id);
    R.ReachedIsLeast(View(core), D.RootsOf(refs));
    SnapshotLeadsTo(core, id);
    var n := R.Node(R.AsTree, RootOf(core, id).value);
    assert n in R.Children(View(core), R.Node(R.AsSnapshot, id));
  }

  lemma BaseSame(sc: Scene, core: Odb, height: nat, base: Option<Text>)
    requires Entire(core, sc.block.refs) && Extends(core, ViewOf(sc)) && CatalogTrue(sc, core)
    ensures var refs := Sweep(sc.block.refs, height);
      && BaseNode(sc.env, ViewOf(sc), refs, base) == BaseNode(sc.env, core, refs, base)
      && (BaseNode(sc.env, core, refs, base).Some? ==>
        Good(BaseNode(sc.env, core, refs, base).value, InReach(core, sc.block.refs)))
  {
    hide Entire, ReachedBy, SnapshotNode, ContainsSnapshot, FromHex32, Extends, CatalogTrue, InReach, ViewOf;
    if base.Some? && FromHex32(base.value).Some? {
      var id := FromHex32(base.value).value;
      if ContainsSnapshot(sc.env, Sweep(sc.block.refs, height), id) == Some(true) {
        ResolvedIsReached(sc, core, height, id);
        SnapshotSame(core, sc.block.refs, ViewOf(sc), id);
      }
    }
  }

  lemma HeadSame(sc: Scene, core: Odb)
    requires Entire(core, sc.block.refs) && Extends(core, ViewOf(sc))
    ensures SnapshotNode(ViewOf(sc), sc.block.refs.head) == SnapshotNode(core, sc.block.refs.head)
    ensures SnapshotNode(core, sc.block.refs.head).Some?
        && Good(SnapshotNode(core, sc.block.refs.head).value, InReach(core, sc.block.refs))
  {
    hide R.Reached, R.Ordinary, R.Catalog, D.RootsOf, View, Proper, RootOf, Extends, InReach;
    var head := sc.block.refs.head;
    if head.Some? {
      RootsAre(sc.block.refs);
      R.ReachedIsLeast(View(core), D.RootsOf(sc.block.refs));
      assert Rooted(sc.block.refs, R.Node(R.AsSnapshot, head.value));
      SnapshotSame(core, sc.block.refs, ViewOf(sc), head.value);
    }
  }

  lemma UnmovedSame(core: Odb, refs: Refs, odb: Odb, base: Node, head: Node, touched: seq<Path>)
    requires Entire(core, refs) && Extends(core, odb) && Good(base, InReach(core, refs))
        && Good(head, InReach(core, refs))
    ensures Unmoved(odb, base, head, touched) == Unmoved(core, base, head, touched)
  {
    hide Entire, Extends, Good, InReach, LookAt;
    forall path
      ensures EntryAt(odb, base, path) == EntryAt(core, base, path)
          && EntryAt(odb, head, path) == EntryAt(core, head, path)
    {
      LookSame(core, refs, odb, base, path);
      LookSame(core, refs, odb, head, path);
    }
  }

  lemma OpIsInReach(sc: Scene, core: Odb, change: Change)
    requires SceneTrue(sc)
    ensures OpGood(OpOf(sc, change), InReach(core, sc.block.refs))
  {
    hide SceneTrue, ReachedBy, FileBlob, PathFits, FileFor, LinkFor;
    OpPathsFit(sc, change);
  }

  // What Decide makes of a draft, as far as the trees at hand go.
  lemma DecideReads(sc: Scene, core: Odb, h: Header, base: Option<Text>, changes: seq<Change>)
    requires SceneTrue(sc) && Entire(core, sc.block.refs) && Extends(core, ViewOf(sc)) && CatalogTrue(sc, core)
    requires PlanAll(sc, h.who, changes).Some?
    ensures var (refs, d, odb) := (Sweep(sc.block.refs, h.height), PlanAll(sc, h.who, changes).value, ViewOf(sc));
      && BaseNode(sc.env, odb, refs, base) == BaseNode(sc.env, core, refs, base)
      && SnapshotNode(odb, refs.head) == SnapshotNode(core, refs.head) && SnapshotNode(core, refs.head).Some?
      && EditAll(odb, SnapshotNode(core, refs.head).value, d.ops)
        == EditAll(core, SnapshotNode(core, refs.head).value, d.ops)
      && (BaseNode(sc.env, core, refs, base).Some? ==>
            Unmoved(odb, BaseNode(sc.env, core, refs, base).value, SnapshotNode(core, refs.head).value, d.touched)
            == Unmoved(core, BaseNode(sc.env, core, refs, base).value, SnapshotNode(core, refs.head).value, d.touched))
  {
    hide SceneTrue, Entire, Extends, CatalogTrue, ViewOf, PlanAll, BaseNode, SnapshotNode, EditAll, Unmoved, Good,
      OpGood, InReach, OpOf;
    HeadSame(sc, core);
    BaseSame(sc, core, h.height, base);
    PlanIs(sc, h.who, changes);
    forall i | 0 <= i < |changes|
      ensures OpGood(OpsOf(sc, changes)[i], InReach(core, sc.block.refs))
    {
      OpIsInReach(sc, core, changes[i]);
    }
    var refs, d := Sweep(sc.block.refs, h.height), PlanAll(sc, h.who, changes).value;
    RunSame(core, sc.block.refs, ViewOf(sc), SnapshotNode(core, refs.head).value, d.ops);
    if BaseNode(sc.env, core, refs, base).Some? {
      UnmovedSame(core, sc.block.refs, ViewOf(sc), BaseNode(sc.env, core, refs, base).value,
          SnapshotNode(core, refs.head).value, d.touched);
    }
  }

  lemma RootSame(a: Scene, b: Scene, d: Draft, edited: Node)
    requires Twins(a, b) && Agree(a, b, EMPTY_DIR)
    ensures BuildRoot(a, d, edited) == BuildRoot(b, d, edited)
  {
    hide Build, StageObject, Agree;
    StageSame(a, b, d, EMPTY_DIR);
  }

  // Where the reads come out alike, so does the decision.
  lemma DecideAlike(a: Scene, b: Scene, h: Header, base: Option<Text>, changes: seq<Change>)
    requires Twins(a, b) && Agree(a, b, EMPTY_DIR) && PlanAll(a, h.who, changes) == PlanAll(b, h.who, changes)
    requires var refs := Sweep(a.block.refs, h.height); PlanAll(a, h.who, changes).Some? ==>
      && BaseNode(a.env, ViewOf(a), refs, base) == BaseNode(a.env, ViewOf(b), refs, base)
      && SnapshotNode(ViewOf(a), refs.head) == SnapshotNode(ViewOf(b), refs.head)
        && SnapshotNode(ViewOf(a), refs.head).Some?
      && EditAll(ViewOf(a), SnapshotNode(ViewOf(a), refs.head).value, PlanAll(a, h.who, changes).value.ops)
         == EditAll(ViewOf(b), SnapshotNode(ViewOf(a), refs.head).value, PlanAll(a, h.who, changes).value.ops)
      && (BaseNode(a.env, ViewOf(a), refs, base).Some? ==>
            Unmoved(ViewOf(a), BaseNode(a.env, ViewOf(a), refs, base).value, SnapshotNode(ViewOf(a), refs.head).value,
                PlanAll(a, h.who, changes).value.touched)
            == Unmoved(ViewOf(b), BaseNode(a.env, ViewOf(a), refs, base).value,
                SnapshotNode(ViewOf(a), refs.head).value, PlanAll(a, h.who, changes).value.touched))
    ensures Decide(a, h, base, changes) == Decide(b, h, base, changes)
  {
    hide Sweep, ViewOf, PlanAll, BaseNode, SnapshotNode, EditAll, Unmoved, BuildRoot, AllAvailable, SnapshotBlob, Agree;
    forall d, edited { RootSame(a, b, d, edited); }
  }

  // Nodes that hold everything the refs reach come to the same decision, object for object, unless
  // the commit brings an object that one of them happens to keep already and the other does not.
  lemma CommitIsUniform(a: Scene, b: Scene, core: Odb, h: Header, base: Option<Text>, changes: seq<Change>)
    requires SceneTrue(a) && SceneTrue(b) && Twins(a, b) && Entire(core, a.block.refs) && CatalogTrue(a, core)
    requires Extends(core, ViewOf(a)) && Extends(core, ViewOf(b))
    requires (forall i :: 0 <= i < |changes| ==> AgreeOn(a, b, changes[i])) && Agree(a, b, EMPTY_DIR)
    ensures Decide(a, h, base, changes) == Decide(b, h, base, changes)
  {
    hide SceneTrue, Entire, Extends, ViewOf, PlanAll, BaseNode, SnapshotNode, EditAll, Unmoved, Decide, AgreeOn,
      Sweep, ReachedBy;
    PlanSame(a, b, h.who, changes);
    if PlanAll(a, h.who, changes).Some? {
      DecideReads(a, core, h, base, changes);
      DecideReads(b, core, h, base, changes);
    }
    DecideAlike(a, b, h, base, changes);
  }

  // ---- exactly when two nodes part ---------------------------------------------------------------------

  // A chunk the change names by its digest.
  predicate Names(change: Change, id: Id) {
    && change.PutFile? && change.content.ByChunks?
    && ParseAll(change.content.chunks).Some? && id in ParseAll(change.content.chunks).value
  }

  // A chunk named that this node's store keeps, though neither the staging table nor the block knows it.
  // All of it can be told before the commit is made.
  ghost predicate Shadowed(sc: Scene, refs: Refs, changes: seq<Change>) {
    exists id :: NamedBy(changes, id) && id !in refs.staging && id !in sc.block.index && id in sc.committed
  }

  ghost predicate NamedBy(changes: seq<Change>, id: Id) {
    exists i :: 0 <= i < |changes| && Names(changes[i], id)
  }

  ghost predicate ListedIn(checks: seq<(nat, seq<Id>)>, id: Id) {
    exists k :: 0 <= k < |checks| && id in checks[k].1
  }

  // Two plans of the same changes: alike but for what each node had to stage.
  ghost predicate Alike(a: Scene, b: Scene, da: Draft, db: Draft) {
    && db == da.(objects := db.objects, staged := db.staged)
    && (forall id :: id in da.staged && id !in b.committed ==> id in db.staged)
    && (forall id :: id in db.staged ==> id !in b.committed)
  }

  lemma StageAlike(a: Scene, b: Scene, da: Draft, db: Draft, blob: Blob)
    requires Twins(a, b) && Alike(a, b, da, db)
    ensures Alike(a, b, StageObject(a, da, blob), StageObject(b, db, blob))
  {
  }

  lemma {:induction false} StageAllAlike(a: Scene, b: Scene, da: Draft, db: Draft, blobs: seq<Blob>)
    requires Twins(a, b) && Alike(a, b, da, db)
    ensures Alike(a, b, StageAll(a, da, blobs), StageAll(b, db, blobs))
    decreases |blobs|
  {
    hide StageObject, Alike;
    if blobs != [] {
      var front := blobs[..|blobs| - 1];
      StageAllAlike(a, b, da, db, front);
      StageAlike(a, b, StageAll(a, da, front), StageAll(b, db, front), blobs[|blobs| - 1]);
    }
  }

  lemma EntryAlike(a: Scene, b: Scene, da: Draft, db: Draft, path: Path, kind: EntryKind, exec: bool, f: FileObj)
    requires Twins(a, b) && Alike(a, b, da, db)
    ensures Alike(a, b, PlanEntry(a, da, path, kind, exec, f), PlanEntry(b, db, path, kind, exec, f))
  {
    hide StageObject, FileBlob;
    StageAlike(a, b, da, db, FileBlob(f));
  }

  lemma InlineAlike(a: Scene, b: Scene, da: Draft, db: Draft, path: Path, kind: EntryKind, exec: bool, meta: map<Text,
          Text>, size: nat,
                    pieces: seq<Text>)
    requires Twins(a, b) && Alike(a, b, da, db)
    ensures Alike(a, b, PlanInline(a, da, path, kind, exec, meta, size, pieces),
        PlanInline(b, db, path, kind, exec, meta, size, pieces))
  {
    hide StageAll, PlanEntry, Alike;
    var blobs := ChunkBlobs(pieces);
    StageAllAlike(a, b, da, db, blobs);
    EntryAlike(a, b, StageAll(a, da, blobs), StageAll(b, db, blobs), path, kind, exec,
        FileObj(size, HashesOf(a.env.hash, blobs), meta));
  }

  // The plans of one change go through together and stay alike.
  ghost predicate BothAlike(a: Scene, b: Scene, da: Option<Draft>, db: Option<Draft>) {
    da.Some? == db.Some? && (da.Some? ==> Alike(a, b, da.value, db.value))
  }

  lemma FileAlike(a: Scene, b: Scene, da: Draft, db: Draft, path: Path, exec: bool, meta: map<Text, Text>,
          content: Content)
    requires Twins(a, b) && Alike(a, b, da, db)
    ensures BothAlike(a, b, PlanFile(a, da, path, exec, meta, content), PlanFile(b, db, path, exec, meta, content))
  {
    hide PlanEntry, PlanInline, ParseChunks, Chunks.Cut;
    match content
    case Inline(Some(bytes)) =>
      InlineAlike(a, b, da.(inline := da.inline + |bytes|), db.(inline := da.inline + |bytes|), path, File, exec, meta,
          |bytes|,
        Chunks.Cut(bytes));
    case ByChunks(size, chunks) =>
      if ParseChunks(size, chunks).Some? {
        var ids := ParseChunks(size, chunks).value;
        EntryAlike(a, b, da.(checks := da.checks + [(size, ids)]), db.(checks := da.checks + [(size, ids)]), path,
            File, exec,
          FileObj(size, ids, meta));
      }
    case Inline(None) =>
  }

  lemma ClaimAlike(a: Scene, b: Scene, who: Actors.Authority, da: Draft, db: Draft, path: Text)
    requires Twins(a, b) && Alike(a, b, da, db)
    ensures var (ca, cb) := (Claim(a, who, da, path), Claim(b, who, db, path));
      ca.Some? == cb.Some? && (ca.Some? ==> ca.value.0 == cb.value.0 && Alike(a, b, ca.value.1, cb.value.1))
  {
    hide MayWrite;
  }

  lemma OpsAlike(a: Scene, b: Scene, da: Draft, db: Draft, op: EditOp)
    requires Alike(a, b, da, db)
    ensures Alike(a, b, da.(ops := da.ops + [op]), db.(ops := db.ops + [op]))
  {
  }

  lemma ChangeAlike(a: Scene, b: Scene, who: Actors.Authority, da: Draft, db: Draft, change: Change)
    requires Twins(a, b) && Alike(a, b, da, db)
    ensures BothAlike(a, b, PlanChange(a, who, da, change), PlanChange(b, who, db, change))
  {
    hide Claim, PlanFile, PlanInline, MetaFits, Alike;
    var path := if change.MovePath? then change.source else change.path;
    ClaimAlike(a, b, who, da, db, path);
    var ca, cb := Claim(a, who, da, path), Claim(b, who, db, path);
    if ca.Some? {
      var (segments, claimed) := ca.value;
      match change
      case PutFile(_, exec, meta, content) => FileAlike(a, b, claimed, cb.value.1, segments, exec, meta, content);
      case MakeDirectory(_) => OpsAlike(a, b, claimed, cb.value.1, Mkdir(segments));
      case RemovePath(_) => OpsAlike(a, b, claimed, cb.value.1, Rm(segments));
      case MovePath(_, target) =>
        ClaimAlike(a, b, who, claimed, cb.value.1, target);
        var both := Claim(a, who, claimed, target);
        if both.Some? { OpsAlike(a, b, both.value.1, Claim(b, who, cb.value.1, target).value.1,
            Mv(segments, both.value.0)); }
      case PutSymlink(_, target) => InlineAlike(a, b, claimed, cb.value.1, segments, Symlink, false, map[], |target|,
          [target]);
    }
  }

  lemma {:induction false} PlanAlike(a: Scene, b: Scene, who: Actors.Authority, changes: seq<Change>)
    requires Twins(a, b)
    ensures BothAlike(a, b, PlanAll(a, who, changes), PlanAll(b, who, changes))
    decreases |changes|
  {
    hide PlanChange;
    if changes != [] {
      PlanAlike(a, b, who, changes[..|changes| - 1]);
      var da, db := PlanAll(a, who, changes[..|changes| - 1]), PlanAll(b, who, changes[..|changes| - 1]);
      if da.Some? { ChangeAlike(a, b, who, da.value, db.value, changes[|changes| - 1]); }
    }
  }

  // The chunk lists still to be found are those the changes name.
  ghost predicate ChecksFrom(checks: seq<(nat, seq<Id>)>, changes: seq<Change>) {
    forall id :: ListedIn(checks, id) <==> NamedBy(changes, id)
  }

  lemma OneCheck(sc: Scene, who: Actors.Authority, d: Draft, change: Change)
    requires PlanChange(sc, who, d, change).Some?
    ensures var after := PlanChange(sc, who, d, change).value.checks;
      && (if change.PutFile? && change.content.ByChunks? then
            ParseAll(change.content.chunks).Some?
                && after == d.checks + [(change.content.size, ParseAll(change.content.chunks).value)]
          else after == d.checks)
  {
    hide StageObject, StageAll, MayWrite, MetaFits, FileBlob, HashesOf, ChunkBlobs, ParseAll, Chunks.Cut;
    var path := if change.MovePath? then change.source else change.path;
    var (segments, claimed) := Claim(sc, who, d, path).value;
    match change
    case PutFile(_, exec, meta, Inline(Some(bytes))) =>
      InlineChecks(sc, claimed.(inline := claimed.inline + |bytes|), segments, File, exec, meta, |bytes|,
          Chunks.Cut(bytes));
    case PutFile(_, exec, meta, ByChunks(size, chunks)) =>
      ParsedIs(size, chunks);
      var ids := ParseChunks(size, chunks).value;
      StagedAlike(sc, claimed.(checks := claimed.checks + [(size, ids)]), FileBlob(FileObj(size, ids, meta)));
    case PutSymlink(_, target) => InlineChecks(sc, claimed, segments, Symlink, false, map[], |target|, [target]);
    case _ =>
  }

  lemma InlineChecks(sc: Scene, d: Draft, path: Path, kind: EntryKind, exec: bool, meta: map<Text, Text>, size: nat,
          pieces: seq<Text>)
    ensures PlanInline(sc, d, path, kind, exec, meta, size, pieces).checks == d.checks
  {
    hide StageObject, StageAll, FileBlob;
    var blobs := ChunkBlobs(pieces);
    StagedAllAlike(sc, d, blobs);
    StagedAlike(sc, StageAll(sc, d, blobs), FileBlob(FileObj(size, HashesOf(sc.env.hash, blobs), meta)));
  }

  lemma {:induction false} ChecksAre(sc: Scene, who: Actors.Authority, changes: seq<Change>)
    requires PlanAll(sc, who, changes).Some?
    ensures ChecksFrom(PlanAll(sc, who, changes).value.checks, changes)
    decreases |changes|
  {
    hide PlanChange, Names;
    if changes != [] {
      var front, last := changes[..|changes| - 1], changes[|changes| - 1];
      ChecksAre(sc, who, front);
      var d := PlanAll(sc, who, front).value;
      OneCheck(sc, who, d, last);
      ChecksGrow(d.checks, front, PlanAll(sc, who, changes).value.checks, changes);
    }
  }

  lemma ChecksGrow(checks: seq<(nat, seq<Id>)>, front: seq<Change>, after: seq<(nat, seq<Id>)>, changes: seq<Change>)
    requires ChecksFrom(checks, front) && changes != [] && front == changes[..|changes| - 1]
    requires var last := changes[|changes| - 1];
      if last.PutFile? && last.content.ByChunks? then
        ParseAll(last.content.chunks).Some?
            && after == checks + [(last.content.size, ParseAll(last.content.chunks).value)]
      else after == checks
    ensures ChecksFrom(after, changes)
  {
    hide ParseAll;
    forall id
      ensures ListedIn(after, id) <==> NamedBy(changes, id)
    {
      NamedMore(changes, id);
      ListedMore(checks, after, id);
      assert ListedIn(checks, id) <==> NamedBy(front, id);
    }
  }

  lemma NamedMore(changes: seq<Change>, id: Id)
    requires changes != []
    ensures NamedBy(changes, id) <==> NamedBy(changes[..|changes| - 1], id) || Names(changes[|changes| - 1], id)
  {
    hide Names;
    var front := changes[..|changes| - 1];
    if i :| 0 <= i < |front| && Names(front[i], id) { assert Names(changes[i], id); }
  }

  lemma ListedMore(checks: seq<(nat, seq<Id>)>, after: seq<(nat, seq<Id>)>, id: Id)
    requires after == checks || (|after| == |checks| + 1 && after[..|checks|] == checks)
    ensures ListedIn(after, id) <==> ListedIn(checks, id) || (|after| > |checks| && id in after[|checks|].1)
  {
    if k :| 0 <= k < |after| && id in after[k].1 {
      if k < |checks| { assert id in checks[k].1; }
    }
    if k :| 0 <= k < |checks| && id in checks[k].1 { assert id in after[k].1; }
  }

  // A chunk found by one node is found by the other unless its store shadows it.
  lemma FoundAlike(a: Scene, b: Scene, refs: Refs, da: Draft, db: Draft, size: nat, count: nat, index: nat, id: Id)
    requires Twins(a, b) && Alike(a, b, da, db) && SceneTrue(a) && DraftTrue(a, da) && DraftTrue(b, db)
    requires Available(refs, a.block, da, size, count, index, id)
    ensures Available(refs, b.block, db, size, count, index, id)
      <==> id in refs.staging || id in b.block.index || id !in b.committed
  {
    hide ViewOf, Chunks.VerifyChunkLenAt, PathFits, DirBlob, Hashed;
    if id !in refs.staging && id !in b.block.index && id !in b.committed {
      var p :| p in da.objects && a.env.hash(p) == id;
      var q :| q in db.objects && b.env.hash(q) == id;
      assert p == q;
    }
  }

  lemma AllFoundAlike(a: Scene, b: Scene, refs: Refs, da: Draft, db: Draft, changes: seq<Change>)
    requires Twins(a, b) && Alike(a, b, da, db) && SceneTrue(a) && DraftTrue(a, da) && DraftTrue(b, db)
    requires AllAvailable(refs, a.block, da) && ChecksFrom(da.checks, changes)
    ensures AllAvailable(refs, b.block, db) <==> !Shadowed(b, refs, changes)
  {
    hide SceneTrue, DraftTrue, Available, Names;
    forall k, i | 0 <= k < |da.checks| && 0 <= i < |da.checks[k].1|
      ensures Available(refs, b.block, db, da.checks[k].0, |da.checks[k].1|, i, da.checks[k].1[i])
        <==>
          || da.checks[k].1[i] in refs.staging || da.checks[k].1[i] in b.block.index
          || da.checks[k].1[i] !in b.committed
    {
      FoundAlike(a, b, refs, da, db, da.checks[k].0, |da.checks[k].1|, i, da.checks[k].1[i]);
    }
    if Shadowed(b, refs, changes) {
      var id :| NamedBy(changes, id) && id !in refs.staging && id !in b.block.index && id in b.committed;
      assert ListedIn(da.checks, id);
      var k :| 0 <= k < |da.checks| && id in da.checks[k].1;
      var i :| 0 <= i < |da.checks[k].1| && da.checks[k].1[i] == id;
      assert !Available(refs, b.block, db, db.checks[k].0, |db.checks[k].1|, i, db.checks[k].1[i]);
    } else {
      forall k, i | 0 <= k < |db.checks| && 0 <= i < |db.checks[k].1|
        ensures Available(refs, b.block, db, db.checks[k].0, |db.checks[k].1|, i, db.checks[k].1[i])
      {
        var id := da.checks[k].1[i];
        assert id in da.checks[k].1;
        assert ListedIn(da.checks, id) && NamedBy(changes, id);
      }
    }
  }

  lemma RootBuildsAlike(a: Scene, b: Scene, da: Draft, db: Draft, edited: Node)
    requires Twins(a, b)
    ensures BuildRoot(a, da, edited).Some? == BuildRoot(b, db, edited).Some?
  {
    hide Build, StageObject;
  }

  // A decision is made on the plan, the two trees, the chunks, the edits and the root.
  lemma DecideIs(sc: Scene, h: Header, base: Option<Text>, changes: seq<Change>)
    ensures var (refs, odb) := (Sweep(sc.block.refs, h.height), ViewOf(sc));
      var (d, from, head) := (PlanAll(sc, h.who, changes), BaseNode(sc.env, odb, refs, base),
          SnapshotNode(odb, refs.head));
      Decide(sc, h, base, changes).Some? <==>
        && |h.message| <= MAX_MESSAGE_BYTES && changes != [] && |changes| <= MAX_CHANGES_PER_COMMIT
        && d.Some? && from.Some? && head.Some?
        && AllAvailable(refs, sc.block, d.value) && Unmoved(odb, from.value, head.value, d.value.touched)
        && EditAll(odb, head.value, d.value.ops).Some?
        && BuildRoot(sc, d.value, EditAll(odb, head.value, d.value.ops).value).Some?
  {
    hide PlanAll, BaseNode, SnapshotNode, AllAvailable, Unmoved, EditAll, BuildRoot, SnapshotBlob, Sweep, ViewOf;
  }

  // A commit one node accepts, another that holds all the refs reach accepts exactly if its store
  // shadows no chunk the commit names.
  lemma VerdictIsExact(a: Scene, b: Scene, core: Odb, h: Header, base: Option<Text>, changes: seq<Change>)
    requires SceneTrue(a) && SceneTrue(b) && Twins(a, b) && Entire(core, a.block.refs) && CatalogTrue(a, core)
    requires Extends(core, ViewOf(a)) && Extends(core, ViewOf(b)) && AllTyped(a, changes) && AllTyped(b, changes)
    requires Decide(a, h, base, changes).Some?
    ensures Decide(b, h, base, changes).Some? <==> !Shadowed(b, Sweep(b.block.refs, h.height), changes)
  {
    hide SceneTrue, Entire, CatalogTrue, Extends, AllTyped, Decide, PlanAll, BaseNode, SnapshotNode, AllAvailable,
      Unmoved, EditAll,
      BuildRoot, ViewOf, Sweep, Alike, DraftTrue, Shadowed, ReachedBy;
    DecideIs(a, h, base, changes);
    DecideIs(b, h, base, changes);
    PlanAlike(a, b, h.who, changes);
    var refs, da, db := Sweep(a.block.refs, h.height), PlanAll(a, h.who, changes).value, PlanAll(b, h.who,
        changes).value;
    PlanIsTrue(a, h.who, changes);
    PlanIsTrue(b, h.who, changes);
    ChecksAre(a, h.who, changes);
    AllFoundAlike(a, b, refs, da, db, changes);
    TwinCatalog(a, b, core);
    DecideReads(a, core, h, base, changes);
    DecideReads(b, core, h, base, changes);
    AlikePlans(a, b, da, db);
    RootBuildsAlike(a, b, da, db, EditAll(ViewOf(a), SnapshotNode(ViewOf(a), refs.head).value, da.ops).value);
  }

  lemma TwinCatalog(a: Scene, b: Scene, core: Odb)
    requires Twins(a, b) && CatalogTrue(a, core)
    ensures CatalogTrue(b, core)
  {
    hide ReachedBy;
  }

  lemma AlikePlans(a: Scene, b: Scene, da: Draft, db: Draft)
    requires Alike(a, b, da, db)
    ensures da.ops == db.ops && da.touched == db.touched
  {
  }
}
