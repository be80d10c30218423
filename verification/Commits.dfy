// The commit engine (crates/duckfs/core/src/fs.rs:1195-1557): a list of changes against a base
// snapshot, planned, checked against what has moved since, and built into a new snapshot.
module Commits {
  import opened Wrappers
  import opened Texts
  import opened Kinds
  import opened Grammars
  import opened Objects
  import opened RefsImage
  import opened Records
  import opened Verbs
  import opened TreeEdits
  import opened Grounding
  import Actors
  import Chunks
  import R = Reachability
  import D = Durability

  const MAX_CHANGES_PER_COMMIT: nat := 4096
  const MAX_INLINE_COMMIT_BYTES: nat := 262_144
  const MAX_SYMLINK_TARGET_BYTES: nat := 4096
  const HOME: Text := ['h' as int, 'o' as int, 'm' as int, 'e' as int]
  const SHARED: Text := ['s' as int, 'h' as int, 'a' as int, 'r' as int, 'e' as int, 'd' as int]

  // `Inline` bytes are None where the text was not base64 (section 4 of RFC 4648).
  datatype Content = Inline(bytes: Option<Text>) | ByChunks(size: nat, chunks: seq<Text>)

  datatype Change =
    | PutFile(path: Text, exec: bool, meta: map<Text, Text>, content: Content)
    | MakeDirectory(path: Text)
    | RemovePath(path: Text)
    | MovePath(source: Text, target: Text)
    | PutSymlink(path: Text, target: Text)

  // What a commit runs against: the objects in the local store, whether reachable or not, and the
  // block so far. `segments` splits a canonical path, None where it is not one; `known` are all the
  // objects there is talk of, which no hash is assumed to confuse.
  datatype Scene = Scene(env: Env, segments: Text -> Option<Path>, committed: Odb, block: Block, known: set<Blob>)

  // The read view: the block's objects over the store's.
  function AtHand(hash: Hash, committed: Odb, objects: seq<Blob>): Odb {
    if objects == [] then committed
    else AtHand(hash, committed, objects[..|objects| - 1])[hash(objects[|objects| - 1]) := objects[|objects| - 1]]
  }

  function ViewOf(sc: Scene): Odb {
    AtHand(sc.env.hash, sc.committed, sc.block.objects)
  }

  // ---- planning --------------------------------------------------------------------------------------

  // What a commit has gathered so far. `staged` are its own new objects, `checks` the chunk lists
  // still to be found, `references` every chunk its files name.
  datatype Draft = Draft(objects: seq<Blob>, staged: map<Id, (ObjectKind, nat)>, ops: seq<EditOp>, touched: seq<Path>,
                         references: seq<Id>, checks: seq<(nat, seq<Id>)>, inline: nat)

  const NOTHING_YET: Draft := Draft([], map[], [], [], [], [], 0)

  // An object already at hand is not staged again.
  function StageObject(sc: Scene, d: Draft, blob: Blob): Draft {
    var id := sc.env.hash(blob);
    if id in d.staged || id in sc.block.index || id in sc.committed then d
    else d.(objects := d.objects + [blob], staged := d.staged[id := (blob.kind, |blob.body|)])
  }

  function StageAll(sc: Scene, d: Draft, blobs: seq<Blob>): Draft {
    if blobs == [] then d else StageObject(sc, StageAll(sc, d, blobs[..|blobs| - 1]), blobs[|blobs| - 1])
  }

  function ChunkBlobs(pieces: seq<Text>): (blobs: seq<Blob>)
    ensures |blobs| == |pieces| && forall i :: 0 <= i < |pieces| ==> blobs[i] == Blob(ChunkKind, pieces[i])
  {
    seq(|pieces|, i requires 0 <= i < |pieces| => Blob(ChunkKind, pieces[i]))
  }

  function HashesOf(hash: Hash, blobs: seq<Blob>): (ids: seq<Id>)
    ensures |ids| == |blobs| && forall i :: 0 <= i < |blobs| ==> ids[i] == hash(blobs[i])
  {
    seq(|blobs|, i requires 0 <= i < |blobs| => hash(blobs[i]))
  }

  function FileBlob(f: FileObj): Blob {
    Blob(FileKind, EncodeFile(f))
  }

  // Members write below a home's label or below the shared root, the system anywhere.
  predicate MayWrite(who: Actors.Authority, path: Path) {
    who.OfSystem? || (path != [] && ((path[0] == HOME && |path| >= 3) || (path[0] == SHARED && |path| >= 2)))
  }

  // A path this commit may write and has not touched yet. Canonical names hold no separator, so
  // two joined paths are the same exactly if their segments are.
  function Claim(sc: Scene, who: Actors.Authority, d: Draft, path: Text): Option<(Path, Draft)> {
    match sc.segments(path)
    case None => None
    case Some(segments) =>
      if !MayWrite(who, segments) || segments in d.touched then None
      else Some((segments, d.(touched := d.touched + [segments])))
  }

  predicate MetaFits(meta: map<Text, Text>) {
    |meta| <= MAX_META_ENTRIES
        && forall key :: key in meta ==> |key| <= MAX_META_KEY_BYTES && |meta[key]| <= MAX_META_VALUE_BYTES
  }

  function ParseAll(texts: seq<Text>): Option<seq<Id>> {
    if texts == [] then Some([])
    else
      match (FromHex32(texts[0]), ParseAll(texts[1..]))
      case (Some(id), Some(rest)) => Some([id] + rest)
      case _ => None
  }

  // Size and chunk count must go together, and every digest be hex.
  function ParseChunks(size: nat, chunks: seq<Text>): Option<seq<Id>> {
    if |chunks| > MAX_CHUNKS_PER_FILE || size >= Chunks.U64_END || !Chunks.VerifyFileShape(size, |chunks|) then None
    else ParseAll(chunks)
  }

  // A file's object is staged, its chunks are noted, and its entry is put at the path.
  function PlanEntry(sc: Scene, d: Draft, path: Path, kind: EntryKind, exec: bool, f: FileObj): Draft {
    var staged := StageObject(sc, d, FileBlob(f));
    staged.(references := staged.references + f.chunks,
            ops := staged.ops + [Put(path, TreeEntry(kind, sc.env.hash(FileBlob(f)), exec, f.size))])
  }

  function PlanInline(sc: Scene, d: Draft, path: Path, kind: EntryKind, exec: bool, meta: map<Text, Text>, size: nat,
          pieces: seq<Text>): Draft {
    PlanEntry(sc, StageAll(sc, d, ChunkBlobs(pieces)), path, kind, exec,
        FileObj(size, HashesOf(sc.env.hash, ChunkBlobs(pieces)), meta))
  }

  function PlanFile(sc: Scene, d: Draft, path: Path, exec: bool, meta: map<Text, Text>,
          content: Content): Option<Draft> {
    match content
    case Inline(None) => None
    case Inline(Some(bytes)) =>
      if d.inline + |bytes| > MAX_INLINE_COMMIT_BYTES then None
      else Some(PlanInline(sc, d.(inline := d.inline + |bytes|), path, File, exec, meta, |bytes|, Chunks.Cut(bytes)))
    case ByChunks(size, chunks) =>
      match ParseChunks(size, chunks)
      case None => None
      case Some(ids) => Some(PlanEntry(sc, d.(checks := d.checks + [(size, ids)]), path, File, exec,
          FileObj(size, ids, meta)))
  }

  function PlanChange(sc: Scene, who: Actors.Authority, d: Draft, change: Change): Option<Draft> {
    match change
    case PutFile(path, exec, meta, content) =>
      (match Claim(sc, who, d, path)
       case None => None
       case Some((segments, claimed)) => if !MetaFits(meta) then None
           else PlanFile(sc, claimed, segments, exec, meta, content))
    case MakeDirectory(path) =>
      (match Claim(sc, who, d, path)
       case None => None
       case Some((segments, claimed)) => Some(claimed.(ops := claimed.ops + [Mkdir(segments)])))
    case RemovePath(path) =>
      (match Claim(sc, who, d, path)
       case None => None
       case Some((segments, claimed)) => Some(claimed.(ops := claimed.ops + [Rm(segments)])))
    case MovePath(source, target) =>
      (match Claim(sc, who, d, source)
       case None => None
       case Some((from, claimed)) =>
         match Claim(sc, who, claimed, target)
         case None => None
         case Some((to, both)) => Some(both.(ops := both.ops + [Mv(from, to)])))
    case PutSymlink(path, target) =>
      match Claim(sc, who, d, path)
      case None => None
      case Some((segments, claimed)) =>
        if |target| > MAX_SYMLINK_TARGET_BYTES then None
        else Some(PlanInline(sc, claimed, segments, Symlink, false, map[], |target|, [target]))
  }

  function PlanAll(sc: Scene, who: Actors.Authority, changes: seq<Change>): Option<Draft> {
    if changes == [] then Some(NOTHING_YET)
    else
      match PlanAll(sc, who, changes[..|changes| - 1])
      case None => None
      case Some(d) => PlanChange(sc, who, d, changes[|changes| - 1])
  }

  // ---- checking --------------------------------------------------------------------------------------

  // How long a referenced chunk is, by what every node knows alike: the staging table and this
  // block's objects. Outer None where the digest is no chunk, inner None where it is not known.
  function ChunkStat(refs: Refs, block: Block, d: Draft, id: Id): Option<Option<nat>> {
    if id in refs.staging then Some(Some(refs.staging[id].len))
    else if id in block.index then if block.index[id].0 == ChunkKind then Some(Some(block.index[id].1)) else None
    else if id in d.staged then if d.staged[id].0 == ChunkKind then Some(Some(d.staged[id].1)) else None
    else Some(None)
  }

  predicate Available(refs: Refs, block: Block, d: Draft, size: nat, count: nat, index: nat, id: Id) {
    match ChunkStat(refs, block, d, id)
    case Some(Some(len)) => size < Chunks.U64_END && len < Chunks.U64_END
        && Chunks.VerifyChunkLenAt(size, count, index, len)
    case _ => false
  }

  predicate AllAvailable(refs: Refs, block: Block, d: Draft) {
    forall k, i :: 0 <= k < |d.checks| && 0 <= i < |d.checks[k].1| ==>
      Available(refs, block, d, d.checks[k].0, |d.checks[k].1|, i, d.checks[k].1[i])
  }

  // The tree a snapshot commits; no snapshot is the empty tree. None where it cannot be resolved.
  function BaseNode(env: Env, odb: Odb, refs: Refs, base: Option<Text>): Option<Node> {
    match base
    case None => Some(Made(map[]))
    case Some(hex) =>
      match FromHex32(hex)
      case None => None
      case Some(id) =>
        if ContainsSnapshot(env, refs, id) != Some(true) then None
        else SnapshotNode(odb, Some(id))
  }

  function SnapshotNode(odb: Odb, snapshot: Option<Id>): Option<Node> {
    match snapshot
    case None => Some(Made(map[]))
    case Some(id) =>
      match RootOf(odb, id)
      case None => None
      case Some(root) => Some(DirRef(root))
  }

  // `entry_at`: the root itself is no entry.
  function EntryAt(odb: Odb, tree: Node, path: Path): Look {
    if path == [] then Absent else LookAt(odb, tree, path)
  }

  // Each touched path is byte for byte the same in the base and in the head.
  predicate Unmoved(odb: Odb, base: Node, head: Node, touched: seq<Path>) {
    forall i :: 0 <= i < |touched| ==>
      !EntryAt(odb, base, touched[i]).Broken? && EntryAt(odb, base, touched[i]) == EntryAt(odb, head, touched[i])
  }

  // ---- building --------------------------------------------------------------------------------------

  const EMPTY_DIR: Blob := DirBlob(map[])

  // The new root tree and the objects it adds; an empty file system still has a root.
  function BuildRoot(sc: Scene, d: Draft, edited: Node): Option<(Id, seq<Blob>)> {
    if edited == Made(map[]) then Some((sc.env.hash(EMPTY_DIR), StageObject(sc, d, EMPTY_DIR).objects[|d.objects|..]))
    else
      match Build(sc.env.hash, edited)
      case None => None
      case Some((entry, blobs)) => Some((entry.id, blobs))
  }

  datatype Header = Header(who: Actors.Authority, height: nat, time: nat, message: Text)

  function SnapshotBlob(h: Header, root: Id, parent: Option<Id>): Blob {
    Blob(SnapshotKind, EncodeSnapshot(SnapshotObj(root, parent, h.who.Actor(), h.time, h.height, h.message)))
  }

  // Everything a commit has settled once it is accepted.
  datatype Outcome = Outcome(draft: Draft, base: Node, head: Node, edited: Node, root: Id, built: seq<Blob>,
      snapshot: Blob)

  function Decide(sc: Scene, h: Header, base: Option<Text>, changes: seq<Change>): Option<Outcome> {
    var refs := Sweep(sc.block.refs, h.height);
    var odb := ViewOf(sc);
    if |h.message| > MAX_MESSAGE_BYTES || changes == [] || |changes| > MAX_CHANGES_PER_COMMIT then None
    else
      match (BaseNode(sc.env, odb, refs, base), SnapshotNode(odb, refs.head), PlanAll(sc, h.who, changes))
      case (Some(from), Some(head), Some(d)) =>
        if !AllAvailable(refs, sc.block, d) || !Unmoved(odb, from, head, d.touched) then None
        else
          (match EditAll(odb, head, d.ops)
           case None => None
           case Some(edited) =>
             match BuildRoot(sc, d, edited)
             case None => None
             case Some((root, built)) =>
               Some(Outcome(d, from, head, edited, root, built, SnapshotBlob(h, root, refs.head))))
      case _ => None
  }

  function PlanOf(sc: Scene, o: Outcome): Plan {
    Plan(sc.env.hash(o.snapshot), o.draft.references, o.draft.objects + o.built + [o.snapshot])
  }

  // ---- what the plan is ------------------------------------------------------------------------------

  function SegmentsOf(sc: Scene, path: Text): Path {
    if sc.segments(path).Some? then sc.segments(path).value else []
  }

  // The file object an inline or referenced content amounts to.
  function FileFor(sc: Scene, meta: map<Text, Text>, content: Content): FileObj {
    match content
    case Inline(Some(bytes)) => FileObj(|bytes|, HashesOf(sc.env.hash, ChunkBlobs(Chunks.Cut(bytes))), meta)
    case ByChunks(size, chunks) => FileObj(size, if ParseAll(chunks).Some? then ParseAll(chunks).value else [], meta)
    case Inline(None) => FileObj(0, [], meta)
  }

  function LinkFor(sc: Scene, target: Text): FileObj {
    FileObj(|target|, HashesOf(sc.env.hash, ChunkBlobs([target])), map[])
  }

  function EntryFor(sc: Scene, kind: EntryKind, exec: bool, f: FileObj): TreeEntry {
    TreeEntry(kind, sc.env.hash(FileBlob(f)), exec, f.size)
  }

  // What a change asks of the tree.
  function OpOf(sc: Scene, change: Change): EditOp {
    match change
    case PutFile(path, exec, meta, content) => Put(SegmentsOf(sc, path),
        EntryFor(sc, File, exec, FileFor(sc, meta, content)))
    case MakeDirectory(path) => Mkdir(SegmentsOf(sc, path))
    case RemovePath(path) => Rm(SegmentsOf(sc, path))
    case MovePath(source, target) => Mv(SegmentsOf(sc, source), SegmentsOf(sc, target))
    case PutSymlink(path, target) => Put(SegmentsOf(sc, path), EntryFor(sc, Symlink, false, LinkFor(sc, target)))
  }

  function OpsOf(sc: Scene, changes: seq<Change>): (ops: seq<EditOp>)
    ensures |ops| == |changes| && forall i :: 0 <= i < |changes| ==> ops[i] == OpOf(sc, changes[i])
  {
    seq(|changes|, i requires 0 <= i < |changes| => OpOf(sc, changes[i]))
  }

  function AllTouched(ops: seq<EditOp>): seq<Path> {
    if ops == [] then [] else AllTouched(ops[..|ops| - 1]) + Touched(ops[|ops| - 1])
  }

  predicate AllDistinct(paths: seq<Path>) {
    forall i, j :: 0 <= i < j < |paths| ==> paths[i] != paths[j]
  }

  predicate AllMayWrite(who: Actors.Authority, paths: seq<Path>) {
    forall i :: 0 <= i < |paths| ==> MayWrite(who, paths[i])
  }

  lemma StagedAlike(sc: Scene, d: Draft, blob: Blob)
    ensures var after := StageObject(sc, d, blob);
      after == d.(objects := after.objects, staged := after.staged)
  {
  }

  lemma {:induction false} StagedAllAlike(sc: Scene, d: Draft, blobs: seq<Blob>)
    ensures var after := StageAll(sc, d, blobs);
      after == d.(objects := after.objects, staged := after.staged)
    decreases |blobs|
  {
    if blobs != [] {
      StagedAllAlike(sc, d, blobs[..|blobs| - 1]);
      StagedAlike(sc, StageAll(sc, d, blobs[..|blobs| - 1]), blobs[|blobs| - 1]);
    }
  }

  lemma PlanOneIs(sc: Scene, who: Actors.Authority, d: Draft, change: Change)
    requires PlanChange(sc, who, d, change).Some?
    ensures var after := PlanChange(sc, who, d, change).value;
      && after.ops == d.ops + [OpOf(sc, change)] && after.touched == d.touched + Touched(OpOf(sc, change))
      && (forall p :: p in Touched(OpOf(sc, change)) ==> p !in d.touched && MayWrite(who, p))
      && AllDistinct(Touched(OpOf(sc, change)))
  {
    hide StageObject, StageAll, MayWrite, MetaFits, ParseAll, EncodeFile, HashesOf, ChunkBlobs;
    if change.PutFile? {
      var claimed := Claim(sc, who, d, change.path).value;
      FilePlanIs(sc, claimed.1, claimed.0, change.exec, change.meta, change.content);
    } else if change.PutSymlink? {
      var claimed := Claim(sc, who, d, change.path).value;
      StagedAllAlike(sc, claimed.1, ChunkBlobs([change.target]));
      StagedAlike(sc, StageAll(sc, claimed.1, ChunkBlobs([change.target])), FileBlob(LinkFor(sc, change.target)));
    }
  }

  lemma FilePlanIs(sc: Scene, d: Draft, path: Path, exec: bool, meta: map<Text, Text>, content: Content)
    requires PlanFile(sc, d, path, exec, meta, content).Some?
    ensures var after := PlanFile(sc, d, path, exec, meta, content).value;
      && after.touched == d.touched
        && after.ops == d.ops + [Put(path, EntryFor(sc, File, exec, FileFor(sc, meta, content)))]
  {
    hide StageObject, StageAll, ParseAll, EncodeFile, HashesOf, ChunkBlobs;
    var f := FileFor(sc, meta, content);
    match content
    case Inline(Some(bytes)) =>
      var blobs, begun := ChunkBlobs(Chunks.Cut(bytes)), d.(inline := d.inline + |bytes|);
      StagedAllAlike(sc, begun, blobs);
      StagedAlike(sc, StageAll(sc, begun, blobs), FileBlob(f));
    case ByChunks(size, chunks) =>
      StagedAlike(sc, d.(checks := d.checks + [(size, f.chunks)]), FileBlob(f));
    case Inline(None) =>
  }

  // The plan is one edit per change, over paths the sender may write, no two of them the same.
  lemma {:induction false} PlanIs(sc: Scene, who: Actors.Authority, changes: seq<Change>)
    requires PlanAll(sc, who, changes).Some?
    ensures var d := PlanAll(sc, who, changes).value;
      && d.ops == OpsOf(sc, changes) && d.touched == AllTouched(OpsOf(sc, changes))
      && AllDistinct(d.touched) && AllMayWrite(who, d.touched)
    decreases |changes|
  {
    hide PlanChange, OpOf, MayWrite;
    if changes != [] {
      var front, last := changes[..|changes| - 1], changes[|changes| - 1];
      PlanIs(sc, who, front);
      var d := PlanAll(sc, who, front).value;
      PlanOneIs(sc, who, d, last);
      assert OpsOf(sc, changes)[..|changes| - 1] == OpsOf(sc, front);
      assert OpsOf(sc, changes) == OpsOf(sc, front) + [OpOf(sc, last)];
      DistinctMore(d.touched, Touched(OpOf(sc, last)));
      MayWriteMore(who, d.touched, Touched(OpOf(sc, last)));
    }
  }

  lemma DistinctMore(paths: seq<Path>, more: seq<Path>)
    requires AllDistinct(paths) && AllDistinct(more) && forall p :: p in more ==> p !in paths
    ensures AllDistinct(paths + more)
  {
    forall i, j | 0 <= i < j < |paths + more|
      ensures (paths + more)[i] != (paths + more)[j]
    {
      if i < |paths| <= j { assert more[j - |paths|] in more && paths[i] in paths; }
    }
  }

  lemma MayWriteMore(who: Actors.Authority, paths: seq<Path>, more: seq<Path>)
    requires AllMayWrite(who, paths) && forall p :: p in more ==> MayWrite(who, p)
    ensures AllMayWrite(who, paths + more)
  {
    hide MayWrite;
    forall i | 0 <= i < |paths + more|
      ensures MayWrite(who, (paths + more)[i])
    {
      if i >= |paths| { assert more[i - |paths|] in more; }
    }
  }

  // ---- what the files of a plan rest on --------------------------------------------------------------

  // What the code around a commit guarantees: hashes are 32 bytes and confuse no two known objects,
  // objects sit under their hashes, the block's index tells the truth, canonical names are short.
  ghost predicate SceneTrue(sc: Scene) {
    && TreeEdits.Typed(sc.env.hash) && Hashed(sc.env.hash, ViewOf(sc))
    && CollisionFree(sc.env.hash, sc.known) && EMPTY_DIR in sc.known
      && (forall id :: id in ViewOf(sc) ==> ViewOf(sc)[id] in sc.known)
    && (forall id :: id in sc.committed ==> id in ViewOf(sc))
    && (forall id :: id in sc.block.index ==>
          id in ViewOf(sc) && ViewOf(sc)[id].kind == sc.block.index[id].0
              && |ViewOf(sc)[id].body| == sc.block.index[id].1)
    && (forall path :: sc.segments(path).Some? ==> PathFits(sc.segments(path).value))
  }

  // Metadata is UTF-8, and the objects the change amounts to are known ones.
  ghost predicate TypedChange(sc: Scene, change: Change) {
    match change
    case PutFile(_, _, meta, content) =>
      && (forall key :: key in meta ==> Utf8(key) && Utf8(meta[key]))
        && FileBlob(FileFor(sc, meta, content)) in sc.known
      && (content.Inline? && content.bytes.Some? ==> AllKnown(sc, ChunkBlobs(Chunks.Cut(content.bytes.value))))
    case PutSymlink(_, target) => FileBlob(LinkFor(sc, target)) in sc.known && AllKnown(sc, ChunkBlobs([target]))
    case _ => true
  }

  ghost predicate AllTyped(sc: Scene, changes: seq<Change>) {
    forall i :: 0 <= i < |changes| ==> TypedChange(sc, changes[i])
  }

  ghost predicate AllKnown(sc: Scene, blobs: seq<Blob>) {
    forall b :: b in blobs ==> b in sc.known
  }

  // `staged` lists the draft's own objects and nothing else.
  ghost predicate DraftTrue(sc: Scene, d: Draft) {
    && (forall b :: b in d.objects ==>
          b in sc.known && sc.env.hash(b) in d.staged && d.staged[sc.env.hash(b)] == (b.kind, |b.body|))
    && (forall id :: id in d.staged ==> exists b :: b in d.objects && sc.env.hash(b) == id)
  }

  ghost predicate Has(sc: Scene, d: Draft, blob: Blob) {
    blob in d.objects || (sc.env.hash(blob) in ViewOf(sc) && ViewOf(sc)[sc.env.hash(blob)] == blob)
  }

  // A later draft of the same plan has all an earlier one has.
  ghost predicate Follows(d: Draft, later: Draft) {
    && (forall b :: b in d.objects ==> b in later.objects)
    && (forall c :: c in d.checks ==> c in later.checks)
  }

  lemma StageHolds(sc: Scene, d: Draft, blob: Blob)
    requires SceneTrue(sc) && DraftTrue(sc, d) && blob in sc.known
    ensures DraftTrue(sc, StageObject(sc, d, blob)) && Has(sc, StageObject(sc, d, blob), blob)
        && Follows(d, StageObject(sc, d, blob))
  {
    hide ViewOf, PathFits;
    var id := sc.env.hash(blob);
    if id in d.staged {
      var b :| b in d.objects && sc.env.hash(b) == id;
      assert b == blob;
    } else if id in sc.block.index || id in sc.committed {
      assert sc.env.hash(ViewOf(sc)[id]) == id;
    } else {
      StageNew(sc, d, blob);
    }
  }

  lemma StageNew(sc: Scene, d: Draft, blob: Blob)
    requires DraftTrue(sc, d) && sc.env.hash(blob) !in d.staged && blob in sc.known
    ensures var after := d.(objects := d.objects + [blob],
        staged := d.staged[sc.env.hash(blob) := (blob.kind, |blob.body|)]);
      DraftTrue(sc, after) && Has(sc, after, blob) && Follows(d, after)
  {
    hide ViewOf;
    var id := sc.env.hash(blob);
    var after := d.(objects := d.objects + [blob], staged := d.staged[id := (blob.kind, |blob.body|)]);
    assert blob in after.objects;
    forall other | other in after.staged
      ensures exists b :: b in after.objects && sc.env.hash(b) == other
    {
      if other != id {
        var b :| b in d.objects && sc.env.hash(b) == other;
        assert b in after.objects;
      }
    }
  }

  lemma {:induction false} StageAllHolds(sc: Scene, d: Draft, blobs: seq<Blob>)
    requires SceneTrue(sc) && DraftTrue(sc, d) && AllKnown(sc, blobs)
    ensures var after := StageAll(sc, d, blobs);
      DraftTrue(sc, after) && Follows(d, after) && forall b :: b in blobs ==> Has(sc, after, b)
    decreases |blobs|
  {
    hide SceneTrue, DraftTrue, StageObject, ViewOf;
    if blobs != [] {
      var front, last := blobs[..|blobs| - 1], blobs[|blobs| - 1];
      StageAllHolds(sc, d, front);
      StageHolds(sc, StageAll(sc, d, front), last);
      forall b | b in blobs
        ensures Has(sc, StageAll(sc, d, blobs), b)
      {
        if b in front { assert Has(sc, StageAll(sc, d, front), b); } else { assert b == last; }
      }
    }
  }

  predicate WellCut(size: nat, pieces: seq<Text>) {
    size < Chunks.U64_END
    && forall i :: 0 <= i < |pieces| ==>
         |pieces[i]| < Chunks.U64_END && (size > 0 ==> Chunks.VerifyChunkLenAt(size, |pieces|, i, |pieces[i]|))
  }

  // Every chunk is among the pieces, each of the length its place demands.
  ghost predicate Pieced(sc: Scene, d: Draft, f: FileObj, pieces: seq<Text>) {
    && f.chunks == HashesOf(sc.env.hash, ChunkBlobs(pieces)) && WellCut(f.size, pieces)
    && forall i :: 0 <= i < |pieces| ==> Has(sc, d, Blob(ChunkKind, pieces[i]))
  }

  predicate FileRight(f: FileObj) {
    FileFits(f) && f.size < Chunks.U64_END && (f.size > 0 ==> Chunks.VerifyFileShape(f.size, |f.chunks|))
  }

  ghost predicate FileReady(sc: Scene, d: Draft, f: FileObj) {
    && FileRight(f) && Has(sc, d, FileBlob(f))
    && ((f.size, f.chunks) in d.checks || exists pieces :: Pieced(sc, d, f, pieces))
  }

  ghost predicate OpReady(sc: Scene, d: Draft, op: EditOp) {
    op.Put? ==> op.entry.kind != Dir && exists f ::
        FileReady(sc, d, f) && op.entry.id == sc.env.hash(FileBlob(f)) && op.entry.size == f.size
  }

  lemma FileStaysReady(sc: Scene, d: Draft, later: Draft, f: FileObj)
    requires FileReady(sc, d, f) && Follows(d, later)
    ensures FileReady(sc, later, f)
  {
    hide FileFits, EncodeFile, ViewOf;
    if (f.size, f.chunks) !in d.checks {
      var pieces :| Pieced(sc, d, f, pieces);
      assert Pieced(sc, later, f, pieces);
    }
  }

  lemma OpStaysReady(sc: Scene, d: Draft, later: Draft, op: EditOp)
    requires OpReady(sc, d, op) && Follows(d, later)
    ensures OpReady(sc, later, op)
  {
    hide FileReady, EncodeFile, Follows;
    if op.Put? {
      var f :| FileReady(sc, d, f) && op.entry.id == sc.env.hash(FileBlob(f)) && op.entry.size == f.size;
      FileStaysReady(sc, d, later, f);
    }
  }

  lemma PlanEntryReady(sc: Scene, d: Draft, path: Path, kind: EntryKind, exec: bool, f: FileObj)
    requires SceneTrue(sc) && DraftTrue(sc, d) && kind != Dir && FileBlob(f) in sc.known
    requires FileRight(f)
    requires (f.size, f.chunks) in d.checks || exists pieces :: Pieced(sc, d, f, pieces)
    ensures var after := PlanEntry(sc, d, path, kind, exec, f);
      && DraftTrue(sc, after) && Follows(d, after) && after.ops == d.ops + [Put(path, EntryFor(sc, kind, exec, f))]
      && OpReady(sc, after, Put(path, EntryFor(sc, kind, exec, f)))
  {
    hide FileFits, EncodeFile, SceneTrue, ViewOf, StageObject;
    var staged, after := StageObject(sc, d, FileBlob(f)), PlanEntry(sc, d, path, kind, exec, f);
    StageHolds(sc, d, FileBlob(f));
    StagedAlike(sc, d, FileBlob(f));
    assert Has(sc, after, FileBlob(f));
    if (f.size, f.chunks) !in d.checks {
      var pieces :| Pieced(sc, d, f, pieces);
      assert Pieced(sc, after, f, pieces);
    }
    assert FileReady(sc, after, f);
  }

  function InlineFile(sc: Scene, meta: map<Text, Text>, size: nat, pieces: seq<Text>): FileObj {
    FileObj(size, HashesOf(sc.env.hash, ChunkBlobs(pieces)), meta)
  }

  lemma PlanInlineReady(sc: Scene, d: Draft, path: Path, kind: EntryKind, exec: bool, meta: map<Text, Text>, size: nat,
          pieces: seq<Text>)
    requires SceneTrue(sc) && DraftTrue(sc, d) && kind != Dir && AllKnown(sc, ChunkBlobs(pieces))
    requires FileBlob(InlineFile(sc, meta, size, pieces)) in sc.known
    requires FileRight(InlineFile(sc, meta, size, pieces)) && WellCut(size, pieces)
    ensures var after := PlanInline(sc, d, path, kind, exec, meta, size, pieces);
      var op := Put(path, EntryFor(sc, kind, exec, InlineFile(sc, meta, size, pieces)));
      && DraftTrue(sc, after) && Follows(d, after) && after.ops == d.ops + [op] && OpReady(sc, after, op)
  {
    hide FileFits, EncodeFile, SceneTrue, ViewOf, StageObject, StageAll, DraftTrue, Has, AllKnown, FileBlob, OpReady,
      WellCut, FileRight;
    var blobs := ChunkBlobs(pieces);
    var begun, f := StageAll(sc, d, blobs), InlineFile(sc, meta, size, pieces);
    StageAllHolds(sc, d, blobs);
    StagedAllAlike(sc, d, blobs);
    forall i | 0 <= i < |pieces|
      ensures Has(sc, begun, Blob(ChunkKind, pieces[i]))
    {
      assert blobs[i] in blobs;
    }
    assert Pieced(sc, begun, f, pieces);
    PlanEntryReady(sc, begun, path, kind, exec, f);
  }

  lemma FitsIf(size: nat, chunks: seq<Id>, meta: map<Text, Text>)
    requires size < Chunks.U64_END && |chunks| <= MAX_CHUNKS_PER_FILE
        && forall i :: 0 <= i < |chunks| ==> IsId(chunks[i])
    requires MetaFits(meta) && forall key :: key in meta ==> Utf8(key) && Utf8(meta[key])
    ensures FileFits(FileObj(size, chunks, meta))
  {
    hide Utf8, Range;
    Wide8();
  }

  lemma InlineFits(hash: Hash, meta: map<Text, Text>, bytes: Text)
    requires TreeEdits.Typed(hash) && MetaFits(meta) && |bytes| <= Chunks.CHUNK_SIZE
        && forall key :: key in meta ==> Utf8(key) && Utf8(meta[key])
    ensures FileFits(FileObj(|bytes|, HashesOf(hash, ChunkBlobs(Chunks.Cut(bytes))), meta))
  {
    hide Utf8, Chunks.Cut, HashesOf, ChunkBlobs, FileFits, MetaFits;
    Chunks.CutIs(bytes);
    FitsIf(|bytes|, HashesOf(hash, ChunkBlobs(Chunks.Cut(bytes))), meta);
  }

  lemma SceneTyped(sc: Scene)
    requires SceneTrue(sc)
    ensures TreeEdits.Typed(sc.env.hash)
  {
    hide ViewOf, PathFits;
  }

  lemma Wide8()
    ensures Range(8) == Chunks.U64_END
  {
    assert Range(2) == 0x1_0000;
    assert Range(4) == 0x1_0000 * 0x1_0000;
    assert Range(6) == 0x1_0000 * Range(4);
  }

  lemma {:induction false} ParsedIds(texts: seq<Text>)
    requires ParseAll(texts).Some?
    ensures |ParseAll(texts).value| == |texts| && forall i :: 0 <= i < |texts| ==> IsId(ParseAll(texts).value[i])
    decreases |texts|
  {
    hide FromHex32;
    if texts != [] {
      ParsedIds(texts[1..]);
      HexLength(texts[0]);
    }
  }

  lemma HexLength(hex: Text)
    ensures FromHex32(hex).Some? ==> IsId(FromHex32(hex).value)
  {
    if |hex| == 64 && FromHexPairs(hex).Some? { HexPairsRoundTrip(FromHexPairs(hex).value, hex); }
  }

  lemma ParsedFits(size: nat, chunks: seq<Text>, meta: map<Text, Text>)
    requires ParseChunks(size, chunks).Some? && MetaFits(meta)
        && forall key :: key in meta ==> Utf8(key) && Utf8(meta[key])
    ensures FileFits(FileObj(size, ParseChunks(size, chunks).value, meta))
        && |ParseChunks(size, chunks).value| == |chunks|
  {
    hide Utf8, ParseAll;
    Wide8();
    ParsedIds(chunks);
  }

  lemma PlanFileReady(sc: Scene, d: Draft, name: Text, path: Path, exec: bool, meta: map<Text, Text>, content: Content)
    requires SceneTrue(sc) && DraftTrue(sc, d) && MetaFits(meta) && TypedChange(sc, PutFile(name, exec, meta, content))
    requires PlanFile(sc, d, path, exec, meta, content).Some?
    ensures var after := PlanFile(sc, d, path, exec, meta, content).value;
      DraftTrue(sc, after) && Follows(d, after) && after.ops != [] && after.ops[..|after.ops| - 1] == d.ops
          && OpReady(sc, after, after.ops[|after.ops| - 1])
  {
    hide SceneTrue, FileFits, EncodeFile, StageObject, StageAll, ViewOf, ParseChunks, MetaFits, Has, Utf8, OpReady,
      PlanEntry, PlanInline, FileReady;
    match content
    case Inline(Some(bytes)) =>
      SceneTyped(sc);
      InlineFits(sc.env.hash, meta, bytes);
      Chunks.CutPassesTheRules(bytes);
      PlanInlineReady(sc, d.(inline := d.inline + |bytes|), path, File, exec, meta, |bytes|, Chunks.Cut(bytes));
    case ByChunks(size, chunks) =>
      ParsedIs(size, chunks);
      ParsedFits(size, chunks, meta);
      ParsedShape(size, chunks);
      var noted := d.(checks := d.checks + [(size, ParseChunks(size, chunks).value)]);
      assert (size, ParseChunks(size, chunks).value) in noted.checks;
      PlanEntryReady(sc, noted, path, File, exec, FileObj(size, ParseChunks(size, chunks).value, meta));
    case Inline(None) =>
  }

  lemma ParsedIs(size: nat, chunks: seq<Text>)
    requires ParseChunks(size, chunks).Some?
    ensures ParseAll(chunks) == ParseChunks(size, chunks)
  {
    hide ParseAll;
  }

  lemma ParsedShape(size: nat, chunks: seq<Text>)
    requires ParseChunks(size, chunks).Some?
    ensures size < Chunks.U64_END && Chunks.VerifyFileShape(size, |chunks|)
  {
    hide ParseAll;
  }

  lemma LinkReady(sc: Scene, d: Draft, path: Path, target: Text)
    requires SceneTrue(sc) && DraftTrue(sc, d) && |target| <= MAX_SYMLINK_TARGET_BYTES
    requires FileBlob(LinkFor(sc, target)) in sc.known && AllKnown(sc, ChunkBlobs([target]))
    ensures var after := PlanInline(sc, d, path, Symlink, false, map[], |target|, [target]);
      DraftTrue(sc, after) && Follows(d, after) && after.ops != [] && after.ops[..|after.ops| - 1] == d.ops
          && OpReady(sc, after, after.ops[|after.ops| - 1])
  {
    hide FileBlob, StageObject, StageAll, SceneTrue, Has, Utf8, OpReady, PlanEntry, PlanInline, FileReady, DraftTrue,
      AllKnown, Follows, FileFits;
    SceneTyped(sc);
    FitsIf(|target|, HashesOf(sc.env.hash, ChunkBlobs([target])), map[]);
    PlanInlineReady(sc, d, path, Symlink, false, map[], |target|, [target]);
  }

  lemma SameObjects(sc: Scene, d: Draft, later: Draft)
    requires DraftTrue(sc, d) && later.objects == d.objects && later.staged == d.staged && later.checks == d.checks
    ensures DraftTrue(sc, later) && Follows(d, later)
  {
  }

  lemma ClaimIs(sc: Scene, who: Actors.Authority, d: Draft, path: Text)
    requires DraftTrue(sc, d) && Claim(sc, who, d, path).Some?
    ensures var (segments, claimed) := Claim(sc, who, d, path).value;
      DraftTrue(sc, claimed) && Follows(d, claimed) && claimed == d.(touched := claimed.touched)
  {
    hide DraftTrue, Follows, MayWrite;
    SameObjects(sc, d, Claim(sc, who, d, path).value.1);
  }

  lemma PlanOneReady(sc: Scene, who: Actors.Authority, d: Draft, change: Change)
    requires SceneTrue(sc) && DraftTrue(sc, d) && TypedChange(sc, change)
    requires PlanChange(sc, who, d, change).Some?
    ensures var after := PlanChange(sc, who, d, change).value;
      DraftTrue(sc, after) && Follows(d, after) && after.ops != [] && after.ops[..|after.ops| - 1] == d.ops
          && OpReady(sc, after, after.ops[|after.ops| - 1])
  {
    hide SceneTrue, PlanFile, PlanInline, MetaFits, Utf8, FileReady, DraftTrue, Claim, AllKnown, FileBlob, HashesOf,
      ChunkBlobs, Chunks.Cut;
    var path := if change.MovePath? then change.source else change.path;
    ClaimIs(sc, who, d, path);
    var claimed := Claim(sc, who, d, path).value;
    match change
    case PutFile(_, exec, meta, content) => PlanFileReady(sc, claimed.1, path, claimed.0, exec, meta, content);
    case PutSymlink(_, target) => LinkReady(sc, claimed.1, claimed.0, target);
    case MovePath(_, target) =>
      ClaimIs(sc, who, claimed.1, target);
      SameObjects(sc, claimed.1, PlanChange(sc, who, d, change).value);
    case _ => SameObjects(sc, claimed.1, PlanChange(sc, who, d, change).value);
  }

  lemma {:induction false} PlanReady(sc: Scene, who: Actors.Authority, changes: seq<Change>)
    requires SceneTrue(sc) && PlanAll(sc, who, changes).Some?
    requires AllTyped(sc, changes)
    ensures var d := PlanAll(sc, who, changes).value;
      DraftTrue(sc, d) && forall i :: 0 <= i < |d.ops| ==> OpReady(sc, d, d.ops[i])
    decreases |changes|
  {
    hide SceneTrue, PlanChange, OpReady, TypedChange;
    if changes != [] {
      var front, last := changes[..|changes| - 1], changes[|changes| - 1];
      PlanReady(sc, who, front);
      var d, after := PlanAll(sc, who, front).value, PlanAll(sc, who, changes).value;
      hide DraftTrue, Follows;
      PlanOneReady(sc, who, d, last);
      forall i | 0 <= i < |after.ops|
        ensures OpReady(sc, after, after.ops[i])
      {
        if i < |d.ops| {
          assert after.ops[i] == d.ops[i];
          OpStaysReady(sc, d, after, d.ops[i]);
        }
      }
    }
  }

  // ---- an accepted commit, once its objects are at hand ------------------------------------------------

  predicate TypedHeader(h: Header) {
    h.who.Valid() && Actors.Typed(h.who.Actor()) && h.time < Range(8) && h.height < Range(8) && Utf8(h.message)
  }

  // The store now also holds what the commit brings.
  ghost predicate Lands(sc: Scene, o: Outcome, after: Odb) {
    Extends(ViewOf(sc), after) && Stores(sc.env.hash, after, PlanOf(sc, o).objects)
  }

  lemma StoredOne(hash: Hash, after: Odb, blobs: seq<Blob>, b: Blob)
    requires Stores(hash, after, blobs) && b in blobs
    ensures hash(b) in after && after[hash(b)] == b
  {
    var i :| 0 <= i < |blobs| && blobs[i] == b;
  }

  lemma HasLands(sc: Scene, o: Outcome, after: Odb, blob: Blob)
    requires Lands(sc, o, after) && Has(sc, o.draft, blob)
    ensures sc.env.hash(blob) in after && after[sc.env.hash(blob)] == blob
  {
    hide ViewOf;
    if blob in o.draft.objects { StoredOne(sc.env.hash, after, PlanOf(sc, o).objects, blob); }
    else { ExtendsAt(ViewOf(sc), after, sc.env.hash(blob)); }
  }

  lemma SceneIndex(sc: Scene, id: Id)
    requires SceneTrue(sc)
    ensures id in sc.block.index ==>
      id in ViewOf(sc) && ViewOf(sc)[id].kind == sc.block.index[id].0 && |ViewOf(sc)[id].body| == sc.block.index[id].1
  {
    hide ViewOf, PathFits, CollisionFree, Hashed;
  }

  // What the metadata says of a chunk is so.
  lemma ChunkFound(sc: Scene, o: Outcome, after: Odb, refs: Refs, size: nat, count: nat, index: nat, id: Id)
    requires SceneTrue(sc) && DraftTrue(sc, o.draft) && Lands(sc, o, after) && Entire(ViewOf(sc), sc.block.refs)
    requires forall d :: d in refs.staging ==> d in sc.block.refs.staging && refs.staging[d] == sc.block.refs.staging[d]
    requires Available(refs, sc.block, o.draft, size, count, index, id)
    ensures size < Chunks.U64_END && ChunkFits(after, size, count, index, id)
  {
    hide SceneTrue, ViewOf, Chunks.VerifyChunkLenAt, Extends, Stores, R.Sound, Entire;
    SceneIndex(sc, id);
    if id in refs.staging {
      StagedIsChunk(ViewOf(sc), sc.block.refs, id);
      ExtendsAt(ViewOf(sc), after, id);
    } else if id in sc.block.index {
      ExtendsAt(ViewOf(sc), after, id);
    } else {
      var b :| b in o.draft.objects && sc.env.hash(b) == id;
      StoredOne(sc.env.hash, after, PlanOf(sc, o).objects, b);
    }
  }

  lemma StagedIsChunk(odb: Odb, refs: Refs, id: Id)
    requires Entire(odb, refs) && id in refs.staging
    ensures id in odb && odb[id].kind == ChunkKind && |odb[id].body| == refs.staging[id].len
  {
    hide R.Reached, D.RootsOf, R.Ordinary, R.Catalog, R.Sound, View, FileReads;
    RootsAre(refs);
    R.ReachedIsLeast(View(odb), D.RootsOf(refs));
    assert Rooted(refs, R.Node(R.AsChunk, id));
    assert R.Node(R.AsChunk, id) in ReachedBy(odb, refs);
  }

  // Every file of the commit can be read to its end.
  lemma FileLands(sc: Scene, o: Outcome, after: Odb, refs: Refs, f: FileObj)
    requires SceneTrue(sc) && DraftTrue(sc, o.draft) && Lands(sc, o, after) && Entire(ViewOf(sc), sc.block.refs)
    requires forall d :: d in refs.staging ==> d in sc.block.refs.staging && refs.staging[d] == sc.block.refs.staging[d]
    requires AllAvailable(refs, sc.block, o.draft) && FileReady(sc, o.draft, f)
    ensures sc.env.hash(FileBlob(f)) in after && after[sc.env.hash(FileBlob(f))] == FileBlob(f) && FileReads(after, f)
  {
    hide SceneTrue, DraftTrue, Lands, Entire, Available, FileFits, EncodeFile, Has, ChunkFits;
    HasLands(sc, o, after, FileBlob(f));
    if (f.size, f.chunks) in o.draft.checks {
      var k :| 0 <= k < |o.draft.checks| && o.draft.checks[k] == (f.size, f.chunks);
      forall i | 0 <= i < |f.chunks|
        ensures ChunkFits(after, f.size, |f.chunks|, i, f.chunks[i])
      {
        assert Available(refs, sc.block, o.draft, o.draft.checks[k].0, |o.draft.checks[k].1|, i,
            o.draft.checks[k].1[i]);
        ChunkFound(sc, o, after, refs, f.size, |f.chunks|, i, f.chunks[i]);
      }
    } else {
      var pieces :| Pieced(sc, o.draft, f, pieces);
      forall i | 0 <= i < |f.chunks|
        ensures ChunkFits(after, f.size, |f.chunks|, i, f.chunks[i])
      {
        PieceLands(sc, o, after, f, pieces, i);
      }
    }
  }

  lemma PieceLands(sc: Scene, o: Outcome, after: Odb, f: FileObj, pieces: seq<Text>, i: nat)
    requires Lands(sc, o, after) && Pieced(sc, o.draft, f, pieces) && i < |pieces|
    ensures |f.chunks| == |pieces| && ChunkFits(after, f.size, |f.chunks|, i, f.chunks[i])
  {
    hide Lands, Has, Chunks.VerifyChunkLenAt;
    HasLands(sc, o, after, Blob(ChunkKind, pieces[i]));
  }

  lemma BlobDecodes(f: FileObj)
    requires FileFits(f)
    ensures DecodeFile(FileBlob(f).body) == Some(f)
  {
    hide FileFits, EncodeFile, DecodeFile;
    var t: TreeObj, s: SnapshotObj := TreeObj(map[]), SnapshotObj([], None, Actors.System, 0, 0, []);
    BodiesAreCanonical(FileBlob(f).body, f, t, s);
  }

  lemma SweepIsPart(refs: Refs, height: nat)
    ensures var swept := Sweep(refs, height).staging;
      forall d :: d in swept ==> d in refs.staging && swept[d] == refs.staging[d]
  {
  }

  // Every put of an accepted commit lands a file object that can be read.
  lemma PutLands(sc: Scene, h: Header, base: Option<Text>, changes: seq<Change>, o: Outcome, after: Odb, k: nat)
    requires SceneTrue(sc) && Entire(ViewOf(sc), sc.block.refs) && Decide(sc, h, base, changes) == Some(o)
        && Lands(sc, o, after)
    requires AllTyped(sc, changes)
    requires k < |o.draft.ops| && o.draft.ops[k].Put?
    ensures o.draft.ops[k].entry.kind != Dir && Holdable(o.draft.ops[k].entry)
    ensures Proper(after, EntryNode(o.draft.ops[k].entry))
  {
    hide SceneTrue, Entire, DraftTrue, Lands, FileReady, AllAvailable, Proper, ViewOf, Unmoved, EncodeFile, AllTyped,
      FileFits, BaseNode, SnapshotNode, BuildRoot, SnapshotBlob, EditAll;
    PlanReady(sc, h.who, changes);
    var e := o.draft.ops[k].entry;
    var f :| FileReady(sc, o.draft, f) && e.id == sc.env.hash(FileBlob(f)) && e.size == f.size;
    SweepIsPart(sc.block.refs, h.height);
    FileLands(sc, o, after, Sweep(sc.block.refs, h.height), f);
    ReadyFits(sc, o.draft, f);
    BlobDecodes(f);
    FileIsProper(after, e.id, f);
    SceneTyped(sc);
    Wide8();
  }

  lemma ReadyFits(sc: Scene, d: Draft, f: FileObj)
    requires FileReady(sc, d, f)
    ensures FileFits(f) && f.size < Chunks.U64_END
  {
    hide FileFits, EncodeFile, Pieced, Has;
  }

  // The tree of a snapshot in reach is good.
  lemma SnapshotIsGood(hash: Hash, odb: Odb, refs: Refs, after: Odb, snapshot: Option<Id>)
    requires Entire(odb, refs) && Hashed(hash, odb) && TreeEdits.Typed(hash) && SnapshotNode(odb, snapshot).Some?
    requires snapshot.Some? ==> R.Node(R.AsSnapshot, snapshot.value) in ReachedBy(odb, refs)
    ensures Good(SnapshotNode(odb, snapshot).value, Kept(odb, refs, after))
  {
    hide R.Reached, R.Children, R.Ordinary, R.Catalog, D.RootsOf, View, Proper, RootOf, R.Sound;
    if snapshot.Some? {
      var root := RootOf(odb, snapshot.value).value;
      R.ReachedIsLeast(View(odb), D.RootsOf(refs));
      SnapshotLeadsTo(odb, snapshot.value);
      var n := R.Node(R.AsTree, root);
      assert n in R.Children(View(odb), R.Node(R.AsSnapshot, snapshot.value));
      assert n in ReachedBy(odb, refs);
      RoleIsKind(odb, n);
      assert hash(odb[root]) == root;
      NothingIsSmall();
    }
  }

  lemma NothingIsSmall()
    ensures 0 < Range(8)
  {
    Wide8();
  }

  lemma OpIsGoodIf(op: EditOp, ok: TreeEntry -> bool)
    requires (forall p :: p in Touched(op) ==> PathFits(p)) && (op.Put? ==> ok(op.entry))
    ensures OpGood(op, ok)
  {
    hide PathFits;
  }

  lemma PutIsKept(odb: Odb, refs: Refs, after: Odb, entry: TreeEntry)
    requires Holdable(entry) && entry.kind != Dir && Proper(after, EntryNode(entry))
    ensures Kept(odb, refs, after)(entry)
  {
    hide Proper, ReachedBy, Holdable;
  }

  lemma OpsAreGood(sc: Scene, h: Header, base: Option<Text>, changes: seq<Change>, o: Outcome, after: Odb)
    requires SceneTrue(sc) && Entire(ViewOf(sc), sc.block.refs) && Decide(sc, h, base, changes) == Some(o)
        && Lands(sc, o, after)
    requires AllTyped(sc, changes)
    ensures forall k :: 0 <= k < |o.draft.ops| ==> OpGood(o.draft.ops[k], Kept(ViewOf(sc), sc.block.refs, after))
  {
    hide SceneTrue, Entire, Lands, ViewOf, Proper, AllTyped, Decide, PathFits, OpOf, Kept, Holdable,
      OpGood, Touched;
    DecidedPlan(sc, h, base, changes);
    PlanIs(sc, h.who, changes);
    forall k | 0 <= k < |o.draft.ops|
      ensures OpGood(o.draft.ops[k], Kept(ViewOf(sc), sc.block.refs, after))
    {
      OpPathsFit(sc, changes[k]);
      if o.draft.ops[k].Put? {
        PutLands(sc, h, base, changes, o, after, k);
        PutIsKept(ViewOf(sc), sc.block.refs, after, o.draft.ops[k].entry);
      }
      OpIsGoodIf(o.draft.ops[k], Kept(ViewOf(sc), sc.block.refs, after));
    }
  }

  // What an acceptance says of each step.
  lemma DecidedPlan(sc: Scene, h: Header, base: Option<Text>, changes: seq<Change>)
    requires Decide(sc, h, base, changes).Some?
    ensures var o := Decide(sc, h, base, changes).value;
      && PlanAll(sc, h.who, changes) == Some(o.draft) && changes != []
      && SnapshotNode(ViewOf(sc), sc.block.refs.head) == Some(o.head)
      && EditAll(ViewOf(sc), o.head, o.draft.ops) == Some(o.edited)
        && BuildRoot(sc, o.draft, o.edited) == Some((o.root, o.built))
  {
    hide PlanAll, ViewOf, EditAll, BuildRoot, BaseNode, SnapshotBlob, AllAvailable, Unmoved, SnapshotNode;
  }

  lemma EditsAreGood(sc: Scene, h: Header, base: Option<Text>, changes: seq<Change>, o: Outcome, after: Odb)
    requires SceneTrue(sc) && Entire(ViewOf(sc), sc.block.refs) && Decide(sc, h, base, changes) == Some(o)
        && Lands(sc, o, after)
    requires AllTyped(sc, changes)
    ensures Good(o.edited, Kept(ViewOf(sc), sc.block.refs, after))
  {
    hide SceneTrue, Entire, Lands, ViewOf, AllTyped, EditAll, Good, OpGood, SnapshotNode, ReachedBy,
      Decide, Kept, BuildRoot;
    HeadIsReached(sc, h.height);
    SceneHashes(sc);
    DecidedPlan(sc, h, base, changes);
    SnapshotIsGood(sc.env.hash, ViewOf(sc), sc.block.refs, after, sc.block.refs.head);
    KeptIsHereditary(ViewOf(sc), sc.block.refs, after);
    OpsAreGood(sc, h, base, changes, o, after);
    RunIsGood(ViewOf(sc), o.head, o.draft.ops, Kept(ViewOf(sc), sc.block.refs, after));
  }

  lemma SceneHashes(sc: Scene)
    requires SceneTrue(sc)
    ensures Hashed(sc.env.hash, ViewOf(sc)) && TreeEdits.Typed(sc.env.hash) && EMPTY_DIR in sc.known
  {
    hide ViewOf, PathFits;
  }

  lemma HeadIsReached(sc: Scene, height: nat)
    ensures var head := Sweep(sc.block.refs, height).head;
      head == sc.block.refs.head
          && (head.Some? ==> R.Node(R.AsSnapshot, head.value) in ReachedBy(ViewOf(sc), sc.block.refs))
  {
    hide R.Reached, R.Ordinary, R.Catalog, D.RootsOf, View, ViewOf;
    RootsAre(sc.block.refs);
    R.ReachedIsLeast(View(ViewOf(sc)), D.RootsOf(sc.block.refs));
    if sc.block.refs.head.Some? { assert Rooted(sc.block.refs, R.Node(R.AsSnapshot, sc.block.refs.head.value)); }
  }

  lemma OpPathsFit(sc: Scene, change: Change)
    requires SceneTrue(sc)
    ensures forall p :: p in Touched(OpOf(sc, change)) ==> PathFits(p)
  {
    hide SceneTrue, FileBlob, PathFits, FileFor, LinkFor;
    match change
    case MovePath(source, target) =>
      SegmentsFit(sc, source);
      SegmentsFit(sc, target);
    case _ => SegmentsFit(sc, change.path);
  }

  lemma SegmentsFit(sc: Scene, path: Text)
    requires SceneTrue(sc)
    ensures PathFits(SegmentsOf(sc, path))
  {
    hide ViewOf, Short, CollisionFree, Hashed, DirBlob;
  }

  lemma {:induction false} EditsAreMade(odb: Odb, root: Node, ops: seq<EditOp>)
    requires ops != [] && EditAll(odb, root, ops).Some?
    ensures EditAll(odb, root, ops).value.Made?
  {
    hide LookAt, TreeEdits.Open, Free;
  }

  // A stored snapshot leads to the root it was made for.
  lemma SnapshotReads(hash: Hash, after: Odb, h: Header, root: Id, parent: Option<Id>)
    requires TypedHeader(h) && |h.message| <= MAX_MESSAGE_BYTES && IsId(root) && OptionalId(parent)
    requires hash(SnapshotBlob(h, root, parent)) in after
    requires after[hash(SnapshotBlob(h, root, parent))] == SnapshotBlob(h, root, parent)
    ensures RootOf(after, hash(SnapshotBlob(h, root, parent))) == Some(root)
  {
    hide DecodeSnapshot, TypedHeader;
    SnapshotDecodes(h, root, parent);
  }

  lemma SnapshotDecodes(h: Header, root: Id, parent: Option<Id>)
    requires TypedHeader(h) && |h.message| <= MAX_MESSAGE_BYTES && IsId(root) && OptionalId(parent)
    ensures SnapshotBlob(h, root, parent).kind == SnapshotKind
    ensures DecodeSnapshot(SnapshotBlob(h, root, parent).body)
         == Some(SnapshotObj(root, parent, h.who.Actor(), h.time, h.height, h.message))
  {
    var made := SnapshotObj(root, parent, h.who.Actor(), h.time, h.height, h.message);
    MadeFits(h, root, parent);
    hide *;
    var f: FileObj, t: TreeObj := FileObj(0, [], map[]), TreeObj(map[]);
    SnapshotBlobIs(h, root, parent);
    BodiesAreCanonical(SnapshotBlob(h, root, parent).body, f, t, made);
  }

  lemma MadeFits(h: Header, root: Id, parent: Option<Id>)
    requires TypedHeader(h) && |h.message| <= MAX_MESSAGE_BYTES && IsId(root) && OptionalId(parent)
    ensures SnapshotFits(SnapshotObj(root, parent, h.who.Actor(), h.time, h.height, h.message))
  {
    hide Range, Utf8, Actors.Typed, Actors.Proper;
    Wide8();
  }

  lemma SnapshotBlobIs(h: Header, root: Id, parent: Option<Id>)
    ensures SnapshotBlob(h, root, parent)
         == Blob(SnapshotKind, EncodeSnapshot(SnapshotObj(root, parent, h.who.Actor(), h.time, h.height, h.message)))
  {
    hide EncodeSnapshot;
  }

  // The new snapshot is stored, and leads to the new root.
  lemma SnapshotLands(sc: Scene, h: Header, base: Option<Text>, changes: seq<Change>, o: Outcome, after: Odb)
    requires TypedHeader(h) && OptionalId(sc.block.refs.head)
    requires Decide(sc, h, base, changes) == Some(o) && Lands(sc, o, after) && IsId(o.root)
    ensures RootOf(after, PlanOf(sc, o).snapshot) == Some(o.root)
  {
    hide ViewOf, EditAll, PlanAll, BuildRoot, BaseNode, AllAvailable, Unmoved, SnapshotNode, SnapshotBlob, RootOf,
      TypedHeader, Extends;
    StoredOne(sc.env.hash, after, PlanOf(sc, o).objects, o.snapshot);
    SnapshotReads(sc.env.hash, after, h, o.root, sc.block.refs.head);
  }

  lemma ReachedIsId(sc: Scene, n: R.Node)
    requires SceneTrue(sc) && Entire(ViewOf(sc), sc.block.refs) && n in ReachedBy(ViewOf(sc), sc.block.refs)
    ensures IsId(n.id)
  {
    hide ViewOf, ReachedBy, R.Sound, FileReads;
    assert sc.env.hash(ViewOf(sc)[n.id]) == n.id;
  }

  lemma BuiltAreStored(sc: Scene, o: Outcome, after: Odb)
    requires Lands(sc, o, after)
    ensures Stores(sc.env.hash, after, o.built)
  {
    hide ViewOf, Extends;
    StoresPart(sc.env.hash, after, o.built, PlanOf(sc, o).objects);
  }

  lemma EmptyDirReads(hash: Hash, after: Odb)
    requires hash(EMPTY_DIR) in after && after[hash(EMPTY_DIR)] == EMPTY_DIR
    ensures FetchTree(after, hash(EMPTY_DIR)) == Some(map[])
  {
    hide EncodeTree, DecodeTree, TreeFits;
    TreeFitsIf(map[]);
    var f: FileObj, s: SnapshotObj := FileObj(0, [], map[]), SnapshotObj([], None, Actors.System, 0, 0, []);
    BodiesAreCanonical(EMPTY_DIR.body, f, TreeObj(map[]), s);
  }

  // The empty root is staged like any other object.
  lemma EmptyRootLands(sc: Scene, o: Outcome, after: Odb)
    requires SceneTrue(sc) && DraftTrue(sc, o.draft) && Lands(sc, o, after)
    requires BuildRoot(sc, o.draft, Made(map[])) == Some((o.root, o.built))
    ensures o.root == sc.env.hash(EMPTY_DIR) && FetchTree(after, o.root) == Some(map[])
    ensures forall b :: b in o.built ==> b == EMPTY_DIR
  {
    hide SceneTrue, DraftTrue, ViewOf, FetchTree, EncodeTree, DirBlob, Extends, Stores;
    SceneHashes(sc);
    StageHolds(sc, o.draft, EMPTY_DIR);
    var staged := StageObject(sc, o.draft, EMPTY_DIR);
    assert staged.objects == o.draft.objects || staged.objects == o.draft.objects + [EMPTY_DIR];
    assert staged.objects == o.draft.objects + o.built;
    if EMPTY_DIR in staged.objects {
      assert EMPTY_DIR in PlanOf(sc, o).objects;
      StoredOne(sc.env.hash, after, PlanOf(sc, o).objects, EMPTY_DIR);
    } else {
      ExtendsAt(ViewOf(sc), after, o.root);
    }
    EmptyDirReads(sc.env.hash, after);
  }

  lemma EmptyDirGrows(hash: Hash, after: Odb, blobs: seq<Blob>, ok: TreeEntry -> bool)
    requires FetchTree(after, hash(EMPTY_DIR)) == Some(map[]) && forall b :: b in blobs ==> b == EMPTY_DIR
    ensures forall b :: b in blobs ==> Grown(hash, after, Hashes(hash, blobs), ok, hash(b))
  {
    hide FetchTree, DirBlob;
  }

  // The new root is a directory of kept entries, new files and other new directories.
  lemma RootLands(sc: Scene, h: Header, base: Option<Text>, changes: seq<Change>, o: Outcome, after: Odb)
    requires SceneTrue(sc) && Entire(ViewOf(sc), sc.block.refs) && Decide(sc, h, base, changes) == Some(o)
        && Lands(sc, o, after)
    requires AllTyped(sc, changes)
    ensures IsId(o.root)
    ensures o.root in Hashes(sc.env.hash, o.built) || FetchTree(after, o.root) == Some(map[])
    ensures forall b :: b in o.built ==>
      Grown(sc.env.hash, after, Hashes(sc.env.hash, o.built), Kept(ViewOf(sc), sc.block.refs, after), sc.env.hash(b))
  {
    hide SceneTrue, Entire, Lands, ViewOf, Proper, AllTyped, EditAll, PlanAll, BaseNode, SnapshotBlob,
      AllAvailable, Unmoved,
      Good, SnapshotNode, ReachedBy, Grown, Build, StageObject, DraftTrue, FetchTree, DirBlob;
    var ok := Kept(ViewOf(sc), sc.block.refs, after);
    SceneHashes(sc);
    if o.edited == Made(map[]) {
      PlanReady(sc, h.who, changes);
      EmptyRootLands(sc, o, after);
      EmptyDirGrows(sc.env.hash, after, o.built, ok);
    } else {
      EditsAreGood(sc, h, base, changes, o, after);
      BuiltAreStored(sc, o, after);
      PlanIs(sc, h.who, changes);
      EditsAreMade(ViewOf(sc), o.head, o.draft.ops);
      BuiltGrows(sc.env.hash, o.edited, ok, after);
      BuiltId(sc.env.hash, o.edited);
    }
  }

  lemma BuiltId(hash: Hash, node: Node)
    requires node.Made? && Build(hash, node).Some? && TreeEdits.Typed(hash)
    ensures IsId(Build(hash, node).value.0.id)
  {
    hide BuildAll, NamesOf, DirBlob;
  }

  // The refs after a commit are entire if those before it were: everything the new snapshot reaches
  // is there, and every file in it can be read.
  lemma CommitKeepsEntire(sc: Scene, caps: Caps, h: Header, base: Option<Text>, changes: seq<Change>, o: Outcome,
          after: Odb)
    requires SceneTrue(sc) && Entire(ViewOf(sc), sc.block.refs) && TypedHeader(h)
    requires Decide(sc, h, base, changes) == Some(o) && Lands(sc, o, after)
    requires AllTyped(sc, changes)
    ensures Entire(after, CommitPlan(caps, sc.block, h.height, PlanOf(sc, o)).refs)
  {
    RootLands(sc, h, base, changes, o, after);
    HeadIsReached(sc, h.height);
    if sc.block.refs.head.Some? { ReachedIsId(sc, R.Node(R.AsSnapshot, sc.block.refs.head.value)); }
    SnapshotLands(sc, h, base, changes, o, after);
    var grown := CommitPlan(caps, sc.block, h.height, PlanOf(sc, o)).refs;
    CommitRoots(sc, caps, h.height, PlanOf(sc, o));
    hide SceneTrue, Entire, ViewOf, Grown, FetchTree, RootOf, CommitPlan, Decide, Rooted, R.Reached, Kept;
    assert Extends(ViewOf(sc), after);
    NewSnapshotEntire(sc.env.hash, ViewOf(sc), sc.block.refs, after, grown, o.root, o.built, PlanOf(sc, o).snapshot);
  }

  lemma CommitRoots(sc: Scene, caps: Caps, height: nat, plan: Plan)
    ensures var grown := CommitPlan(caps, sc.block, height, plan).refs;
      && (forall n :: Rooted(grown, n) ==> n == R.Node(R.AsSnapshot, plan.snapshot) || Rooted(sc.block.refs, n))
      && (forall d :: d in grown.staging ==> d in sc.block.refs.staging && grown.staging[d] == sc.block.refs.staging[d])
  {
    var grown := CommitPlan(caps, sc.block, height, plan).refs;
    SweepIsPart(sc.block.refs, height);
    forall n | Rooted(grown, n)
      ensures n == R.Node(R.AsSnapshot, plan.snapshot) || Rooted(sc.block.refs, n)
    {
    }
  }

  // ---- what an accepted commit means -----------------------------------------------------------------

  lemma OpHolds(sc: Scene, who: Actors.Authority, d: Draft, change: Change)
    requires SceneTrue(sc) && PlanChange(sc, who, d, change).Some?
    ensures OpGood(OpOf(sc, change), Holdable)
  {
    hide SceneTrue, ViewOf, EncodeFile, Utf8, MetaFits, StageObject, StageAll, ParseAll, HashesOf, ChunkBlobs, Short,
      Chunks.Cut;
    OpPathsFit(sc, change);
    SceneTyped(sc);
    Wide8();
  }

  lemma {:induction false} PlanHolds(sc: Scene, who: Actors.Authority, changes: seq<Change>)
    requires SceneTrue(sc) && PlanAll(sc, who, changes).Some?
    ensures forall i :: 0 <= i < |changes| ==> OpGood(OpOf(sc, changes[i]), Holdable)
    decreases |changes|
  {
    hide SceneTrue, PlanChange, OpGood, OpOf;
    if changes != [] {
      var front, last := changes[..|changes| - 1], changes[|changes| - 1];
      PlanHolds(sc, who, front);
      OpHolds(sc, who, PlanAll(sc, who, front).value, last);
      forall i | 0 <= i < |changes|
        ensures OpGood(OpOf(sc, changes[i]), Holdable)
      {
        if i < |front| { assert changes[i] == front[i]; }
      }
    }
  }

  lemma {:induction false} PlanIsTrue(sc: Scene, who: Actors.Authority, changes: seq<Change>)
    requires SceneTrue(sc) && PlanAll(sc, who, changes).Some? && AllTyped(sc, changes)
    ensures DraftTrue(sc, PlanAll(sc, who, changes).value)
    decreases |changes|
  {
    hide SceneTrue, PlanChange, DraftTrue;
    if changes != [] {
      PlanIsTrue(sc, who, changes[..|changes| - 1]);
      OneIsTrue(sc, who, PlanAll(sc, who, changes[..|changes| - 1]).value, changes[|changes| - 1]);
    } else {
      NothingIsTrue(sc);
    }
  }

  lemma NothingIsTrue(sc: Scene)
    ensures DraftTrue(sc, NOTHING_YET)
  {
  }

  lemma OneIsTrue(sc: Scene, who: Actors.Authority, d: Draft, change: Change)
    requires SceneTrue(sc) && DraftTrue(sc, d) && TypedChange(sc, change) && PlanChange(sc, who, d, change).Some?
    ensures DraftTrue(sc, PlanChange(sc, who, d, change).value)
  {
    hide SceneTrue, DraftTrue, MayWrite, MetaFits, StageObject, StageAll, Claim, Follows, EncodeFile, HashesOf,
      ChunkBlobs, ParseChunks, Chunks.Cut;
    var path := if change.MovePath? then change.source else change.path;
    ClaimIs(sc, who, d, path);
    var (segments, claimed) := Claim(sc, who, d, path).value;
    var after := PlanChange(sc, who, d, change).value;
    match change
    case PutFile(_, exec, meta, Inline(Some(bytes))) =>
      var begun := claimed.(inline := claimed.inline + |bytes|);
      SameStaged(sc, claimed, begun);
      InlineIsTrue(sc, begun, segments, File, exec, meta, |bytes|, Chunks.Cut(bytes));
    case PutFile(_, exec, meta, ByChunks(size, chunks)) =>
      ParsedIs(size, chunks);
      var ids := ParseChunks(size, chunks).value;
      var noted := claimed.(checks := claimed.checks + [(size, ids)]);
      SameStaged(sc, claimed, noted);
      EntryIsTrue(sc, noted, segments, File, exec, FileObj(size, ids, meta));
    case PutSymlink(_, target) => InlineIsTrue(sc, claimed, segments, Symlink, false, map[], |target|, [target]);
    case MovePath(_, target) =>
      ClaimIs(sc, who, claimed, target);
      SameStaged(sc, claimed, after);
    case _ => SameStaged(sc, claimed, after);
  }

  lemma SameStaged(sc: Scene, d: Draft, later: Draft)
    requires DraftTrue(sc, d) && later.objects == d.objects && later.staged == d.staged
    ensures DraftTrue(sc, later)
  {
  }

  lemma EntryIsTrue(sc: Scene, d: Draft, path: Path, kind: EntryKind, exec: bool, f: FileObj)
    requires SceneTrue(sc) && DraftTrue(sc, d) && FileBlob(f) in sc.known
    ensures DraftTrue(sc, PlanEntry(sc, d, path, kind, exec, f))
  {
    hide SceneTrue, DraftTrue, StageObject, EncodeFile, Has, Follows;
    StageHolds(sc, d, FileBlob(f));
    SameStaged(sc, StageObject(sc, d, FileBlob(f)), PlanEntry(sc, d, path, kind, exec, f));
  }

  lemma InlineIsTrue(sc: Scene, d: Draft, path: Path, kind: EntryKind, exec: bool, meta: map<Text, Text>, size: nat,
          pieces: seq<Text>)
    requires SceneTrue(sc) && DraftTrue(sc, d) && AllKnown(sc, ChunkBlobs(pieces))
    requires FileBlob(FileObj(size, HashesOf(sc.env.hash, ChunkBlobs(pieces)), meta)) in sc.known
    ensures DraftTrue(sc, PlanInline(sc, d, path, kind, exec, meta, size, pieces))
  {
    hide SceneTrue, DraftTrue, StageAll, PlanEntry, Has, Follows;
    StageAllHolds(sc, d, ChunkBlobs(pieces));
    EntryIsTrue(sc, StageAll(sc, d, ChunkBlobs(pieces)), path, kind, exec,
        FileObj(size, HashesOf(sc.env.hash, ChunkBlobs(pieces)), meta));
  }

  lemma SnapshotFitsTree(odb: Odb, snapshot: Option<Id>)
    requires SnapshotNode(odb, snapshot).Some?
    ensures Fit(SnapshotNode(odb, snapshot).value)
  {
    hide RootOf;
    NothingIsSmall();
    if snapshot.Some? { RootIsId(odb, snapshot.value); }
  }

  // An accepted commit's tree, read back, holds at every path what the changes, made one after
  // another in a plain map from paths, leave there on top of the head; away from every path they
  // touch it holds the head's very entries, so what others changed there stays; and at every path
  // they touch the head still was as it was in the base.
  lemma CommitIsExact(sc: Scene, h: Header, base: Option<Text>, changes: seq<Change>, o: Outcome, after: Odb, q: Path)
    requires SceneTrue(sc) && TypedHeader(h) && OptionalId(sc.block.refs.head)
    requires Decide(sc, h, base, changes) == Some(o) && Lands(sc, o, after) && q != []
    requires AllTyped(sc, changes)
    ensures var (ops, tree) := (OpsOf(sc, changes), DirRef(o.root));
      && RootOf(after, PlanOf(sc, o).snapshot) == Some(o.root)
        && o.head == SnapshotNode(ViewOf(sc), sc.block.refs.head).value
      && (var held := Replay(ViewOf(sc), TreeOf(ViewOf(sc), o.head), ops)(q);
          held != Unknown && held != Sealed ==> SpotAt(after, tree, q) == held)
      && (Apart(ops, q) && !LookAt(ViewOf(sc), o.head, q).Broken? ==>
        LookAt(after, tree, q) == LookAt(ViewOf(sc), o.head, q))
      && (q in AllTouched(ops) ==> LookAt(ViewOf(sc), o.base, q) == LookAt(ViewOf(sc), o.head, q)
                                   && !LookAt(ViewOf(sc), o.base, q).Broken?)
  {
    hide SceneTrue, ViewOf, EditAll, PlanAll, BaseNode, SnapshotBlob, AllAvailable, Good, OpGood, SnapshotNode, Build,
      StageObject,
      DraftTrue, FetchTree, DirBlob, LookAt, Replay, SpotAt, Extends, Stores, OpOf;
    var odb, ops := ViewOf(sc), OpsOf(sc, changes);
    PlanIs(sc, h.who, changes);
    PlanHolds(sc, h.who, changes);
    SnapshotFitsTree(odb, Sweep(sc.block.refs, h.height).head);
    SceneTyped(sc);
    EditsAreMade(odb, o.head, ops);
    HeadIsStored(odb, o.head, q, sc.block.refs.head);
    if o.edited == Made(map[]) {
      PlanIsTrue(sc, h.who, changes);
      EmptyRootLands(sc, o, after);
      EmptyIsExact(odb, o.head, ops, after, o.root, q);
    } else {
      BuiltAreStored(sc, o, after);
      CopyOnWrite(sc.env.hash, odb, o.head, ops, after, q);
      BuildRef(sc.env.hash, o.edited);
      SameDir(after, Build(sc.env.hash, o.edited).value.0, q);
      BuiltId(sc.env.hash, o.edited);
    }
    SnapshotLands(sc, h, base, changes, o, after);
  }

  lemma HeadIsStored(odb: Odb, head: Node, q: Path, snapshot: Option<Id>)
    requires q != [] && SnapshotNode(odb, snapshot) == Some(head)
    ensures !LookAt(odb, head, q).Broken? ==> Stored(LookAt(odb, head, q))
  {
    hide LookAt, RootOf;
    if head.Ref? {
      if !LookAt(odb, head, q).Broken? { StoredStays(odb, head, q, odb); }
    } else {
      NothingBelow(odb, q);
    }
  }

  lemma EmptyIsExact(odb: Odb, head: Node, ops: seq<EditOp>, after: Odb, root: Id, q: Path)
    requires q != [] && EditAll(odb, head, ops) == Some(Made(map[])) && FetchTree(after, root) == Some(map[])
    ensures SpotAt(after, DirRef(root), q) == Replay(odb, TreeOf(odb, head), ops)(q)
    ensures Apart(ops, q) ==> LookAt(after, DirRef(root), q) == LookAt(odb, head, q)
  {
    hide FetchTree, EditAll, LookAt, Replay;
    RunRefines(odb, head, ops);
    NothingBelow(odb, q);
    StoredUnfold(after, TreeEntry(Dir, root, false, 0), q);
    if Apart(ops, q) { UntouchedStays(odb, head, ops, q); }
  }
}
