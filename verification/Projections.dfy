// Projections (crates/duckfs/core/src/fs.rs:633-690): one path of a snapshot in reach, as a snapshot
// of its own.
module Projections {
  import opened Wrappers
  import opened Texts
  import opened Kinds
  import opened Grammars
  import opened Objects
  import opened RefsImage
  import opened Records
  import opened Verbs
  import opened TreeEdits
  import opened Grounding
  import opened Commits
  import VerbLaws
  import CommitRules
  import Actors
  import R = Reachability
  import D = Durability

  // The selected entry alone, in fresh directories; the whole tree where the path is the root.
  function Cutting(sc: Scene, source: Id, path: Path): Option<(Id, seq<Blob>)> {
    if path == [] then Some((source, []))
    else
      match LookAt(ViewOf(sc), DirRef(source), path)
      case Found(Ref(entry)) =>
        (match Edit(ViewOf(sc), Made(map[]), Put(path, entry))
         case None => None
         case Some(edited) =>
           match Build(sc.env.hash, edited)
           case None => None
           case Some((built, blobs)) => Some((built.id, blobs)))
      case _ => None
  }

  // The snapshot object of a projection: no parent and no message.
  function ProjectedBlob(h: Header, root: Id): Blob {
    SnapshotBlob(h.(message := []), root, None)
  }

  datatype Projection = Projection(root: Id, built: seq<Blob>, snapshot: Blob)

  function Project(sc: Scene, h: Header, snapshot: Text, path: Text): Option<Projection> {
    match (sc.segments(path), FromHex32(snapshot))
    case (Some(segments), Some(id)) =>
      if ContainsSnapshot(sc.env, sc.block.refs, id) != Some(true) || RootOf(ViewOf(sc), id).None? then None
      else
        (match Cutting(sc, RootOf(ViewOf(sc), id).value, segments)
         case None => None
         case Some((root, built)) => Some(Projection(root, built, ProjectedBlob(h, root))))
    case _ => None
  }

  // What the block takes in.
  function CandidateOf(sc: Scene, p: Projection): (Id, seq<Blob>) {
    (sc.env.hash(p.snapshot), p.built + [p.snapshot])
  }

  // What a projection selects is the very entry of its source.
  lemma CuttingIsGood(sc: Scene, source: Id, path: Path, ok: TreeEntry -> bool)
    requires Good(DirRef(source), ok) && Hereditary(ViewOf(sc), ok) && PathFits(path) && path != []
    requires Cutting(sc, source, path).Some?
    ensures var entry := LookAt(ViewOf(sc), DirRef(source), path).node.entry;
      var edited := Edit(ViewOf(sc), Made(map[]), Put(path, entry)).value;
      Good(edited, ok) && edited.Made? && Build(sc.env.hash, edited).Some?
  {
    hide ViewOf, LookAt, Edit, Hereditary, Build;
    LookIsGood(ViewOf(sc), DirRef(source), path, ok);
    var entry := LookAt(ViewOf(sc), DirRef(source), path).node.entry;
    EditIsGood(ViewOf(sc), Made(map[]), Put(path, entry), ok);
    EditMakes(ViewOf(sc), Made(map[]), Put(path, entry));
  }

  lemma ProjectedLands(sc: Scene, h: Header, p: Projection, after: Odb)
    requires TypedHeader(h) && IsId(p.root) && p.snapshot == ProjectedBlob(h, p.root)
    requires sc.env.hash(p.snapshot) in after && after[sc.env.hash(p.snapshot)] == p.snapshot
    ensures RootOf(after, sc.env.hash(p.snapshot)) == Some(p.root)
  {
    hide SnapshotBlob, RootOf, Range;
    SnapshotReads(sc.env.hash, after, h.(message := []), p.root, None);
  }

  // The refs after a projection are entire if those before it were.
  lemma ProjectKeepsEntire(sc: Scene, caps: Caps, h: Header, snapshot: Text, path: Text, p: Projection, after: Odb)
    requires SceneTrue(sc) && Entire(ViewOf(sc), sc.block.refs) && TypedHeader(h)
    requires Project(sc, h, snapshot, path) == Some(p)
    requires R.Node(R.AsSnapshot, FromHex32(snapshot).value) in ReachedBy(ViewOf(sc), sc.block.refs)
    requires Extends(ViewOf(sc), after) && Stores(sc.env.hash, after, CandidateOf(sc, p).1)
    ensures Entire(after, ProjectCandidate(caps, sc.block, h.height, CandidateOf(sc, p)).refs)
  {
    var grown := ProjectCandidate(caps, sc.block, h.height, CandidateOf(sc, p)).refs;
    ProjectRoots(sc, caps, h.height, CandidateOf(sc, p));
    ProjectedTree(sc, h, snapshot, path, p, after);
    StoredOne(sc.env.hash, after, CandidateOf(sc, p).1, p.snapshot);
    ProjectedLands(sc, h, p, after);
    hide SceneTrue, Entire, ViewOf, Grown, FetchTree, RootOf, ProjectCandidate, Project, Rooted, R.Reached, Kept,
      Extends;
    NewSnapshotEntire(sc.env.hash, ViewOf(sc), sc.block.refs, after, grown, p.root, p.built, CandidateOf(sc, p).0);
  }

  // Its tree is of kept entries, and of nothing else.
  lemma ProjectedTree(sc: Scene, h: Header, snapshot: Text, path: Text, p: Projection, after: Odb)
    requires SceneTrue(sc) && Entire(ViewOf(sc), sc.block.refs) && Project(sc, h, snapshot, path) == Some(p)
    requires R.Node(R.AsSnapshot, FromHex32(snapshot).value) in ReachedBy(ViewOf(sc), sc.block.refs)
    requires Extends(ViewOf(sc), after) && Stores(sc.env.hash, after, CandidateOf(sc, p).1)
    ensures IsId(p.root) && p.snapshot == ProjectedBlob(h, p.root)
    ensures p.root in Hashes(sc.env.hash, p.built) || R.Node(R.AsTree, p.root) in ReachedBy(ViewOf(sc), sc.block.refs)
    ensures forall b :: b in p.built ==>
      Grown(sc.env.hash, after, Hashes(sc.env.hash, p.built), Kept(ViewOf(sc), sc.block.refs, after), sc.env.hash(b))
  {
    hide SceneTrue, Entire, ViewOf, ReachedBy, Grown, Build, RootOf, Edit, LookAt, FromHex32, ContainsSnapshot,
      ProjectedBlob, Proper, Good;
    var odb, refs, id := ViewOf(sc), sc.block.refs, FromHex32(snapshot).value;
    var source, segments := RootOf(odb, id).value, sc.segments(path).value;
    ProjectIs(sc, h, snapshot, path, p);
    SourceIsReached(odb, refs, id);
    ReachedIsId(sc, R.Node(R.AsTree, source));
    if segments != [] {
      SegmentsFit(sc, path);
      SourceIsGood(sc, id, after);
      StoresPart(sc.env.hash, after, p.built, CandidateOf(sc, p).1);
      CuttingGrows(sc, source, segments, p, after);
    }
  }

  lemma ProjectIs(sc: Scene, h: Header, snapshot: Text, path: Text, p: Projection)
    requires Project(sc, h, snapshot, path) == Some(p)
    ensures FromHex32(snapshot).Some? && sc.segments(path).Some? && RootOf(ViewOf(sc), FromHex32(snapshot).value).Some?
    ensures Cutting(sc, RootOf(ViewOf(sc), FromHex32(snapshot).value).value, sc.segments(path).value)
        == Some((p.root, p.built))
    ensures p.snapshot == ProjectedBlob(h, p.root)
  {
    hide Cutting, FromHex32, RootOf, ContainsSnapshot, ViewOf, ProjectedBlob;
  }

  lemma SourceIsGood(sc: Scene, id: Id, after: Odb)
    requires SceneTrue(sc) && Entire(ViewOf(sc), sc.block.refs) && RootOf(ViewOf(sc), id).Some?
    requires R.Node(R.AsSnapshot, id) in ReachedBy(ViewOf(sc), sc.block.refs)
    ensures Good(DirRef(RootOf(ViewOf(sc), id).value), Kept(ViewOf(sc), sc.block.refs, after))
    ensures Hereditary(ViewOf(sc), Kept(ViewOf(sc), sc.block.refs, after)) && TreeEdits.Typed(sc.env.hash)
  {
    hide SceneTrue, Entire, ViewOf, ReachedBy, RootOf, Good, Hereditary, Kept;
    SceneHashes(sc);
    SnapshotIsGood(sc.env.hash, ViewOf(sc), sc.block.refs, after, Some(id));
    KeptIsHereditary(ViewOf(sc), sc.block.refs, after);
  }

  lemma CuttingGrows(sc: Scene, source: Id, path: Path, p: Projection, after: Odb)
    requires Cutting(sc, source, path) == Some((p.root, p.built)) && path != [] && PathFits(path)
        && TreeEdits.Typed(sc.env.hash)
    requires Good(DirRef(source), Kept(ViewOf(sc), sc.block.refs, after))
        && Hereditary(ViewOf(sc), Kept(ViewOf(sc), sc.block.refs, after))
    requires Stores(sc.env.hash, after, p.built)
    ensures IsId(p.root) && p.root in Hashes(sc.env.hash, p.built)
    ensures forall b :: b in p.built ==>
      Grown(sc.env.hash, after, Hashes(sc.env.hash, p.built), Kept(ViewOf(sc), sc.block.refs, after), sc.env.hash(b))
  {
    hide ViewOf, ReachedBy, Grown, Build, Edit, LookAt, Good, Proper, Hereditary, Holdable, Stores, Hashes;
    var ok := Kept(ViewOf(sc), sc.block.refs, after);
    CuttingIsGood(sc, source, path, ok);
    var entry := LookAt(ViewOf(sc), DirRef(source), path).node.entry;
    var edited := Edit(ViewOf(sc), Made(map[]), Put(path, entry)).value;
    BuiltGrows(sc.env.hash, edited, ok, after);
    BuiltId(sc.env.hash, edited);
  }

  lemma SourceIsReached(odb: Odb, refs: Refs, id: Id)
    requires Entire(odb, refs) && R.Node(R.AsSnapshot, id) in ReachedBy(odb, refs) && RootOf(odb, id).Some?
    ensures R.Node(R.AsTree, RootOf(odb, id).value) in ReachedBy(odb, refs)
  {
    hide R.Reached, R.Ordinary, R.Catalog, R.Children, D.RootsOf, View, Proper, RootOf;
    R.ReachedIsLeast(View(odb), D.RootsOf(refs));
    SnapshotLeadsTo(odb, id);
    assert R.Node(R.AsTree, RootOf(odb, id).value) in R.Children(View(odb), R.Node(R.AsSnapshot, id));
  }

  lemma ProjectRoots(sc: Scene, caps: Caps, height: nat, candidate: (Id, seq<Blob>))
    ensures var grown := ProjectCandidate(caps, sc.block, height, candidate).refs;
      && (forall n :: Rooted(grown, n) ==> n == R.Node(R.AsSnapshot, candidate.0) || Rooted(sc.block.refs, n))
      && (forall d :: d in grown.staging ==> d in sc.block.refs.staging && grown.staging[d] == sc.block.refs.staging[d])
  {
    SweepIsPart(sc.block.refs, height);
  }

  // A projection holds its path exactly as its source does, and nothing beside it.
  lemma ProjectIsExact(sc: Scene, h: Header, snapshot: Text, path: Text, p: Projection, after: Odb, q: Path)
    requires SceneTrue(sc) && Project(sc, h, snapshot, path) == Some(p) && sc.segments(path).value != []
    requires Extends(ViewOf(sc), after) && Stores(sc.env.hash, after, CandidateOf(sc, p).1)
    requires IsId(RootOf(ViewOf(sc), FromHex32(snapshot).value).value)
    ensures var (odb, segments) := (ViewOf(sc), sc.segments(path).value);
      var source := DirRef(RootOf(odb, FromHex32(snapshot).value).value);
      && (segments <= q && SpotAt(odb, source, q) != Unknown && SpotAt(odb, source, q) != Sealed ==>
            SpotAt(after, DirRef(p.root), q) == SpotAt(odb, source, q))
      && (q <= segments && q != segments ==> SpotAt(after, DirRef(p.root), q) == Directory)
      && (!(segments <= q) && !(q <= segments) ==> SpotAt(after, DirRef(p.root), q) == Nothing)
  {
    hide SceneTrue, ViewOf, Build, RootOf, Edit, LookAt, FromHex32, Project, Extends, Holdable, SpotAt, Stores;
    ProjectIs(sc, h, snapshot, path, p);
    NothingIsSmall();
    var odb, segments := ViewOf(sc), sc.segments(path).value;
    var source := DirRef(RootOf(odb, FromHex32(snapshot).value).value);
    assert Fit(source) by { RootIsHoldable(source.entry.id); }
    var entry := LookAt(odb, source, segments).node.entry;
    var edited := Edit(odb, Made(map[]), Put(segments, entry)).value;
    SceneTyped(sc);
    SegmentsFit(sc, path);
    OneEdit(sc, source, segments, entry);
    CutSpot(odb, source, segments, entry, q);
    StoresPart(sc.env.hash, after, p.built, CandidateOf(sc, p).1);
    if SpotAt(odb, edited, q) != Unknown && SpotAt(odb, edited, q) != Sealed {
      BuiltShows(sc.env.hash, odb, edited, q, after);
      BuildRef(sc.env.hash, edited);
      SameDir(after, Build(sc.env.hash, edited).value.0, q);
    }
  }

  lemma RootIsHoldable(id: Id)
    requires IsId(id)
    ensures Holdable(TreeEntry(Dir, id, false, 0))
  {
    NothingIsSmall();
  }

  // What the edit that cuts a path out leaves at each path.
  lemma CutSpot(odb: Odb, source: Node, path: Path, entry: TreeEntry, q: Path)
    requires path != [] && LookAt(odb, source, path) == Found(Ref(entry))
        && Edit(odb, Made(map[]), Put(path, entry)).Some?
    ensures SpotAt(odb, Edit(odb, Made(map[]), Put(path, entry)).value, q) ==
      if path <= q then SpotAt(odb, source, q) else if q <= path then Directory else Nothing
  {
    hide LookAt, Edit, TreeEdits.Open;
    EditRefines(odb, Made(map[]), Put(path, entry));
    NothingBelow(odb, q);
    if path <= q {
      assert q == path + q[|path|..];
      LookFurther(odb, source, path, q[|path|..]);
    }
  }

  lemma OneEdit(sc: Scene, source: Node, path: Path, entry: TreeEntry)
    requires source.Ref? && Fit(source) && PathFits(path) && path != []
        && LookAt(ViewOf(sc), source, path) == Found(Ref(entry))
    requires Edit(ViewOf(sc), Made(map[]), Put(path, entry)).Some?
    ensures var edited := Edit(ViewOf(sc), Made(map[]), Put(path, entry)).value; Fit(edited) && edited.Made?
  {
    hide ViewOf, LookAt, Edit, Hereditary;
    HoldableIsHereditary(ViewOf(sc));
    LookIsGood(ViewOf(sc), source, path, Holdable);
    EditIsGood(ViewOf(sc), Made(map[]), Put(path, entry), Holdable);
    EditMakes(ViewOf(sc), Made(map[]), Put(path, entry));
  }

  // ---- which projections are accepted --------------------------------------------------------------

  // Fresh directories down to one entry.
  function Chain(path: Path, entry: TreeEntry): Node
    requires path != []
    decreases |path|
  {
    Made(map[path[0] := if |path| == 1 then Ref(entry) else Chain(path[1..], entry)])
  }

  lemma {:induction false} ChainIsSet(odb: Odb, path: Path, entry: TreeEntry)
    requires path != []
    ensures SetAt(odb, Made(map[]), path, Some(Ref(entry)), true) == Some(Chain(path, entry))
    ensures CommitRules.DirectoriesFit(Chain(path, entry))
    decreases |path|
  {
    hide SetAt, CommitRules.DirectoriesFit;
    SetAtGoesDown(odb, Made(map[]), path, Some(Ref(entry)), true);
    var below := if |path| == 1 then Ref(entry) else Chain(path[1..], entry);
    OneFits(path[0], below);
    if |path| > 1 { ChainIsSet(odb, path[1..], entry); } else { LeafFits(entry); }
  }

  lemma OneFits(name: Text, below: Node)
    ensures CommitRules.DirectoriesFit(below) ==> CommitRules.DirectoriesFit(Made(map[name := below]))
  {
    var children := map[name := below];
    assert children.Keys == {name} && |children| == |children.Keys|;
  }

  lemma LeafFits(entry: TreeEntry)
    ensures CommitRules.DirectoriesFit(Ref(entry))
  {
  }

  // A projection is accepted exactly if its path is canonical, its snapshot is one the node keeps and can
  // read, and the path is the root or has an entry there.
  lemma ProjectIsAccepted(sc: Scene, h: Header, snapshot: Text, path: Text)
    ensures var (segments, id) := (sc.segments(path), FromHex32(snapshot));
      Project(sc, h, snapshot, path).Some? <==>
      && segments.Some? && id.Some? && VerbLaws.IsKept(sc.env, sc.block.refs, id.value)
      && RootOf(ViewOf(sc), id.value).Some?
      && (segments.value == [] || EntryThere(sc, RootOf(ViewOf(sc), id.value).value, segments.value))
  {
    hide ViewOf, FromHex32, RootOf, ContainsSnapshot, VerbLaws.IsKept, Cutting, EntryThere;
    if sc.segments(path).Some? && FromHex32(snapshot).Some? {
      VerbLaws.ContainedIsKept(sc.env, sc.block.refs, FromHex32(snapshot).value);
      if RootOf(ViewOf(sc), FromHex32(snapshot).value).Some? {
        CutsIfThere(sc, RootOf(ViewOf(sc), FromHex32(snapshot).value).value, sc.segments(path).value);
      }
    }
  }

  predicate EntryThere(sc: Scene, source: Id, path: Path) {
    var look := LookAt(ViewOf(sc), DirRef(source), path);
    look.Found? && look.node.Ref?
  }

  lemma CutsIfThere(sc: Scene, source: Id, path: Path)
    ensures Cutting(sc, source, path).Some? <==> path == [] || EntryThere(sc, source, path)
  {
    hide ViewOf, LookAt, SetAt, Build;
    if path != [] && EntryThere(sc, source, path) {
      var entry := LookAt(ViewOf(sc), DirRef(source), path).node.entry;
      ChainIsSet(ViewOf(sc), path, entry);
      CommitRules.BuildsExactly(sc.env.hash, Chain(path, entry));
    }
  }

  // Its snapshot has the projected tree, its sender, time and height, and neither parent nor message.
  lemma ProjectionSays(sc: Scene, h: Header, snapshot: Text, path: Text, after: Odb)
    requires TypedHeader(h) && Project(sc, h, snapshot, path).Some?
    requires var p := Project(sc, h, snapshot, path).value;
      IsId(p.root) && Stores(sc.env.hash, after, CandidateOf(sc, p).1)
    ensures var p := Project(sc, h, snapshot, path).value;
      && CandidateOf(sc, p).0 in after && after[CandidateOf(sc, p).0].kind == SnapshotKind
      && DecodeSnapshot(after[CandidateOf(sc, p).0].body)
         == Some(SnapshotObj(p.root, None, h.who.Actor(), h.time, h.height, []))
  {
    hide Cutting, ContainsSnapshot, RootOf, FromHex32, DecodeSnapshot, SnapshotBlob, TypedHeader;
    var p := Project(sc, h, snapshot, path).value;
    StoredOne(sc.env.hash, after, CandidateOf(sc, p).1, p.snapshot);
    NoMessageIsTyped(h);
    SnapshotDecodes(h.(message := []), p.root, None);
  }

  lemma NoMessageIsTyped(h: Header)
    requires TypedHeader(h)
    ensures TypedHeader(h.(message := []))
  {
    hide Actors.Typed, Range;
  }
}
