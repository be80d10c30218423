// The rules of a commit, said of its changes (crates/duckfs/core/src/fs.rs:1204-1525,
// crates/duckfs/core/src/paths.rs:80-114): who may write where, which commits are accepted, what they
// gather on the way, and what their snapshot says.
module CommitRules {
  import opened Wrappers
  import opened Texts
  import opened Kinds
  import opened Objects
  import opened RefsImage
  import opened Records
  import opened Verbs
  import opened TreeEdits
  import opened Grounding
  import opened Commits
  import VerbLaws
  import Actors
  import Chunks

  // ---- who may write where -------------------------------------------------------------------------

  // Below `/home/<label>` or below `/shared`.
  predicate MemberPath(path: Path) {
    || (|path| >= 3 && path[0] == [104, 111, 109, 101])
    || (|path| >= 2 && path[0] == [115, 104, 97, 114, 101, 100])
  }

  predicate Allowed(who: Actors.Authority, path: Path) {
    who == Actors.OfSystem || MemberPath(path)
  }

  lemma AllowedIs(who: Actors.Authority, path: Path)
    ensures MayWrite(who, path) <==> Allowed(who, path)
  {
  }

  // A path is claimed exactly if it is canonical, its sender may write it and nothing before touched it;
  // claiming it is all that changes.
  lemma ClaimedExactly(sc: Scene, who: Actors.Authority, d: Draft, path: Text)
    ensures var p := sc.segments(path);
      Claim(sc, who, d, path)
      == if p.Some? && Allowed(who, p.value) && p.value !in d.touched
         then Some((p.value, d.(touched := d.touched + [p.value]))) else None
  {
  }

  // ---- which changes make a plan -------------------------------------------------------------------

  predicate Goes(sc: Scene, who: Actors.Authority, path: Text) {
    sc.segments(path).Some? && Allowed(who, sc.segments(path).value)
  }

  predicate ContentRight(content: Content) {
    match content
    case Inline(bytes) => bytes.Some?
    case ByChunks(size, chunks) =>
      && |chunks| <= 4_194_304 && size < Chunks.U64_END && Chunks.VerifyFileShape(size, |chunks|)
      && forall i :: 0 <= i < |chunks| ==> FromHex32(chunks[i]).Some?
  }

  predicate MetaRight(meta: map<Text, Text>) {
    |meta| <= 16 && forall key :: key in meta ==> |key| <= 64 && |meta[key]| <= 256
  }

  // A change that is right by itself.
  predicate ChangeRight(sc: Scene, who: Actors.Authority, change: Change) {
    match change
    case PutFile(path, _, meta, content) => Goes(sc, who, path) && MetaRight(meta) && ContentRight(content)
    case MakeDirectory(path) => Goes(sc, who, path)
    case RemovePath(path) => Goes(sc, who, path)
    case MovePath(source, target) => Goes(sc, who, source) && Goes(sc, who, target)
    case PutSymlink(path, target) => Goes(sc, who, path) && |target| <= 4096
  }

  function InlineOf(change: Change): nat {
    if change.PutFile? && change.content.Inline? && change.content.bytes.Some? then |change.content.bytes.value| else 0
  }

  function InlineTotal(changes: seq<Change>): nat {
    if changes == [] then 0 else InlineTotal(changes[..|changes| - 1]) + InlineOf(changes[|changes| - 1])
  }

  // The chunks the changes' files name, and the chunk lists among them that are still to be found.
  function NamedBy(sc: Scene, change: Change): seq<Id> {
    match change
    case PutFile(_, _, meta, content) => FileFor(sc, meta, content).chunks
    case PutSymlink(_, target) => LinkFor(sc, target).chunks
    case _ => []
  }

  function ListedBy(sc: Scene, change: Change): seq<(nat, seq<Id>)> {
    if change.PutFile? && change.content.ByChunks?
    then [(change.content.size, FileFor(sc, change.meta, change.content).chunks)] else []
  }

  function AllNamed(sc: Scene, changes: seq<Change>): seq<Id> {
    if changes == [] then [] else AllNamed(sc, changes[..|changes| - 1]) + NamedBy(sc, changes[|changes| - 1])
  }

  function AllListed(sc: Scene, changes: seq<Change>): seq<(nat, seq<Id>)> {
    if changes == [] then [] else AllListed(sc, changes[..|changes| - 1]) + ListedBy(sc, changes[|changes| - 1])
  }

  lemma {:induction false} ParsesIfHex(texts: seq<Text>)
    ensures ParseAll(texts).Some? <==> forall i :: 0 <= i < |texts| ==> FromHex32(texts[i]).Some?
  {
    hide FromHex32;
    if texts != [] {
      ParsesIfHex(texts[1..]);
      assert forall i :: 0 < i < |texts| ==> texts[i] == texts[1..][i - 1];
    }
  }

  // The paths a change touches are new, and differ from each other.
  predicate Fresh(d: Draft, touched: seq<Path>) {
    AllDistinct(touched) && forall p :: p in touched ==> p !in d.touched
  }

  lemma FreshTwo(d: Draft, from: Path, to: Path)
    ensures Fresh(d, [from, to]) <==> from !in d.touched && to !in d.touched && from != to
  {
    assert [from, to][0] == from && [from, to][1] == to;
    assert forall p :: p in [from, to] <==> p == from || p == to;
  }

  // One change joins a draft exactly if it is right, its paths are new and its bytes still fit; what it
  // adds to what the commit gathers is its own alone.
  lemma ChangeJoins(sc: Scene, who: Actors.Authority, d: Draft, change: Change)
    requires d.inline <= MAX_INLINE_COMMIT_BYTES
    ensures var after := PlanChange(sc, who, d, change);
      && (after.Some? <==> ChangeRight(sc, who, change) && Fresh(d, Touched(OpOf(sc, change)))
                           && d.inline + InlineOf(change) <= 262_144)
      && (after.Some? ==>
            && after.value.inline == d.inline + InlineOf(change)
            && after.value.references == d.references + NamedBy(sc, change)
            && after.value.checks == d.checks + ListedBy(sc, change))
  {
    hide StageObject, StageAll, MayWrite, Allowed, ParseAll, EncodeFile, HashesOf, ChunkBlobs, FromHex32, Claim,
      EntryFor, FileFor, LinkFor, PlanFile, PlanInline, ContentRight;
    match change
    case PutFile(path, exec, meta, content) =>
      ClaimedExactly(sc, who, d, path);
      if Claim(sc, who, d, path).Some? {
        FileJoins(sc, Claim(sc, who, d, path).value.1, Claim(sc, who, d, path).value.0, exec, meta, content);
      }
    case MakeDirectory(path) => ClaimedExactly(sc, who, d, path);
    case RemovePath(path) => ClaimedExactly(sc, who, d, path);
    case MovePath(source, target) =>
      ClaimedExactly(sc, who, d, source);
      FreshTwo(d, SegmentsOf(sc, source), SegmentsOf(sc, target));
      if Claim(sc, who, d, source).Some? { ClaimedExactly(sc, who, Claim(sc, who, d, source).value.1, target); }
    case PutSymlink(path, target) =>
      ClaimedExactly(sc, who, d, path);
      if Claim(sc, who, d, path).Some? {
        InlineJoins(sc, Claim(sc, who, d, path).value.1, Claim(sc, who, d, path).value.0, Symlink, false, map[],
                    |target|, [target]);
        LinkIs(sc, target);
      }
  }

  lemma LinkIs(sc: Scene, target: Text)
    ensures LinkFor(sc, target).chunks == HashesOf(sc.env.hash, ChunkBlobs([target]))
  {
    hide HashesOf, ChunkBlobs;
  }

  lemma EntryJoins(sc: Scene, d: Draft, path: Path, kind: EntryKind, exec: bool, f: FileObj)
    ensures var after := PlanEntry(sc, d, path, kind, exec, f);
      && after.inline == d.inline && after.checks == d.checks && after.references == d.references + f.chunks
  {
    hide EncodeFile, StageObject;
    StagedAlike(sc, d, FileBlob(f));
  }

  lemma InlineJoins(sc: Scene, d: Draft, path: Path, kind: EntryKind, exec: bool, meta: map<Text, Text>, size: nat,
      pieces: seq<Text>)
    ensures var after := PlanInline(sc, d, path, kind, exec, meta, size, pieces);
      && after.inline == d.inline && after.checks == d.checks
      && after.references == d.references + HashesOf(sc.env.hash, ChunkBlobs(pieces))
  {
    hide StageAll, PlanEntry, HashesOf, ChunkBlobs;
    StagedAllAlike(sc, d, ChunkBlobs(pieces));
    EntryJoins(sc, StageAll(sc, d, ChunkBlobs(pieces)), path, kind, exec,
               FileObj(size, HashesOf(sc.env.hash, ChunkBlobs(pieces)), meta));
  }

  lemma FileJoins(sc: Scene, d: Draft, path: Path, exec: bool, meta: map<Text, Text>, content: Content)
    ensures var after := PlanFile(sc, d, path, exec, meta, content);
      var inline := if content.Inline? && content.bytes.Some? then |content.bytes.value| else 0;
      && (after.Some? <==> ContentRight(content) && (content.Inline? ==> d.inline + inline <= 262_144))
      && (after.Some? ==>
            && after.value.inline == d.inline + inline
            && after.value.references == d.references + FileFor(sc, meta, content).chunks
            && after.value.checks == d.checks + if content.ByChunks?
                then [(content.size, FileFor(sc, meta, content).chunks)] else [])
  {
    hide PlanEntry, PlanInline, ParseAll, HashesOf, ChunkBlobs, FromHex32, Chunks.Cut;
    match content
    case Inline(Some(bytes)) =>
      InlineJoins(sc, d.(inline := d.inline + |bytes|), path, File, exec, meta, |bytes|, Chunks.Cut(bytes));
    case ByChunks(size, chunks) =>
      ParsesIfHex(chunks);
      if ParseAll(chunks).Some? {
        var ids := ParseAll(chunks).value;
        EntryJoins(sc, d.(checks := d.checks + [(size, ids)]), path, File, exec, FileObj(size, ids, meta));
      }
    case Inline(None) =>
  }

  // Changes make a plan exactly if each is right by itself, no two paths they touch are the same, and
  // their inline bytes together fit. The plan then has named every chunk of every file, and lists for
  // checking every file that came by its chunks.
  lemma {:induction false} PlansExactly(sc: Scene, who: Actors.Authority, changes: seq<Change>)
    ensures PlanAll(sc, who, changes).Some? <==>
      && (forall i :: 0 <= i < |changes| ==> ChangeRight(sc, who, changes[i]))
      && AllDistinct(AllTouched(OpsOf(sc, changes))) && InlineTotal(changes) <= 262_144
    ensures PlanAll(sc, who, changes).Some? ==>
      var d := PlanAll(sc, who, changes).value;
      && d.inline == InlineTotal(changes) && d.references == AllNamed(sc, changes) && d.checks == AllListed(sc, changes)
    decreases |changes|
  {
    hide PlanChange, OpOf, ChangeRight, AllDistinct, Fresh, InlineOf, NamedBy, ListedBy;
    if changes != [] {
      var front, last := changes[..|changes| - 1], changes[|changes| - 1];
      PlansExactly(sc, who, front);
      assert OpsOf(sc, changes)[..|changes| - 1] == OpsOf(sc, front);
      TouchedSplit(OpsOf(sc, changes));
      DistinctSplit(AllTouched(OpsOf(sc, front)), Touched(OpOf(sc, last)));
      if PlanAll(sc, who, front).Some? {
        var d := PlanAll(sc, who, front).value;
        PlanIs(sc, who, front);
        ChangeJoins(sc, who, d, last);
        FreshIs(d, Touched(OpOf(sc, last)));
      } else if forall i :: 0 <= i < |changes| ==> ChangeRight(sc, who, changes[i]) {
        assert forall i :: 0 <= i < |front| ==> front[i] == changes[i];
      }
    } else {
      NoneTouched();
    }
  }

  lemma NoneTouched()
    ensures AllTouched([]) == [] && AllDistinct([])
  {
  }

  lemma FreshIs(d: Draft, touched: seq<Path>)
    ensures Fresh(d, touched) <==> AllDistinct(touched) && forall p :: p in touched ==> p !in d.touched
  {
    hide AllDistinct;
  }

  lemma TouchedSplit(ops: seq<EditOp>)
    requires ops != []
    ensures AllTouched(ops) == AllTouched(ops[..|ops| - 1]) + Touched(ops[|ops| - 1])
  {
    hide Touched;
  }

  lemma DistinctSplit(a: seq<Path>, b: seq<Path>)
    ensures AllDistinct(a + b) <==> AllDistinct(a) && AllDistinct(b) && forall p :: p in b ==> p !in a
  {
    if AllDistinct(a) && AllDistinct(b) && (forall p :: p in b ==> p !in a) { DistinctMore(a, b); }
    if AllDistinct(a + b) {
      forall i, j | 0 <= i < j < |a|
        ensures a[i] != a[j]
      {
        assert (a + b)[i] == a[i] && (a + b)[j] == a[j];
      }
      forall i, j | 0 <= i < j < |b|
        ensures b[i] != b[j]
      {
        assert (a + b)[|a| + i] == b[i] && (a + b)[|a| + j] == b[j];
      }
      forall i, j | 0 <= i < |a| && 0 <= j < |b|
        ensures a[i] != b[j]
      {
        assert (a + b)[i] == a[i] && (a + b)[|a| + j] == b[j];
      }
    }
  }

  // ---- which commits are accepted ------------------------------------------------------------------

  // No directory an edit has opened holds more names than a directory may.
  predicate DirectoriesFit(node: Node) {
    node.Ref? || (|node.children| <= MAX_DIR_ENTRIES
                  && forall name :: name in node.children ==> DirectoriesFit(node.children[name]))
  }

  lemma {:induction false} BuildsExactly(hash: Hash, node: Node)
    ensures Build(hash, node).Some? <==> DirectoriesFit(node)
    decreases node, 1, 0
  {
    hide BuildAll, NamesOf, DirBlob, Build;
    BuildRef(hash, node);
    if node.Made? {
      var names := NamesOf(node.children);
      BuildsAll(hash, node, names);
      BuildIs(hash, node);
      assert (set name | name in names) == node.children.Keys;
      assert |node.children.Keys| == |node.children|;
    }
  }

  lemma {:induction false} BuildsAll(hash: Hash, dir: Node, names: seq<Text>)
    requires dir.Made? && forall name :: name in names ==> name in dir.children
    ensures BuildAll(hash, dir, names).Some? <==> forall name :: name in names ==> DirectoriesFit(dir.children[name])
    ensures BuildAll(hash, dir, names).Some? ==>
      var entries := BuildAll(hash, dir, names).value.0;
      entries.Keys == (set name | name in names) && |entries| == |entries.Keys|
    decreases dir, 0, |names|
  {
    hide BuildAll, Build, DirectoriesFit;
    BuildNext(hash, dir, names);
    if names != [] {
      BuildsExactly(hash, dir.children[names[0]]);
      BuildsAll(hash, dir, names[1..]);
      assert forall name :: name in names <==> name == names[0] || name in names[1..];
    }
  }

  // The base a commit names is empty, or a snapshot the node keeps and can read.
  ghost predicate BaseResolves(sc: Scene, refs: Refs, base: Option<Text>) {
    base.None? || (FromHex32(base.value).Some? && VerbLaws.IsKept(sc.env, refs, FromHex32(base.value).value)
                   && RootOf(ViewOf(sc), FromHex32(base.value).value).Some?)
  }

  // The tree of a snapshot, or of none.
  function TreeAt(odb: Odb, snapshot: Option<Id>): Node {
    if snapshot.None? || RootOf(odb, snapshot.value).None? then Made(map[])
    else DirRef(RootOf(odb, snapshot.value).value)
  }

  function BaseTree(sc: Scene, base: Option<Text>): Node {
    TreeAt(ViewOf(sc), if base.None? then None else FromHex32(base.value))
  }

  function HeadTree(sc: Scene): Node {
    TreeAt(ViewOf(sc), sc.block.refs.head)
  }

  // A chunk is known at a length: it is staged with it, or else one of the block's objects, or else one of
  // the commit's own.
  predicate KnownAt(refs: Refs, block: Block, d: Draft, id: Id, len: nat) {
    if id in refs.staging then refs.staging[id].len == len
    else if id in block.index then block.index[id] == (ChunkKind, len)
    else id in d.staged && d.staged[id] == (ChunkKind, len)
  }

  // Every chunk a change lists is known at the length its place calls for.
  ghost predicate ChunksKnown(sc: Scene, h: Header, d: Draft, changes: seq<Change>) {
    var (lists, refs) := (AllListed(sc, changes), Sweep(sc.block.refs, h.height));
    forall k, i :: 0 <= k < |lists| && 0 <= i < |lists[k].1| ==>
      KnownFor(refs, sc.block, d, lists[k].0, |lists[k].1|, i, lists[k].1[i])
  }

  ghost predicate KnownFor(refs: Refs, block: Block, d: Draft, size: nat, count: nat, index: nat, id: Id) {
    exists len: nat :: KnownAt(refs, block, d, id, len) && FitsPlace(size, count, index, len)
  }

  predicate FitsPlace(size: nat, count: nat, index: nat, len: nat) {
    size < Chunks.U64_END && len < Chunks.U64_END && Chunks.VerifyChunkLenAt(size, count, index, len)
  }

  lemma AvailableIs(refs: Refs, block: Block, d: Draft, size: nat, count: nat, index: nat, id: Id)
    ensures Available(refs, block, d, size, count, index, id)
       <==> KnownFor(refs, block, d, size, count, index, id)
  {
    hide Chunks.VerifyChunkLenAt;
    if Available(refs, block, d, size, count, index, id) {
      var len := ChunkStat(refs, block, d, id).value.value;
      assert KnownAt(refs, block, d, id, len) && FitsPlace(size, count, index, len);
    }
  }

  // An object is staged exactly if it is not at hand already: with the commit, the block or the store.
  lemma StagedExactly(sc: Scene, d: Draft, blob: Blob)
    ensures var (id, after) := (sc.env.hash(blob), StageObject(sc, d, blob));
      if id in d.staged || id in sc.block.index || id in sc.committed then after == d
      else after == d.(objects := d.objects + [blob], staged := d.staged[id := (blob.kind, |blob.body|)])
  {
  }

  lemma BaseIs(sc: Scene, refs: Refs, base: Option<Text>)
    ensures BaseNode(sc.env, ViewOf(sc), refs, base)
         == if BaseResolves(sc, refs, base) then Some(BaseTree(sc, base)) else None
  {
    hide ViewOf, RootOf, FromHex32, ContainsSnapshot, VerbLaws.IsKept;
    if base.Some? && FromHex32(base.value).Some? {
      VerbLaws.ContainedIsKept(sc.env, refs, FromHex32(base.value).value);
    }
  }

  lemma HeadIs(sc: Scene, height: nat)
    ensures SnapshotNode(ViewOf(sc), Sweep(sc.block.refs, height).head)
         == if sc.block.refs.head.Some? && RootOf(ViewOf(sc), sc.block.refs.head.value).None? then None
            else Some(HeadTree(sc))
  {
    hide ViewOf, RootOf;
  }

  lemma KnownIs(sc: Scene, h: Header, d: Draft, changes: seq<Change>)
    requires d.checks == AllListed(sc, changes)
    ensures AllAvailable(Sweep(sc.block.refs, h.height), sc.block, d) <==> ChunksKnown(sc, h, d, changes)
  {
    hide AllListed, Available, Sweep, KnownFor;
    var lists, refs := AllListed(sc, changes), Sweep(sc.block.refs, h.height);
    forall k, i | 0 <= k < |lists| && 0 <= i < |lists[k].1|
      ensures Available(refs, sc.block, d, lists[k].0, |lists[k].1|, i, lists[k].1[i])
         <==> KnownFor(refs, sc.block, d, lists[k].0, |lists[k].1|, i, lists[k].1[i])
    {
      AvailableIs(refs, sc.block, d, lists[k].0, |lists[k].1|, i, lists[k].1[i]);
    }
  }

  predicate SameAt(odb: Odb, base: Node, head: Node, paths: seq<Path>) {
    forall p :: p in paths && p != [] ==> !LookAt(odb, base, p).Broken? && LookAt(odb, base, p) == LookAt(odb, head, p)
  }

  lemma EntryIsLooked(odb: Odb, tree: Node, p: Path)
    ensures EntryAt(odb, tree, p) == if p == [] then Absent else LookAt(odb, tree, p)
  {
    hide LookAt;
  }

  lemma UnmovedIs(odb: Odb, base: Node, head: Node, paths: seq<Path>)
    ensures Unmoved(odb, base, head, paths) <==> SameAt(odb, base, head, paths)
  {
    hide LookAt, EntryAt;
    forall i | 0 <= i < |paths|
      ensures paths[i] in paths
      ensures EntryAt(odb, base, paths[i]) == if paths[i] == [] then Absent else LookAt(odb, base, paths[i])
      ensures EntryAt(odb, head, paths[i]) == if paths[i] == [] then Absent else LookAt(odb, head, paths[i])
    {
      EntryIsLooked(odb, base, paths[i]);
      EntryIsLooked(odb, head, paths[i]);
    }
    if Unmoved(odb, base, head, paths) {
      forall p | p in paths && p != []
        ensures !LookAt(odb, base, p).Broken? && LookAt(odb, base, p) == LookAt(odb, head, p)
      {
        var i :| 0 <= i < |paths| && paths[i] == p;
      }
    }
  }

  lemma RootBuilds(sc: Scene, d: Draft, edited: Node)
    ensures BuildRoot(sc, d, edited).Some? <==> DirectoriesFit(edited)
  {
    hide Build, StageObject;
    BuildsExactly(sc.env.hash, edited);
  }

  lemma DecideIs(sc: Scene, h: Header, base: Option<Text>, changes: seq<Change>)
    ensures var (refs, odb, plan) := (Sweep(sc.block.refs, h.height), ViewOf(sc), PlanAll(sc, h.who, changes));
      var (from, head) := (BaseNode(sc.env, odb, refs, base), SnapshotNode(odb, refs.head));
      Decide(sc, h, base, changes).Some? <==>
      && |h.message| <= 4096 && 0 < |changes| <= 4096 && plan.Some? && from.Some? && head.Some?
      && AllAvailable(refs, sc.block, plan.value) && Unmoved(odb, from.value, head.value, plan.value.touched)
      && EditAll(odb, head.value, plan.value.ops).Some?
      && BuildRoot(sc, plan.value, EditAll(odb, head.value, plan.value.ops).value).Some?
  {
    hide Sweep, ViewOf, PlanAll, BaseNode, SnapshotNode, AllAvailable, Unmoved, EditAll, BuildRoot, SnapshotBlob;
  }

  // A commit is accepted exactly if its message and number of changes are in bounds, base and head can
  // be read, the changes make a plan, the chunks they list are known, no path they touch differs between
  // base and head, each edit is permitted where the ones before it leave the head's tree, and no
  // directory overflows.
  lemma AcceptedExactly(sc: Scene, h: Header, base: Option<Text>, changes: seq<Change>)
    ensures var (odb, ops, plan) := (ViewOf(sc), OpsOf(sc, changes), PlanAll(sc, h.who, changes));
      var edited := EditAll(odb, HeadTree(sc), ops);
      Decide(sc, h, base, changes).Some? <==>
      && |h.message| <= 4096 && 0 < |changes| <= 4096
      && BaseResolves(sc, Sweep(sc.block.refs, h.height), base)
      && (sc.block.refs.head.Some? ==> RootOf(odb, sc.block.refs.head.value).Some?)
      && (forall i :: 0 <= i < |changes| ==> ChangeRight(sc, h.who, changes[i]))
      && AllDistinct(AllTouched(ops)) && InlineTotal(changes) <= 262_144
      && plan.Some? && ChunksKnown(sc, h, plan.value, changes)
      && SameAt(odb, BaseTree(sc, base), HeadTree(sc), AllTouched(ops))
      && AllPermitted(odb, TreeOf(odb, HeadTree(sc)), ops)
      && edited.Some? && DirectoriesFit(edited.value)
  {
    hide *;
    var odb, ops := ViewOf(sc), OpsOf(sc, changes);
    DecideIs(sc, h, base, changes);
    PlansExactly(sc, h.who, changes);
    RunRefines(odb, HeadTree(sc), ops);
    BaseIs(sc, Sweep(sc.block.refs, h.height), base);
    HeadIs(sc, h.height);
    if PlanAll(sc, h.who, changes).Some? {
      var d := PlanAll(sc, h.who, changes).value;
      PlanIs(sc, h.who, changes);
      KnownIs(sc, h, d, changes);
      UnmovedIs(odb, BaseTree(sc, base), HeadTree(sc), d.touched);
      if EditAll(odb, HeadTree(sc), ops).Some? { RootBuilds(sc, d, EditAll(odb, HeadTree(sc), ops).value); }
    }
  }

  // ---- what a member's commit leaves alone ---------------------------------------------------------

  // Every path an accepted commit touches is one its sender may write.
  lemma {:induction false} TouchesOnlyAllowed(sc: Scene, who: Actors.Authority, changes: seq<Change>)
    requires forall i :: 0 <= i < |changes| ==> ChangeRight(sc, who, changes[i])
    ensures forall p :: p in AllTouched(OpsOf(sc, changes)) ==> Allowed(who, p)
    ensures forall i, p :: 0 <= i < |changes| && p in Touched(OpsOf(sc, changes)[i]) ==> Allowed(who, p)
    decreases |changes|
  {
    hide OpOf, ChangeRight, Allowed;
    if changes != [] {
      var front, last := changes[..|changes| - 1], changes[|changes| - 1];
      TouchesOnlyAllowed(sc, who, front);
      assert OpsOf(sc, changes)[..|changes| - 1] == OpsOf(sc, front);
      TouchedSplit(OpsOf(sc, changes));
      OneTouchesOnlyAllowed(sc, who, last);
      forall i, p | 0 <= i < |changes| && p in Touched(OpsOf(sc, changes)[i])
        ensures Allowed(who, p)
      {
        if i < |front| { assert OpsOf(sc, changes)[i] == OpsOf(sc, front)[i]; }
      }
    }
  }

  lemma OneTouchesOnlyAllowed(sc: Scene, who: Actors.Authority, change: Change)
    requires ChangeRight(sc, who, change)
    ensures forall p :: p in Touched(OpOf(sc, change)) ==> Allowed(who, p)
  {
    hide Allowed, EntryFor, FileFor, LinkFor, MetaFits, ContentRight;
  }

  lemma BelowMember(p: Path, q: Path)
    requires MemberPath(p) && p <= q
    ensures MemberPath(q)
  {
    assert p[0] == q[0];
  }

  lemma SameFirst(p: Path, q: Path)
    requires p != [] && q != [] && (p <= q || q <= p)
    ensures p[0] == q[0]
  {
  }

  // An edit of member paths leaves every other spot as it was, or makes a directory where nothing was.
  lemma OneEditOnlyOpens(odb: Odb, t: Tree, op: EditOp, q: Path)
    requires Permitted(t, op) && !MemberPath(q) && forall p :: p in Touched(op) ==> MemberPath(p)
    ensures Step(odb, t, op, q) == t(q) || (t(q) == Nothing && Step(odb, t, op, q) == Directory)
  {
    hide SpotAt;
    forall p | p in Touched(op)
      ensures !(p <= q)
    {
      if p <= q { BelowMember(p, q); }
    }
    if op.Mv? {
      assert op.from in Touched(op) && op.to in Touched(op);
    } else {
      assert op.path in Touched(op);
      if q <= op.path && q != op.path { assert op.path[..|q|] == q; }
    }
  }

  lemma {:induction false} EditsOnlyOpen(odb: Odb, t: Tree, ops: seq<EditOp>, q: Path)
    requires AllPermitted(odb, t, ops) && !MemberPath(q)
    requires forall i, p :: 0 <= i < |ops| && p in Touched(ops[i]) ==> MemberPath(p)
    ensures Replay(odb, t, ops)(q) == t(q) || (t(q) == Nothing && Replay(odb, t, ops)(q) == Directory)
    decreases |ops|
  {
    hide Permitted, Step, MemberPath, Touched;
    if ops != [] {
      var front := ops[..|ops| - 1];
      assert forall i :: 0 <= i < |front| ==> front[..i] == ops[..i] && front[i] == ops[i];
      EditsOnlyOpen(odb, t, front, q);
      OneEditOnlyOpens(odb, Replay(odb, t, front), ops[|ops| - 1], q);
    }
  }

  lemma ElsewhereIsApart(ops: seq<EditOp>, q: Path)
    requires q != [] && q[0] != [104, 111, 109, 101] && q[0] != [115, 104, 97, 114, 101, 100]
    requires forall i, p :: 0 <= i < |ops| && p in Touched(ops[i]) ==> MemberPath(p)
    ensures Apart(ops, q)
  {
    forall i, p | 0 <= i < |ops| && p in Touched(ops[i])
      ensures !(p <= q) && !(q <= p)
    {
      assert MemberPath(p);
      if p <= q || q <= p { SameFirst(p, q); }
    }
  }

  // A commit by anyone but the system touches nothing but paths below the homes and the shared root.
  // Anywhere else the new snapshot shows what the head showed, but for the homes and the root themselves,
  // which it may open; outside of both it holds the head's very entries.
  lemma MembersStayAtHome(sc: Scene, h: Header, base: Option<Text>, changes: seq<Change>, o: Outcome, after: Odb,
                          q: Path)
    requires SceneTrue(sc) && TypedHeader(h) && OptionalId(sc.block.refs.head)
    requires Decide(sc, h, base, changes) == Some(o) && Lands(sc, o, after) && q != []
    requires AllTyped(sc, changes) && h.who != Actors.OfSystem
    ensures forall p :: p in AllTouched(OpsOf(sc, changes)) ==> MemberPath(p)
    ensures var (odb, tree) := (ViewOf(sc), DirRef(o.root));
      !MemberPath(q) ==>
        var was := SpotAt(odb, o.head, q);
        && (was != Unknown && was != Sealed ==>
              SpotAt(after, tree, q) == was || (was == Nothing && SpotAt(after, tree, q) == Directory))
        && (q[0] !in {[104, 111, 109, 101], [115, 104, 97, 114, 101, 100]} && !LookAt(odb, o.head, q).Broken? ==>
              LookAt(after, tree, q) == LookAt(odb, o.head, q))
  {
    hide *;
    var odb, ops := ViewOf(sc), OpsOf(sc, changes);
    CommitIsExact(sc, h, base, changes, o, after, q);
    DecidedPlan(sc, h, base, changes);
    PlanIs(sc, h.who, changes);
    PlansExactly(sc, h.who, changes);
    TouchesOnlyAllowed(sc, h.who, changes);
    AllowedMembers(h.who);
    RunRefines(odb, o.head, ops);
    TreeIs(odb, o.head, q);
    if !MemberPath(q) {
      EditsOnlyOpen(odb, TreeOf(odb, o.head), ops, q);
      if q[0] != [104, 111, 109, 101] && q[0] != [115, 104, 97, 114, 101, 100] { ElsewhereIsApart(ops, q); }
    }
  }

  lemma TreeIs(odb: Odb, node: Node, q: Path)
    ensures TreeOf(odb, node)(q) == SpotAt(odb, node, q)
  {
    hide SpotAt;
  }

  lemma AllowedMembers(who: Actors.Authority)
    requires who != Actors.OfSystem
    ensures forall p :: Allowed(who, p) <==> MemberPath(p)
  {
    hide MemberPath;
  }

  // A plan carries every chunk its files name, to be taken out of staging, and ends with its snapshot.
  lemma PlanNames(sc: Scene, h: Header, base: Option<Text>, changes: seq<Change>, o: Outcome)
    requires Decide(sc, h, base, changes) == Some(o)
    ensures var plan := PlanOf(sc, o);
      && plan.references == AllNamed(sc, changes) && plan.objects != []
      && plan.snapshot == sc.env.hash(plan.objects[|plan.objects| - 1])
      && forall b :: b in o.draft.objects || b in o.built ==> b in plan.objects
  {
    hide Decide, AllNamed;
    DecidedPlan(sc, h, base, changes);
    PlansExactly(sc, h.who, changes);
  }

  // ---- what the snapshot says ----------------------------------------------------------------------

  lemma RootHasId(sc: Scene, h: Header, base: Option<Text>, changes: seq<Change>, o: Outcome)
    requires SceneTrue(sc) && Decide(sc, h, base, changes) == Some(o)
    ensures IsId(o.root)
  {
    hide ViewOf, EditAll, PlanAll, BaseNode, AllAvailable, Unmoved, SnapshotNode, SnapshotBlob, StageObject, Build;
    PlanIs(sc, h.who, changes);
    SceneTyped(sc);
    EditsAreMade(ViewOf(sc), o.head, o.draft.ops);
    if o.edited != Made(map[]) { BuiltId(sc.env.hash, o.edited); }
  }

  // The new snapshot, decoded from the store: its tree, the head it follows, who made it and when, and
  // the message.
  lemma SnapshotSays(sc: Scene, h: Header, base: Option<Text>, changes: seq<Change>, o: Outcome, after: Odb)
    requires SceneTrue(sc) && TypedHeader(h) && OptionalId(sc.block.refs.head)
    requires Decide(sc, h, base, changes) == Some(o) && Lands(sc, o, after)
    ensures var id := PlanOf(sc, o).snapshot;
      && id in after && after[id].kind == SnapshotKind
      && DecodeSnapshot(after[id].body)
         == Some(SnapshotObj(o.root, sc.block.refs.head, h.who.Actor(), h.time, h.height, h.message))
  {
    hide DecodeSnapshot, ViewOf, EditAll, PlanAll, BuildRoot, BaseNode, AllAvailable, Unmoved, SnapshotNode, Extends,
      TypedHeader, SnapshotBlob;
    RootHasId(sc, h, base, changes, o);
    hide SceneTrue;
    StoredOne(sc.env.hash, after, PlanOf(sc, o).objects, o.snapshot);
    SnapshotDecodes(h, o.root, sc.block.refs.head);
  }
}
