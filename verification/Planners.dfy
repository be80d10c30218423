// The commit engine as it runs (crates/duckfs/core/src/fs.rs:1216-1557): one draft filled change by
// change, its checks as loops, and one tree edit replayed over the head.
module Planners {
  import opened Wrappers
  import opened Texts
  import opened Kinds
  import opened Objects
  import opened RefsImage
  import opened Records
  import opened Verbs
  import opened TreeEdits
  import opened Grounding
  import opened Commits
  import Actors
  import Chunks

  class Planner {
    const sc: Scene
    var objects: seq<Blob>
    var staged: map<Id, (ObjectKind, nat)>
    var ops: seq<EditOp>
    var touched: seq<Path>
    var references: seq<Id>
    var checks: seq<(nat, seq<Id>)>
    var inline: nat

    constructor (sc: Scene)
      ensures this.sc == sc && Now() == NOTHING_YET
    {
      this.sc := sc;
      objects, staged, ops, touched, references, checks, inline := [], map[], [], [], [], [], 0;
    }

    function Now(): Draft
      reads this
    {
      Draft(objects, staged, ops, touched, references, checks, inline)
    }

    method Stage(blob: Blob) returns (id: Id)
      modifies this
      ensures Now() == StageObject(sc, old(Now()), blob) && id == sc.env.hash(blob) && |old(objects)| <= |objects|
    {
      id := sc.env.hash(blob);
      if !(id in staged || id in sc.block.index || id in sc.committed) {
        objects, staged := objects + [blob], staged[id := (blob.kind, |blob.body|)];
      }
    }

    method StageChunks(pieces: seq<Text>) returns (ids: seq<Id>)
      modifies this
      ensures Now() == StageAll(sc, old(Now()), ChunkBlobs(pieces)) && ids == HashesOf(sc.env.hash, ChunkBlobs(pieces))
    {
      hide StageObject, ChunkBlobs, HashesOf;
      var n := 0;
      ids := [];
      ghost var blobs := ChunkBlobs(pieces);
      while n < |pieces|
        invariant n <= |pieces| && Now() == StageAll(sc, old(Now()), blobs[..n])
        invariant |ids| == n && forall i :: 0 <= i < n ==> ids[i] == sc.env.hash(blobs[i])
      {
        assert blobs[..n + 1][..n] == blobs[..n];
        var id := Stage(Blob(ChunkKind, pieces[n]));
        ids, n := ids + [id], n + 1;
      }
      assert blobs[..n] == blobs;
    }

    method ClaimPath(who: Actors.Authority, path: Text) returns (segments: Option<Path>)
      modifies this`touched
      ensures match Claim(sc, who, old(Now()), path)
        case None => segments == None
        case Some((path, claimed)) => segments == Some(path) && Now() == claimed
    {
      segments := sc.segments(path);
      if segments.None? || !MayWrite(who, segments.value) || segments.value in touched { return None; }
      touched := touched + [segments.value];
    }

    method TakeEntry(path: Path, kind: EntryKind, exec: bool, f: FileObj)
      modifies this
      ensures Now() == PlanEntry(sc, old(Now()), path, kind, exec, f)
    {
      hide StageObject, FileBlob;
      var id := Stage(FileBlob(f));
      references := references + f.chunks;
      ops := ops + [Put(path, TreeEntry(kind, id, exec, f.size))];
    }

    method TakeInline(path: Path, kind: EntryKind, exec: bool, meta: map<Text, Text>, size: nat, pieces: seq<Text>)
      modifies this
      ensures Now() == PlanInline(sc, old(Now()), path, kind, exec, meta, size, pieces)
    {
      hide StageAll, PlanEntry, ChunkBlobs, HashesOf;
      var ids := StageChunks(pieces);
      TakeEntry(path, kind, exec, FileObj(size, ids, meta));
    }

    method TakeFile(path: Path, exec: bool, meta: map<Text, Text>, content: Content) returns (ok: bool)
      modifies this
      ensures ok == PlanFile(sc, old(Now()), path, exec, meta, content).Some?
      ensures ok ==> Now() == PlanFile(sc, old(Now()), path, exec, meta, content).value
    {
      hide PlanEntry, PlanInline, ParseChunks, Chunks.Cut;
      ok := true;
      match content {
        case Inline(None) => ok := false;
        case Inline(Some(bytes)) =>
          if inline + |bytes| > MAX_INLINE_COMMIT_BYTES { return false; }
          inline := inline + |bytes|;
          TakeInline(path, File, exec, meta, |bytes|, Chunks.Cut(bytes));
        case ByChunks(size, chunks) =>
          var ids := ParseChunks(size, chunks);
          if ids.None? { return false; }
          checks := checks + [(size, ids.value)];
          TakeEntry(path, File, exec, FileObj(size, ids.value, meta));
      }
    }

    method TakeChange(who: Actors.Authority, change: Change) returns (ok: bool)
      modifies this
      ensures ok == PlanChange(sc, who, old(Now()), change).Some?
      ensures ok ==> Now() == PlanChange(sc, who, old(Now()), change).value
    {
      hide PlanFile, PlanInline, MetaFits, Claim;
      var path := if change.MovePath? then change.source else change.path;
      var segments := ClaimPath(who, path);
      if segments.None? { return false; }
      ok := true;
      match change {
        case PutFile(_, exec, meta, content) =>
          if !MetaFits(meta) { return false; }
          ok := TakeFile(segments.value, exec, meta, content);
        case MakeDirectory(_) => ops := ops + [Mkdir(segments.value)];
        case RemovePath(_) => ops := ops + [Rm(segments.value)];
        case MovePath(_, target) =>
          var end := ClaimPath(who, target);
          if end.None? { return false; }
          ops := ops + [Mv(segments.value, end.value)];
        case PutSymlink(_, target) =>
          if |target| > MAX_SYMLINK_TARGET_BYTES { return false; }
          TakeInline(segments.value, Symlink, false, map[], |target|, [target]);
      }
    }

    method TakeAll(who: Actors.Authority, changes: seq<Change>) returns (ok: bool)
      requires Now() == NOTHING_YET
      modifies this
      ensures ok == PlanAll(sc, who, changes).Some? && (ok ==> Now() == PlanAll(sc, who, changes).value)
    {
      hide PlanChange;
      var n := 0;
      while n < |changes|
        invariant n <= |changes| && PlanAll(sc, who, changes[..n]) == Some(Now())
      {
        assert changes[..n + 1][..n] == changes[..n];
        ok := TakeChange(who, changes[n]);
        if !ok {
          PlanStops(sc, who, changes, n + 1);
          return false;
        }
        n := n + 1;
      }
      assert changes[..n] == changes;
      ok := true;
    }

    // Every chunk a change names is one this block or the staging table knows, at its length.
    method CheckChunks(refs: Refs) returns (ok: bool)
      ensures ok == AllAvailable(refs, sc.block, Now())
    {
      hide Available;
      var k := 0;
      while k < |checks|
        invariant k <= |checks|
        invariant forall j, i ::
            0 <= j < k && 0 <= i < |checks[j].1| ==>
            Available(refs, sc.block, Now(), checks[j].0, |checks[j].1|, i, checks[j].1[i])
      {
        var (size, ids) := checks[k];
        var n := 0;
        while n < |ids|
          invariant n <= |ids|
          invariant forall i :: 0 <= i < n ==> Available(refs, sc.block, Now(), size, |ids|, i, ids[i])
        {
          var got := ChunkStat(refs, sc.block, Now(), ids[n]);
          var fits := got.Some? && got.value.Some? && Fits(size, |ids|, n, got.value.value);
          AvailableIs(refs, sc.block, Now(), size, |ids|, n, ids[n]);
          if !fits {
            assert !Available(refs, sc.block, Now(), checks[k].0, |checks[k].1|, n, checks[k].1[n]);
            return false;
          }
          n := n + 1;
        }
        k := k + 1;
      }
      ok := true;
    }

    // Nothing this commit touches has moved since its base.
    method CheckUnmoved(odb: Odb, base: Node, head: Node) returns (ok: bool)
      ensures ok == Unmoved(odb, base, head, touched)
    {
      hide EntryAt;
      var n := 0;
      while n < |touched|
        invariant n <= |touched|
        invariant forall i ::
            0 <= i < n ==>
              && !EntryAt(odb, base, touched[i]).Broken?
              && EntryAt(odb, base, touched[i]) == EntryAt(odb, head, touched[i])
      {
        var was, now := EntryAt(odb, base, touched[n]), EntryAt(odb, head, touched[n]);
        if was.Broken? || was != now { return false; }
        n := n + 1;
      }
      ok := true;
    }
  }

  predicate Fits(size: nat, count: nat, index: nat, len: nat) {
    size < Chunks.U64_END && len < Chunks.U64_END && Chunks.VerifyChunkLenAt(size, count, index, len)
  }

  lemma AvailableIs(refs: Refs, block: Block, d: Draft, size: nat, count: nat, index: nat, id: Id)
    ensures var got := ChunkStat(refs, block, d, id);
      Available(refs, block, d, size, count, index, id) <==>
          got.Some? && got.value.Some? && Fits(size, count, index, got.value.value)
  {
    hide ChunkStat, Chunks.VerifyChunkLenAt;
  }

  // A plan that stops half-way comes to nothing.
  lemma {:induction false} PlanStops(sc: Scene, who: Actors.Authority, changes: seq<Change>, n: nat)
    requires n <= |changes| && PlanAll(sc, who, changes[..n]).None?
    ensures PlanAll(sc, who, changes).None?
    decreases |changes| - n
  {
    hide PlanChange;
    if n == |changes| {
      assert changes[..n] == changes;
    } else {
      assert changes[..n + 1][..n] == changes[..n];
      PlanStops(sc, who, changes, n + 1);
    }
  }

  lemma {:induction false} RunStops(odb: Odb, root: Node, ops: seq<EditOp>, n: nat)
    requires n <= |ops| && EditAll(odb, root, ops[..n]).None?
    ensures EditAll(odb, root, ops).None?
    decreases |ops| - n
  {
    hide Edit;
    if n == |ops| {
      assert ops[..n] == ops;
    } else {
      assert ops[..n + 1][..n] == ops[..n];
      RunStops(odb, root, ops, n + 1);
    }
  }

  // The plan replayed onto one edit over the head.
  method ReplayPlan(edit: TreeEdit, ops: seq<EditOp>) returns (ok: bool)
    modifies edit
    ensures ok == EditAll(edit.odb, old(edit.root), ops).Some?
    ensures ok ==> EditAll(edit.odb, old(edit.root), ops) == Some(edit.root)
  {
    hide Edit, Permitted, Step, SpotAt, TreeOf;
    var n := 0;
    while n < |ops|
      invariant n <= |ops| && EditAll(edit.odb, old(edit.root), ops[..n]) == Some(edit.root)
    {
      assert ops[..n + 1][..n] == ops[..n];
      match ops[n] {
        case Put(path, entry) => ok := edit.PutEntry(path, entry);
        case Mkdir(path) => ok := edit.MakeDir(path);
        case Rm(path) => ok := edit.Remove(path);
        case Mv(from, to) => ok := edit.Move(from, to);
      }
      if !ok {
        RunStops(edit.odb, old(edit.root), ops, n + 1);
        return false;
      }
      n := n + 1;
    }
    assert ops[..n] == ops;
    ok := true;
  }

  // The whole commit: planned, checked, replayed and built, or refused with nothing to show.
  method Commit(sc: Scene, h: Header, base: Option<Text>, changes: seq<Change>) returns (outcome: Option<Outcome>)
    ensures outcome == Decide(sc, h, base, changes)
  {
    hide PlanAll, BaseNode, SnapshotNode, AllAvailable, Unmoved, EditAll, Build, StageObject, SnapshotBlob, Sweep,
      ViewOf, DirBlob;
    var refs, odb := Sweep(sc.block.refs, h.height), ViewOf(sc);
    if |h.message| > MAX_MESSAGE_BYTES || changes == [] || |changes| > MAX_CHANGES_PER_COMMIT { return None; }
    var from, head := BaseNode(sc.env, odb, refs, base), SnapshotNode(odb, refs.head);
    if from.None? || head.None? { return None; }
    var planner := new Planner(sc);
    var ok := planner.TakeAll(h.who, changes);
    if !ok { return None; }
    ok := planner.CheckChunks(refs);
    if !ok { return None; }
    ok := planner.CheckUnmoved(odb, from.value, head.value);
    if !ok { return None; }
    var d := planner.Now();
    HeadOpens(odb, refs.head);
    var edit := new TreeEdit(sc.env.hash, odb, if head.value.Ref? then Some(head.value.entry.id) else None);
    ok := ReplayPlan(edit, d.ops);
    if !ok { return None; }
    var edited := edit.root;
    var root, built := sc.env.hash(EMPTY_DIR), [];
    if edited == Made(map[]) {
      var _ := planner.Stage(EMPTY_DIR);
      built := planner.objects[|d.objects|..];
    } else if edited.Made? {
      var entry, pushed := edit.BuildDir(edited, []);
      if entry.None? { return None; }
      root, built := entry.value.id, pushed;
      NothingBefore(Build(sc.env.hash, edited).value.1);
    } else {
      root := edited.entry.id;
      BuildRef(sc.env.hash, edited);
    }
    outcome := Some(Outcome(d, from.value, head.value, edited, root, built, SnapshotBlob(h, root, refs.head)));
  }

  lemma HeadOpens(odb: Odb, snapshot: Option<Id>)
    requires SnapshotNode(odb, snapshot).Some?
    ensures var head := SnapshotNode(odb, snapshot).value;
        head == Opening(if head.Ref? then Some(head.entry.id) else None)
  {
    hide RootOf;
  }

  lemma NothingBefore(blobs: seq<Blob>)
    ensures [] + blobs == blobs
  {
  }
}
