// What keeping a snapshot is for: everything in it can be read
// (crates/duckfs/core/src/queries.rs:250-420, 902-939). Reachability is followed by the mark; this says
// that it covers whatever a reader can ask for.
module Readings {
  import opened Wrappers
  import opened Texts
  import opened Kinds
  import opened Objects
  import opened RefsImage
  import opened Records
  import opened TreeEdits
  import opened Grounding
  import opened Histories
  import Commits
  import Chunks
  import R = Reachability
  import D = Durability

  // A kept entry: a directory opens, and a file object is there, decodes and reads.
  lemma KeptOpens(odb: Odb, refs: Refs, e: TreeEntry)
    requires Entire(odb, refs) && Kept(odb, refs, odb)(e)
    ensures e.kind == Dir ==> FetchTree(odb, e.id).Some?
    ensures e.kind != Dir ==> e.id in odb && odb[e.id].kind == FileKind && DecodeFile(odb[e.id].body).Some?
                              && FileReads(odb, DecodeFile(odb[e.id].body).value)
  {
    hide R.Reached, D.RootsOf, View, R.Sound, DecodeFile, FileReads, FetchTree;
    assert Proper(odb, EntryNode(e));
    RoleIsKind(odb, EntryNode(e));
    if e.kind == Dir { ProperFetches(odb, e.id); }
  }

  lemma ProperFetches(odb: Odb, id: Id)
    requires id in odb && odb[id].kind == TreeKind && R.Sound(View(odb), R.Node(R.AsTree, id))
    ensures FetchTree(odb, id).Some?
  {
    hide DecodeTree, EntriesOf;
  }

  // Nothing on the way to any path of a kept tree is broken, and what is there is kept, too.
  lemma {:induction false} PathIsKept(odb: Odb, refs: Refs, e: TreeEntry, q: Path)
    requires Entire(odb, refs) && Kept(odb, refs, odb)(e)
    ensures var look := LookAt(odb, Ref(e), q);
      !look.Broken? && (look.Found? ==> look.node.Ref? && Kept(odb, refs, odb)(look.node.entry))
    decreases |q|
  {
    hide Entire, Kept, FetchTree, FileReads, DecodeFile;
    if q != [] && e.kind == Dir {
      KeptOpens(odb, refs, e);
      KeptIsHereditary(odb, refs, odb);
      var entries := FetchTree(odb, e.id).value;
      RefsAre(entries);
      if q[0] in entries { PathIsKept(odb, refs, entries[q[0]], q[1..]); }
    }
  }

  lemma RefsAre(entries: map<Text, TreeEntry>)
    ensures TreeEdits.Refs(entries).Keys == entries.Keys
    ensures forall name :: name in entries ==> TreeEdits.Refs(entries)[name] == Ref(entries[name])
  {
  }

  // Of a snapshot the refs reach: it resolves, no path of it is broken, and every file found on one can be
  // read over any range.
  lemma SnapshotReads(hash: Hash, odb: Odb, refs: Refs, id: Id, q: Path, offset: Chunks.U64, len: Chunks.U64)
    requires Entire(odb, refs) && Hashed(hash, odb) && TreeEdits.Typed(hash)
    requires R.Node(R.AsSnapshot, id) in ReachedBy(odb, refs)
    ensures RootOf(odb, id).Some?
    ensures var look := LookAt(odb, DirRef(RootOf(odb, id).value), q);
      && !look.Broken? && (look.Found? ==> look.node.Ref?)
      && (look.Found? && look.node.entry.kind != Dir ==> FileIsThere(odb, look.node.entry.id, offset, len))
  {
    hide R.Reached, D.RootsOf, View, R.Sound, R.Children, FileReads, DecodeFile, RootOf, LookAt, Kept, FileIsThere;
    ProperSnapshot(odb, id);
    assert Commits.SnapshotNode(odb, Some(id)) == Some(DirRef(RootOf(odb, id).value));
    Commits.SnapshotIsGood(hash, odb, refs, odb, Some(id));
    var e := TreeEntry(Dir, RootOf(odb, id).value, false, 0);
    PathIsKept(odb, refs, e, q);
    var look := LookAt(odb, Ref(e), q);
    if look.Found? && look.node.entry.kind != Dir {
      KeptOpens(odb, refs, look.node.entry);
      ThereIfItReads(odb, look.node.entry.id, offset, len);
    }
  }

  // The file object decodes, and every chunk a read of this range touches is intact.
  ghost predicate FileIsThere(odb: Odb, id: Id, offset: Chunks.U64, len: Chunks.U64) {
    && id in odb && odb[id].kind == FileKind && DecodeFile(odb[id].body).Some?
    && var f := DecodeFile(odb[id].body).value;
      && f.size < Chunks.U64_END
      && (offset < f.size && len > 0 ==>
            var end := Chunks.ReadEnd(f.size, offset, len);
            forall i :: offset / Chunks.CHUNK_SIZE <= i <= (end - 1) / Chunks.CHUNK_SIZE ==>
              Chunks.Intact(Chunks.Sized(f.size, f.chunks), ChunksOf(odb), i))
  }

  lemma ThereIfItReads(odb: Odb, id: Id, offset: Chunks.U64, len: Chunks.U64)
    requires id in odb && odb[id].kind == FileKind && DecodeFile(odb[id].body).Some?
    requires FileReads(odb, DecodeFile(odb[id].body).value)
    ensures FileIsThere(odb, id, offset, len)
  {
    hide DecodeFile, ChunksOf, Chunks.Intact, Chunks.ReadEnd;
    var f := DecodeFile(odb[id].body).value;
    if offset < f.size && len > 0 { EveryRangeReads(odb, f, offset, len); }
  }

  // After every history from an empty node, sweeps included: whatever snapshot the committed refs still
  // reach - head, window, pins and catalog alike - every file at every path of it can be read, any range
  // of it.
  lemma EverySnapshotReads(w: World, events: seq<Event>, id: Id, q: Path, offset: Chunks.U64, len: Chunks.U64)
    requires WorldTrue(w) && AllWelcomed(w, BLANK_NODE, events)
    requires var l := Run(w, BLANK_NODE, events); R.Node(R.AsSnapshot, id) in ReachedBy(l.store, l.s.refs)
    ensures var store := Run(w, BLANK_NODE, events).store;
      && RootOf(store, id).Some?
      && var look := LookAt(store, DirRef(RootOf(store, id).value), q);
        && !look.Broken? && (look.Found? ==> look.node.Ref?)
        && (look.Found? && look.node.entry.kind != Dir ==> FileIsThere(store, look.node.entry.id, offset, len))
  {
    hide *;
    var l := Run(w, BLANK_NODE, events);
    EveryHistoryHolds(w, events);
    BlankHolds(w);
    HistoryKeeps(w, BLANK_NODE, events);
    StoreIsHashed(w, l);
    SnapshotReads(w.hash, l.store, l.s.refs, id, q, offset, len);
  }

  lemma StoreIsHashed(w: World, l: Ledger)
    requires WorldTrue(w) && Holds(w, l)
    ensures TreeEdits.Typed(w.hash) && Hashed(w.hash, l.store)
  {
    hide Settled, Indexes, AllAtHand, PathFits;
  }

  // The head, the window and the pins are among the snapshots reached.
  lemma NamedAreReached(odb: Odb, refs: Refs, id: Id)
    requires refs.head == Some(id) || id in refs.window
        || exists name :: name in refs.pins && refs.pins[name].snapshot == id
    ensures R.Node(R.AsSnapshot, id) in ReachedBy(odb, refs)
  {
    hide R.Reached, R.Ordinary, R.Catalog, D.RootsOf, View;
    RootsAre(refs);
    R.ReachedIsLeast(View(odb), D.RootsOf(refs));
    assert Rooted(refs, R.Node(R.AsSnapshot, id));
  }
}
