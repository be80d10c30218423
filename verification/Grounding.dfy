// What it takes for refs to be entire: everything they reach is there, is what its place demands,
// and every file among it can be read to its end (crates/duckfs/core/src/fs.rs:1402-1424,
// crates/duckfs/core/src/queries.rs:897-939).
module Grounding {
  import opened Wrappers
  import opened Texts
  import opened Kinds
  import opened Order
  import opened Sorting
  import opened Grammars
  import opened Layouts
  import opened Objects
  import opened RefsImage
  import opened Records
  import opened Collecting
  import opened TreeEdits
  import R = Reachability
  import D = Durability
  import Actors
  import Chunks

  // Every chunk the file names is a stored chunk, of the length its place demands; a file of no bytes
  // reads as none whatever it names.
  predicate FileReads(odb: Odb, f: FileObj) {
    && f.size < Chunks.U64_END && (f.size > 0 ==> Chunks.VerifyFileShape(f.size, |f.chunks|))
    && forall i :: 0 <= i < |f.chunks| ==> ChunkFits(odb, f.size, |f.chunks|, i, f.chunks[i])
  }

  predicate ChunkFits(odb: Odb, size: nat, count: nat, index: nat, id: Id)
    requires size < Chunks.U64_END
  {
    && id in odb && odb[id].kind == ChunkKind && |odb[id].body| < Chunks.U64_END
    && (size > 0 ==> Chunks.VerifyChunkLenAt(size, count, index, |odb[id].body|))
  }

  // The chunks at hand, as a read looks at them.
  function ChunksOf(odb: Odb): map<Id, Chunks.Stored> {
    map id | id in odb :: if odb[id].kind == ChunkKind then Chunks.Chunk(odb[id].body) else Chunks.Other
  }

  // So any range of such a file can be read: every chunk a read of it touches is intact.
  lemma EveryRangeReads(odb: Odb, f: FileObj, offset: Chunks.U64, len: Chunks.U64)
    requires FileReads(odb, f) && offset < f.size && len > 0
    ensures var end := Chunks.ReadEnd(f.size, offset, len);
      forall i :: offset / Chunks.CHUNK_SIZE <= i <= (end - 1) / Chunks.CHUNK_SIZE ==>
        Chunks.Intact(Chunks.Sized(f.size, f.chunks), ChunksOf(odb), i)
  {
    Chunks.ShapeIsExact(f.size, |f.chunks|);
    forall i | offset / Chunks.CHUNK_SIZE <= i <= (Chunks.ReadEnd(f.size, offset, len) - 1) / Chunks.CHUNK_SIZE
      ensures Chunks.Intact(Chunks.Sized(f.size, f.chunks), ChunksOf(odb), i)
    {
      assert i < |f.chunks|;
      assert ChunkFits(odb, f.size, |f.chunks|, i, f.chunks[i]);
    }
  }

  // Present, decodable as what it is reached as, a chunk where a chunk is meant, and readable
  // where it is a file.
  predicate Proper(odb: Odb, n: R.Node) {
    && n.id in odb && R.Sound(View(odb), n)
    && (n.role == R.AsChunk ==> odb[n.id].kind == ChunkKind)
    && (n.role == R.AsFile ==> DecodeFile(odb[n.id].body).Some? && FileReads(odb, DecodeFile(odb[n.id].body).value))
  }

  ghost function ReachedBy(odb: Odb, refs: Refs): set<R.Node> {
    R.Reached(View(odb), D.RootsOf(refs))
  }

  ghost predicate Entire(odb: Odb, refs: Refs) {
    && (forall n :: n in ReachedBy(odb, refs) ==> Proper(odb, n))
    && (forall d :: d in refs.staging ==> d in odb && |odb[d].body| == refs.staging[d].len)
  }

  // ---- what whole refs are worth ---------------------------------------------------------------------

  // Ids hash the kind, so in whole refs no id is reached as two things.
  lemma EntireIsUnconfused(odb: Odb, refs: Refs)
    requires Entire(odb, refs)
    ensures AllSound(View(odb), D.RootsOf(refs)) && R.Unconfused(ReachedBy(odb, refs))
  {
    hide R.Reached, D.RootsOf, View, Proper, R.Sound;
    forall n | n in ReachedBy(odb, refs)
      ensures R.Sound(View(odb), n) && n.id in odb && odb[n.id].kind == KindAs(n.role)
    {
      RoleIsKind(odb, n);
    }
  }

  function KindAs(role: R.Role): ObjectKind {
    match role
    case AsChunk => ChunkKind
    case AsFile => FileKind
    case AsTree => TreeKind
    case AsSnapshot => SnapshotKind
    case AsCatalogDir => TreeKind
    case AsCatalogRecord => FileKind
  }

  lemma RoleIsKind(odb: Odb, n: R.Node)
    requires Proper(odb, n)
    ensures n.id in odb && R.Sound(View(odb), n) && odb[n.id].kind == KindAs(n.role)
  {
    hide RecordOf, EntriesOf, DecodeTree, DecodeFile, DecodeSnapshot, FileReads;
  }

  // ---- growth ----------------------------------------------------------------------------------------

  // Whatever holds of the roots and passes from an object to what it leads to holds of everything
  // reached.
  lemma ReachedAll(store: R.Store, roots: R.Roots, holds: R.Node -> bool)
    requires forall n :: n in R.Ordinary(roots) + R.Catalog(roots) ==> holds(n)
    requires forall n, c :: holds(n) && c in R.Children(store, n) ==> holds(c)
    ensures forall n :: n in R.Reached(store, roots) ==> holds(n)
  {
    hide R.Reached, R.Children, R.Ordinary, R.Catalog;
    R.ReachedIsLeast(store, roots);
    var kept := set n | n in R.Reached(store, roots) && holds(n);
    assert R.Closed(store, kept) && R.Holds(kept, R.Ordinary(roots) + R.Catalog(roots));
  }

  // An object reads the same wherever more objects are at hand.
  lemma ProperStays(odb: Odb, after: Odb, n: R.Node)
    requires Extends(odb, after) && Proper(odb, n)
    ensures Proper(after, n) && R.Children(View(after), n) == R.Children(View(odb), n)
  {
    hide ObjectOf, DecodeFile, Extends;
    assert n.id in after && after[n.id] == odb[n.id] by { ExtendsAt(odb, after, n.id); }
    assert View(after)[n.id] == View(odb)[n.id];
    if n.role == R.AsFile {
      var f := DecodeFile(odb[n.id].body).value;
      forall i | 0 <= i < |f.chunks|
        ensures ChunkFits(after, f.size, |f.chunks|, i, f.chunks[i])
      {
        ExtendsAt(odb, after, f.chunks[i]);
      }
    }
  }

  lemma ExtendsAt(odb: Odb, after: Odb, id: Id)
    requires Extends(odb, after) && id in odb
    ensures id in after && after[id] == odb[id]
  {
  }

  // Refs that lead only to what was reached before and to new objects that are proper, and lead on to
  // no other, are entire.
  lemma GrowsEntire(odb: Odb, refs: Refs, after: Odb, grown: Refs, added: R.Node -> bool)
    requires Entire(odb, refs) && Extends(odb, after)
    requires forall n :: added(n) ==> Proper(after, n)
    requires forall n, c :: added(n) && c in R.Children(View(after), n) ==> added(c) || c in ReachedBy(odb, refs)
    requires forall n ::
        n in R.Ordinary(D.RootsOf(grown)) + R.Catalog(D.RootsOf(grown)) ==> added(n) || n in ReachedBy(odb, refs)
    requires forall d :: d in grown.staging ==> d in after && |after[d].body| == grown.staging[d].len
    ensures Entire(after, grown)
    ensures forall n :: n in ReachedBy(after, grown) ==> added(n) || n in ReachedBy(odb, refs)
  {
    hide R.Reached, R.Children, R.Ordinary, R.Catalog, D.RootsOf, View, Proper, Extends;
    var all := ReachedBy(odb, refs);
    R.ReachedIsLeast(View(odb), D.RootsOf(refs));
    forall n | n in all
      ensures Proper(after, n) && R.Children(View(after), n) == R.Children(View(odb), n)
    {
      ProperStays(odb, after, n);
    }
    ReachedAll(View(after), D.RootsOf(grown), n => added(n) || n in all);
  }

  // ---- what the refs hold on to -----------------------------------------------------------------------

  ghost predicate Rooted(refs: Refs, n: R.Node) {
    match n.role
    case AsSnapshot => refs.head == Some(n.id) || n.id in refs.window
        || exists name :: name in refs.pins && refs.pins[name].snapshot == n.id
    case AsChunk => n.id in refs.staging
    case AsTree => refs.retention == Some(n.id)
    case AsCatalogDir => refs.retention == Some(n.id)
    case _ => false
  }

  lemma RootsAre(refs: Refs)
    ensures forall n :: n in R.Ordinary(D.RootsOf(refs)) + R.Catalog(D.RootsOf(refs)) <==> Rooted(refs, n)
  {
    hide D.RootsOf, R.Ordinary, Rooted;
    forall n
      ensures n in R.Ordinary(D.RootsOf(refs)) + R.Catalog(D.RootsOf(refs)) <==> Rooted(refs, n)
    {
      RootIs(refs, n);
    }
  }

  lemma RootIs(refs: Refs, n: R.Node)
    ensures n in R.Ordinary(D.RootsOf(refs)) + R.Catalog(D.RootsOf(refs)) <==> Rooted(refs, n)
  {
    hide Sorted, Entries, TotalOrder, Below, R.AsAll;
    BelowIsTotal();
    var pins, staged := Entries(Below, refs.pins), Sorted(Below, refs.staging.Keys);
    PinsListed(refs.pins);
    SortedMeans(Below, refs.staging.Keys);
    ListsAll(staged);
    var roots := D.RootsOf(refs);
    InAll(R.AsSnapshot, if roots.head.Some? then [roots.head.value] else [], n);
    InAll(R.AsSnapshot, roots.window, n);
    InAll(R.AsSnapshot, roots.pins, n);
    InAll(R.AsChunk, roots.staging, n);
    hide R.Catalog;
    CatalogIs(roots, n);
    PinRoots(refs.pins, n.id);
  }

  lemma InAll(role: R.Role, ids: seq<Id>, n: R.Node)
    ensures n in R.AsAll(role, ids) <==> n.role == role && n.id in ids
  {
    if n.role == role && n.id in ids {
      var i :| 0 <= i < |ids| && ids[i] == n.id;
      assert R.AsAll(role, ids)[i] == n;
    }
  }

  lemma CatalogIs(roots: R.Roots, n: R.Node)
    ensures n in R.Catalog(roots) <==> (n.role == R.AsTree || n.role == R.AsCatalogDir) && roots.retention == Some(n.id)
  {
  }

  lemma PinRoots(pins: map<Text, Pin>, id: Id)
    requires TotalOrder(Below)
    ensures var list := Entries(Below, pins);
      id in seq(|list|, i requires 0 <= i < |list| => list[i].1.snapshot) <==>
          exists name :: name in pins && pins[name].snapshot == id
  {
    PinsListed(pins);
    hide Entries, TotalOrder, Below;
    var list := Entries(Below, pins);
    var ids := seq(|list|, i requires 0 <= i < |list| => list[i].1.snapshot);
    if id in ids {
      var i :| 0 <= i < |ids| && ids[i] == id;
      assert list[i].0 in pins;
    }
    if name :| name in pins && pins[name].snapshot == id {
      var i :| 0 <= i < |list| && list[i] == (name, pins[name]);
      assert ids[i] == id;
    }
  }

  lemma PinsListed(pins: map<Text, Pin>)
    requires TotalOrder(Below)
    ensures var list := Entries(Below, pins);
      && (forall i :: 0 <= i < |list| ==> list[i].0 in pins && list[i].1 == pins[list[i].0])
      && (forall name :: name in pins ==> exists i :: 0 <= i < |list| && list[i] == (name, pins[name]))
  {
    EntriesAreOf(Below, pins);
    CollectOfEntries(Below, pins);
    var list := Entries(Below, pins);
    CollectMeans(Below, list);
    hide Entries, Collect, TotalOrder, Below;
    forall name | name in pins
      ensures exists i :: 0 <= i < |list| && list[i] == (name, pins[name])
    {
      assert name in Elements(KeysOf(list));
      var i :| 0 <= i < |list| && KeysOf(list)[i] == name;
      assert list[i] == (name, pins[name]);
    }
  }

  lemma EmptyIsEntire()
    ensures Entire(map[], EMPTY_REFS)
  {
    hide R.Reached, R.Ordinary, R.Catalog, D.RootsOf, View, Proper;
    RootsAre(EMPTY_REFS);
    forall n
      ensures !Rooted(EMPTY_REFS, n)
    {
    }
    ReachedAll(View(map[]), D.RootsOf(EMPTY_REFS), n => false);
  }

  // ---- directories -----------------------------------------------------------------------------------

  function EntryNode(entry: TreeEntry): R.Node {
    R.Node(if entry.kind == Dir then R.AsTree else R.AsFile, entry.id)
  }

  lemma ViewOfTree(odb: Odb, id: Id)
    requires FetchTree(odb, id).Some?
    ensures id in odb && View(odb)[id] == R.TreeObject(Some(EntriesOf(TreeObj(FetchTree(odb, id).value))))
  {
    hide DecodeTree, EntriesOf;
  }

  lemma TreeChildren(store: R.Store, id: Id, list: seq<R.Entry>)
    requires id in store && store[id] == R.TreeObject(Some(list))
    ensures R.Sound(store, R.Node(R.AsTree, id)) && R.Children(store, R.Node(R.AsTree, id)) == R.TreeEdges(list)
  {
  }

  predicate IsEntry(entries: map<Text, TreeEntry>, name: Text, e: R.Entry) {
    name in entries && e == R.Entry(entries[name].kind, entries[name].id)
  }

  // A directory's names in listing order.
  function Listed(entries: map<Text, TreeEntry>): (names: seq<Text>)
    ensures forall name :: name in names <==> name in entries
  {
    BelowIsTotal();
    SortedMeans(Below, entries.Keys);
    ListsAll(Sorted(Below, entries.Keys));
    Sorted(Below, entries.Keys)
  }

  lemma ListedEntry(entries: map<Text, TreeEntry>, i: nat)
    requires i < |Listed(entries)|
    ensures i < |EntriesOf(TreeObj(entries))| && IsEntry(entries, Listed(entries)[i], EntriesOf(TreeObj(entries))[i])
  {
    hide Sorted;
  }

  lemma ListedLength(entries: map<Text, TreeEntry>)
    ensures |EntriesOf(TreeObj(entries))| == |Listed(entries)|
  {
    hide Sorted;
  }

  lemma EdgeOf(list: seq<R.Entry>, entries: map<Text, TreeEntry>, i: nat, name: Text)
    requires i < |list| && IsEntry(entries, name, list[i])
    ensures R.TreeEdges(list)[i] == EntryNode(entries[name])
  {
  }

  // A readable directory is a proper tree, and leads to just what it holds.
  lemma DirLeadsTo(odb: Odb, id: Id)
    requires FetchTree(odb, id).Some?
    ensures Proper(odb, R.Node(R.AsTree, id))
    ensures forall c :: c in R.Children(View(odb), R.Node(R.AsTree, id)) <==>
      exists name :: name in FetchTree(odb, id).value && c == EntryNode(FetchTree(odb, id).value[name])
  {
    hide FetchTree, EntriesOf, View, R.Children, R.Sound, R.TreeEdges, EntryNode, DecodeFile, FileReads, Listed;
    var entries := FetchTree(odb, id).value;
    var list, names := EntriesOf(TreeObj(entries)), Listed(entries);
    ViewOfTree(odb, id);
    TreeChildren(View(odb), id, list);
    ListedLength(entries);
    var kids := R.TreeEdges(list);
    forall i | 0 <= i < |names|
      ensures kids[i] == EntryNode(entries[names[i]])
    {
      ListedEntry(entries, i);
      EdgeOf(list, entries, i, names[i]);
    }
    forall c | c in kids
      ensures exists name :: name in entries && c == EntryNode(entries[name])
    {
      var i :| 0 <= i < |kids| && kids[i] == c;
      assert names[i] in names;
    }
    forall name | name in entries
      ensures EntryNode(entries[name]) in kids
    {
      var i :| 0 <= i < |names| && names[i] == name;
      assert kids[i] == EntryNode(entries[name]);
    }
  }

  // ---- files and snapshots -----------------------------------------------------------------------------

  lemma ViewOfFile(odb: Odb, id: Id, f: FileObj)
    requires id in odb && odb[id].kind == FileKind && DecodeFile(odb[id].body) == Some(f)
    ensures View(odb)[id] == R.FileObject(Some(R.FileView(f.chunks, RecordOf(f))))
  {
    hide DecodeFile, RecordOf;
  }

  lemma FileChildren(store: R.Store, id: Id, chunks: seq<Id>, record: Option<Id>)
    requires id in store && store[id] == R.FileObject(Some(R.FileView(chunks, record)))
    ensures R.Sound(store, R.Node(R.AsFile, id))
        && R.Children(store, R.Node(R.AsFile, id)) == R.AsAll(R.AsChunk, chunks)
  {
  }

  lemma FileIsProper(odb: Odb, id: Id, f: FileObj)
    requires id in odb && odb[id].kind == FileKind && DecodeFile(odb[id].body) == Some(f) && FileReads(odb, f)
    ensures Proper(odb, R.Node(R.AsFile, id))
  {
    hide DecodeFile, RecordOf, FileReads, View, R.Sound;
    ViewOfFile(odb, id, f);
    FileChildren(View(odb), id, f.chunks, RecordOf(f));
  }

  // A readable file leads to present chunks only.
  lemma FileLeadsTo(odb: Odb, id: Id)
    requires Proper(odb, R.Node(R.AsFile, id))
    ensures forall c :: c in R.Children(View(odb), R.Node(R.AsFile, id)) ==>
              c.role == R.AsChunk && c.id in odb && odb[c.id].kind == ChunkKind
  {
    RoleIsKind(odb, R.Node(R.AsFile, id));
    hide DecodeFile, RecordOf, View, R.Sound, R.AsAll;
    var f := DecodeFile(odb[id].body).value;
    ViewOfFile(odb, id, f);
    FileChildren(View(odb), id, f.chunks, RecordOf(f));
    forall c | c in R.AsAll(R.AsChunk, f.chunks)
      ensures c.role == R.AsChunk && c.id in odb && odb[c.id].kind == ChunkKind
    {
      InAll(R.AsChunk, f.chunks, c);
      var i :| 0 <= i < |f.chunks| && f.chunks[i] == c.id;
      assert ChunkFits(odb, f.size, |f.chunks|, i, f.chunks[i]);
    }
  }

  // `snapshot_root_tree`.
  function RootOf(odb: Odb, snapshot: Id): Option<Id> {
    if snapshot in odb && odb[snapshot].kind == SnapshotKind && DecodeSnapshot(odb[snapshot].body).Some?
    then Some(DecodeSnapshot(odb[snapshot].body).value.root) else None
  }

  lemma ViewOfSnapshot(odb: Odb, id: Id)
    requires id in odb && odb[id].kind == SnapshotKind
    ensures View(odb)[id] == R.SnapshotObject(RootOf(odb, id))
  {
    hide DecodeSnapshot;
  }

  lemma SnapshotChildren(store: R.Store, id: Id, root: Option<Id>)
    requires id in store && store[id] == R.SnapshotObject(root)
    ensures R.Sound(store, R.Node(R.AsSnapshot, id)) == root.Some?
    ensures root.Some? ==> R.Children(store, R.Node(R.AsSnapshot, id)) == [R.Node(R.AsTree, root.value)]
  {
  }

  lemma SnapshotLeadsTo(odb: Odb, id: Id)
    requires RootOf(odb, id).Some?
    ensures Proper(odb, R.Node(R.AsSnapshot, id))
    ensures R.Children(View(odb), R.Node(R.AsSnapshot, id)) == [R.Node(R.AsTree, RootOf(odb, id).value)]
  {
    hide View, R.Sound, R.Children, DecodeSnapshot, DecodeFile, FileReads;
    ViewOfSnapshot(odb, id);
    SnapshotChildren(View(odb), id, RootOf(odb, id));
  }

  lemma ProperSnapshot(odb: Odb, id: Id)
    requires Proper(odb, R.Node(R.AsSnapshot, id))
    ensures RootOf(odb, id).Some?
  {
    hide View, R.Sound, R.Children, RootOf, DecodeFile, FileReads;
    RoleIsKind(odb, R.Node(R.AsSnapshot, id));
    ViewOfSnapshot(odb, id);
    SnapshotChildren(View(odb), id, RootOf(odb, id));
  }

  lemma RootIsId(odb: Odb, id: Id)
    requires RootOf(odb, id).Some?
    ensures IsId(RootOf(odb, id).value)
  {
    hide DecodeSnapshot, Range, Utf8, Actors.Typed, Actors.Proper;
    var body := odb[id].body;
    var f: FileObj, t: TreeObj := FileObj(0, [], map[]), TreeObj(map[]);
    BodiesAreCanonical(body, f, t, DecodeSnapshot(body).value);
  }

  // ---- built trees -----------------------------------------------------------------------------------

  ghost function Hashes(hash: Hash, blobs: seq<Blob>): set<Id> {
    set b | b in blobs :: hash(b)
  }

  // A tree object whose entries are kept ones or others of these.
  ghost predicate Grown(hash: Hash, after: Odb, ids: set<Id>, ok: TreeEntry -> bool, id: Id) {
    FetchTree(after, id).Some? &&
    forall name :: name in FetchTree(after, id).value ==>
      var e := FetchTree(after, id).value[name]; ok(e) || (e.kind == Dir && e.id in ids)
  }

  // Building a good overlay adds only directories of good entries and of each other.
  lemma {:induction false} BuiltGrows(hash: Hash, node: Node, ok: TreeEntry -> bool, after: Odb)
    requires Build(hash, node).Some? && Good(node, ok) && Typed(hash) && forall e: TreeEntry :: ok(e) ==> Holdable(e)
    requires Stores(hash, after, Build(hash, node).value.1)
    ensures var (entry, blobs) := Build(hash, node).value;
      && (node.Made? ==> entry.kind == Dir && entry.id in Hashes(hash, blobs))
      && (forall b :: b in blobs ==> Grown(hash, after, Hashes(hash, blobs), ok, hash(b)))
    decreases node
  {
    hide Build, FetchTree, DirBlob;
    BuildRef(hash, node);
    if node.Made? {
      BuildUnfold(hash, node);
      var entries: map<Text, TreeEntry> :| BuiltDir(hash, node, entries) && OwnOrBelow(hash, node, entries);
      GoodIsFit(node, ok);
      BuiltReads(hash, node, entries, after);
      var (entry, blobs) := Build(hash, node).value;
      var ids := Hashes(hash, blobs);
      forall name | name in node.children
        ensures Build(hash, node.children[name]).Some? && ChildGrows(hash, node.children[name], ok, after)
        ensures Hashes(hash, Build(hash, node.children[name]).value.1) <= ids
      {
        StoresPart(hash, after, Build(hash, node.children[name]).value.1, blobs);
        BuiltGrows(hash, node.children[name], ok, after);
        BuildRef(hash, node.children[name]);
      }
      forall b | b in blobs
        ensures Grown(hash, after, ids, ok, hash(b))
      {
        if b == DirBlob(entries) {
          forall name: Text | name in entries
            ensures ok(entries[name]) || (entries[name].kind == Dir && entries[name].id in ids)
          {
            assert ChildGrows(hash, node.children[name], ok, after);
          }
        } else {
          var name :| FromChild(hash, node, name, b);
          assert ChildGrows(hash, node.children[name], ok, after);
        }
      }
    }
  }

  ghost predicate ChildGrows(hash: Hash, child: Node, ok: TreeEntry -> bool, after: Odb) {
    && Build(hash, child).Some?
    && (child.Ref? ==> ok(Build(hash, child).value.0))
    && (child.Made? ==>
          && Build(hash, child).value.0.kind == Dir
          && Build(hash, child).value.0.id in Hashes(hash, Build(hash, child).value.1))
    && forall b :: b in Build(hash, child).value.1 ==> Grown(hash, after, Hashes(hash, Build(hash, child).value.1), ok,
      hash(b))
  }

  lemma {:induction false} GoodIsFit(node: Node, ok: TreeEntry -> bool)
    requires Good(node, ok) && forall e: TreeEntry :: ok(e) ==> Holdable(e)
    ensures Fit(node)
    decreases node
  {
    hide Short;
    if node.Made? {
      forall name | name in node.children { GoodIsFit(node.children[name], ok); }
    }
  }

  // ---- a new snapshot --------------------------------------------------------------------------------

  // Entries a new tree may keep or take in: what was reached before, and files that can be read.
  ghost function Kept(odb: Odb, refs: Refs, after: Odb): TreeEntry -> bool {
    (e: TreeEntry) => Holdable(e)
        && (EntryNode(e) in ReachedBy(odb, refs) || (e.kind != Dir && Proper(after, EntryNode(e))))
  }

  lemma KeptIsHereditary(odb: Odb, refs: Refs, after: Odb)
    requires Entire(odb, refs)
    ensures Hereditary(odb, Kept(odb, refs, after))
  {
    hide R.Reached, R.Children, R.Ordinary, R.Catalog, D.RootsOf, View, Proper, FetchTree;
    R.ReachedIsLeast(View(odb), D.RootsOf(refs));
    forall e: TreeEntry, name | Kept(odb, refs, after)(e) && e.kind == Dir && FetchTree(odb, e.id).Some?
        && name in FetchTree(odb, e.id).value
      ensures Kept(odb, refs, after)(FetchTree(odb, e.id).value[name])
    {
      DirLeadsTo(odb, e.id);
      FetchFits(odb, e.id);
      assert EntryNode(e) in ReachedBy(odb, refs);
    }
  }

  lemma ChunksLeadNowhere(odb: Odb, id: Id)
    ensures R.Children(View(odb), R.Node(R.AsChunk, id)) == []
  {
    hide View;
  }

  // A snapshot whose tree is built of kept entries leaves everything in reach.
  lemma NewSnapshotEntire(hash: Hash, odb: Odb, refs: Refs, after: Odb, grown: Refs, root: Id, built: seq<Blob>,
          snapshot: Id)
    requires Entire(odb, refs) && Extends(odb, after) && RootOf(after, snapshot) == Some(root)
    requires forall b :: b in built ==> Grown(hash, after, Hashes(hash, built), Kept(odb, refs, after), hash(b))
    requires root in Hashes(hash, built) || R.Node(R.AsTree, root) in ReachedBy(odb, refs)
        || FetchTree(after, root) == Some(map[])
    requires forall n :: Rooted(grown, n) ==> n == R.Node(R.AsSnapshot, snapshot) || Rooted(refs, n)
    requires forall d :: d in grown.staging ==> d in refs.staging && grown.staging[d] == refs.staging[d]
    ensures Entire(after, grown)
  {
    var ids := Hashes(hash, built);
    var added := (n: R.Node) => Added(after, ids, root, snapshot, n);
    hide R.Reached, R.Children, R.Ordinary, R.Catalog, D.RootsOf, View, Proper, FetchTree, Rooted, RootOf, Extends,
      Added;
    RootsAre(refs);
    RootsAre(grown);
    R.ReachedIsLeast(View(odb), D.RootsOf(refs));
    forall n | added(n)
      ensures Proper(after, n) && forall c :: c in R.Children(View(after), n) ==> added(c) || c in ReachedBy(odb, refs)
    {
      AddedIsProper(hash, odb, refs, after, root, built, snapshot, n);
    }
    assert added(R.Node(R.AsSnapshot, snapshot)) by { SnapshotIsAdded(after, ids, root, snapshot); }
    forall d | d in grown.staging
      ensures d in after && |after[d].body| == grown.staging[d].len
    {
      ExtendsAt(odb, after, d);
    }
    GrowsEntire(odb, refs, after, grown, added);
  }

  ghost predicate Added(after: Odb, ids: set<Id>, root: Id, snapshot: Id, n: R.Node) {
    match n.role
    case AsChunk => n.id in after && after[n.id].kind == ChunkKind
    case AsFile => Proper(after, n)
    case AsTree => n.id in ids || (n.id == root && FetchTree(after, root) == Some(map[]))
    case AsSnapshot => n.id == snapshot
    case _ => false
  }

  lemma SnapshotIsAdded(after: Odb, ids: set<Id>, root: Id, snapshot: Id)
    ensures Added(after, ids, root, snapshot, R.Node(R.AsSnapshot, snapshot))
  {
  }

  lemma AddedIsProper(hash: Hash, odb: Odb, refs: Refs, after: Odb, root: Id, built: seq<Blob>, snapshot: Id, n: R.Node)
    requires RootOf(after, snapshot) == Some(root)
    requires forall b :: b in built ==> Grown(hash, after, Hashes(hash, built), Kept(odb, refs, after), hash(b))
    requires root in Hashes(hash, built) || R.Node(R.AsTree, root) in ReachedBy(odb, refs)
        || FetchTree(after, root) == Some(map[])
    requires Added(after, Hashes(hash, built), root, snapshot, n)
    ensures Proper(after, n)
    ensures forall c :: c in R.Children(View(after), n) ==>
              Added(after, Hashes(hash, built), root, snapshot, c) || c in ReachedBy(odb, refs)
  {
    hide R.Reached, R.Children, D.RootsOf, View, Proper, FetchTree, RootOf;
    match n.role
    case AsChunk =>
      ChunkIsProper(after, n.id);
      ChunksLeadNowhere(after, n.id);
    case AsFile => FileLeadsTo(after, n.id);
    case AsTree =>
      if n.id in Hashes(hash, built) {
        var b :| b in built && hash(b) == n.id;
        assert Grown(hash, after, Hashes(hash, built), Kept(odb, refs, after), hash(b));
      }
      DirLeadsTo(after, n.id);
    case AsSnapshot => SnapshotLeadsTo(after, snapshot);
    case _ =>
  }

  lemma ChunkIsProper(odb: Odb, id: Id)
    requires id in odb && odb[id].kind == ChunkKind
    ensures Proper(odb, R.Node(R.AsChunk, id))
  {
    hide ObjectOf;
  }
}
