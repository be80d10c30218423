// What the retention catalog keeps in reach (crates/duckfs/core/src/gc.rs:146-196,
// crates/duckfs/core/src/retention.rs:125-319): the snapshots its records name, at no more than the
// depth the reachability walk goes down.
module CatalogReach {
  import opened Wrappers
  import opened Texts
  import opened Kinds
  import opened Grammars
  import opened Objects
  import opened RefsImage
  import opened Records
  import opened TreeEdits
  import opened Grounding
  import opened Catalogs
  import Actors
  import Collecting
  import Marking
  import Retention
  import R = Reachability
  import D = Durability

  // ---- depth -------------------------------------------------------------------------------------------

  lemma CatalogEdge(list: seq<R.Entry>, entries: map<Text, TreeEntry>, i: nat, name: Text)
    requires i < |list| && IsEntry(entries, name, list[i])
    ensures R.CatalogEdges(list)[i] == CatalogNode(entries[name])
  {
  }

  function CatalogNode(entry: TreeEntry): R.Node {
    R.Node(if entry.kind == Dir then R.AsCatalogDir else R.AsCatalogRecord, entry.id)
  }

  // The catalog walk goes on to just what a directory holds.
  lemma CatalogLeadsTo(odb: Odb, id: Id)
    requires FetchTree(odb, id).Some?
    ensures forall c :: c in R.CatalogChildren(View(odb), R.Node(R.AsCatalogDir, id)) <==>
      exists name :: name in FetchTree(odb, id).value && c == CatalogNode(FetchTree(odb, id).value[name])
  {
    hide FetchTree, EntriesOf, View, R.CatalogEdges, CatalogNode, Listed;
    var entries := FetchTree(odb, id).value;
    var list, names := EntriesOf(TreeObj(entries)), Listed(entries);
    ViewOfTree(odb, id);
    ListedLength(entries);
    var kids := R.CatalogEdges(list);
    forall i | 0 <= i < |names|
      ensures kids[i] == CatalogNode(entries[names[i]])
    {
      ListedEntry(entries, i);
      CatalogEdge(list, entries, i, names[i]);
    }
    forall c | c in kids
      ensures exists name :: name in entries && c == CatalogNode(entries[name])
    {
      var i :| 0 <= i < |kids| && kids[i] == c;
      assert names[i] in names;
    }
    forall name | name in entries
      ensures CatalogNode(entries[name]) in kids
    {
      var i :| 0 <= i < |names| && names[i] == name;
      assert kids[i] == CatalogNode(entries[name]);
    }
  }

  lemma NoTreeNoChildren(odb: Odb, id: Id)
    requires id in odb && FetchTree(odb, id).None?
    ensures R.CatalogChildren(View(odb), R.Node(R.AsCatalogDir, id)) == []
  {
    hide DecodeTree, EntriesOf;
  }

  // Every link of a chain is an entry, as deep in the tree as in the chain.
  ghost predicate Sits(odb: Odb, root: Id, path: Path, n: R.Node) {
    && LookAt(odb, DirRef(root), path).Found? && LookAt(odb, DirRef(root), path).node.Ref?
    && CatalogNode(LookAt(odb, DirRef(root), path).node.entry) == n
  }

  lemma {:induction false} ChainSits(odb: Odb, root: Id, chain: seq<R.Node>)
    requires Collecting.Chain(View(odb), root, chain)
    ensures exists path: Path :: |path| == |chain| - 1 && Sits(odb, root, path, chain[|chain| - 1])
    decreases |chain|
  {
    hide LookAt, R.CatalogChildren, View, FetchTree;
    if |chain| == 1 {
      LookNone(odb, DirRef(root));
      assert Sits(odb, root, [], chain[0]);
    } else {
      var front, n, last := chain[..|chain| - 1], chain[|chain| - 2], chain[|chain| - 1];
      FrontIsChain(View(odb), root, chain);
      ChainSits(odb, root, front);
      var path: Path :| |path| == |front| - 1 && Sits(odb, root, path, n);
      SitsBelow(odb, root, path, n, last);
      var name :| Sits(odb, root, path + [name], last);
      assert |path + [name]| == |chain| - 1;
    }
  }

  lemma FrontIsChain(store: R.Store, root: Id, chain: seq<R.Node>)
    requires Collecting.Chain(store, root, chain) && |chain| > 1
    ensures Collecting.Chain(store, root, chain[..|chain| - 1])
    ensures var n := chain[|chain| - 2];
        R.Sound(store, n) && n.role == R.AsCatalogDir && chain[|chain| - 1] in R.CatalogChildren(store, n)
  {
    hide R.CatalogChildren;
    var front, i := chain[..|chain| - 1], |chain| - 2;
    assert R.Sound(store, chain[i]) && chain[i].role == R.AsCatalogDir
        && chain[i + 1] in R.CatalogChildren(store, chain[i]);
  }

  lemma SitsBelow(odb: Odb, root: Id, path: Path, n: R.Node, last: R.Node)
    requires Sits(odb, root, path, n) && n.role == R.AsCatalogDir && n.id in odb
        && last in R.CatalogChildren(View(odb), n)
    ensures exists name: Text :: Sits(odb, root, path + [name], last)
  {
    hide LookAt, R.CatalogChildren, View, FetchTree;
    if FetchTree(odb, n.id).None? { NoTreeNoChildren(odb, n.id); }
    CatalogLeadsTo(odb, n.id);
    var entry := LookAt(odb, DirRef(root), path).node.entry;
    var name :| name in FetchTree(odb, n.id).value && last == CatalogNode(FetchTree(odb, n.id).value[name]);
    LookFurther(odb, DirRef(root), path, [name]);
    StoredUnfold(odb, entry, [name]);
    LookNone(odb, Ref(FetchTree(odb, n.id).value[name]));
    var rest: Path := [name];
    assert rest[1..] == [];
    assert Sits(odb, root, path + [name], last);
  }

  // A tree that shows a catalog is within the depth of the walk.
  lemma CatalogIsShallow(odb: Odb, refs: Refs, catalog: Catalog)
    requires Represents(odb, refs.retention, catalog)
    ensures Collecting.Shallow(View(odb), D.RootsOf(refs))
  {
    hide LookAt, RecordIn, PathOf, IsPlace, View, TreeEdits.Open, D.RootsOf, Collecting.Chain;
    RetentionRoot(refs);
    if refs.retention.Some? {
      var root := refs.retention.value;
      forall chain | Collecting.Chain(View(odb), root, chain)
        ensures |chain| <= Marking.CATALOG_DEPTH + 1
      {
        ChainIsNotEmpty(View(odb), root, chain);
        ChainSits(odb, root, chain);
        var path: Path :| |path| == |chain| - 1 && Sits(odb, root, path, chain[|chain| - 1]);
        assert SpreadAt(path, SpotAt(odb, DirRef(root), path));
        DeepestPlace(path, SpotAt(odb, DirRef(root), path));
      }
    }
  }

  lemma ChainIsNotEmpty(store: R.Store, root: Id, chain: seq<R.Node>)
    requires Collecting.Chain(store, root, chain)
    ensures chain != []
  {
  }

  lemma RetentionRoot(refs: Refs)
    ensures D.RootsOf(refs).retention == refs.retention
  {
  }

  lemma DeepestPlace(q: Path, spot: Spot)
    requires SpreadAt(q, spot) && spot != Nothing
    ensures |q| <= RECORD_DEPTH
  {
    hide PathOf, IsPlace;
    if spot.Leaf? {
      var place :| IsPlace(place) && PathOf(place) == q;
      ShardsFit(place);
    }
  }

  // ---- records -----------------------------------------------------------------------------------------

  // A stored record of a snapshot in reach.
  ghost predicate Vouched(odb: Odb, reach: set<R.Node>, id: Id) {
    && id in odb && odb[id].kind == FileKind && DecodeFile(odb[id].body).Some?
    && DecodeRecord(DecodeFile(odb[id].body).value).Some?
    && R.Node(R.AsSnapshot, RecordOf(DecodeFile(odb[id].body).value).value) in reach
  }

  function RecordView(f: FileObj): R.FileView {
    R.FileView(f.chunks, RecordOf(f))
  }

  lemma RecordChildren(store: R.Store, id: Id, snapshot: Id)
    requires id in store && store[id] == R.FileObject(Some(R.FileView([], Some(snapshot))))
    ensures var n := R.Node(R.AsCatalogRecord, id);
      R.Sound(store, n) && R.Children(store, n) == [R.Node(R.AsFile, id), R.Node(R.AsSnapshot, snapshot)]
  {
  }

  lemma RecordShape(f: FileObj)
    requires DecodeRecord(f).Some?
    ensures f.size == 0 && f.chunks == [] && RecordOf(f).Some?
  {
    RecordsAgree(f);
    hide FromHex32, PositiveNumber;
  }

  // A vouched record is proper, as a record and as the file it is.
  lemma VouchedLeadsTo(odb: Odb, reach: set<R.Node>, id: Id)
    requires Vouched(odb, reach, id)
    ensures Proper(odb, R.Node(R.AsCatalogRecord, id)) && Proper(odb, R.Node(R.AsFile, id))
    ensures R.Children(View(odb), R.Node(R.AsFile, id)) == []
    ensures forall c :: c in R.Children(View(odb), R.Node(R.AsCatalogRecord, id)) ==>
              c == R.Node(R.AsFile, id) || c in reach
  {
    hide View, R.Children, R.Sound, DecodeFile, DecodeRecord, RecordOf;
    var f := DecodeFile(odb[id].body).value;
    RecordShape(f);
    ViewOfFile(odb, id, f);
    RecordChildren(View(odb), id, RecordOf(f).value);
    assert FileReads(odb, f);
    FileIsProper(odb, id, f);
    FileChildren(View(odb), id, [], RecordOf(f));
  }

  lemma SoundRecord(store: R.Store, id: Id)
    requires R.Sound(store, R.Node(R.AsCatalogRecord, id))
    ensures store[id].FileObject? && store[id].file.Some? && store[id].file.value.chunks == []
        && store[id].file.value.record.Some?
  {
  }

  lemma ViewIsFile(odb: Odb, id: Id)
    requires id in odb && View(odb)[id].FileObject? && View(odb)[id].file.Some?
    ensures odb[id].kind == FileKind && DecodeFile(odb[id].body).Some?
    ensures View(odb)[id].file.value == RecordView(DecodeFile(odb[id].body).value)
  {
    hide DecodeFile, DecodeTree, DecodeSnapshot, RecordOf;
  }

  // A record in reach keeps its snapshot in reach.
  lemma ReachedRecord(odb: Odb, refs: Refs, id: Id)
    requires Entire(odb, refs) && R.Node(R.AsCatalogRecord, id) in ReachedBy(odb, refs)
    ensures Vouched(odb, ReachedBy(odb, refs), id)
  {
    hide R.Reached, R.Children, R.Ordinary, R.Catalog, D.RootsOf, View, R.Sound, DecodeFile, DecodeRecord, RecordOf,
      FileReads;
    var n := R.Node(R.AsCatalogRecord, id);
    R.ReachedIsLeast(View(odb), D.RootsOf(refs));
    assert Proper(odb, n);
    SoundRecord(View(odb), id);
    ViewIsFile(odb, id);
    var f := DecodeFile(odb[id].body).value;
    RecordsAgree(f);
    RecordChildren(View(odb), id, RecordOf(f).value);
    assert R.Node(R.AsSnapshot, RecordOf(f).value) in R.Children(View(odb), n);
  }

  // ---- the entries a catalog may hold ------------------------------------------------------------------

  // Directories in reach as the catalog's, and records of snapshots in reach.
  ghost function Held(odb: Odb, refs: Refs, store: Odb): TreeEntry -> bool {
    (e: TreeEntry) =>
      && Holdable(e) && e.kind != Symlink
      && (e.kind == Dir ==>
        R.Node(R.AsCatalogDir, e.id) in ReachedBy(odb, refs) && R.Node(R.AsTree, e.id) in ReachedBy(odb, refs))
      && (e.kind == File ==> Vouched(store, ReachedBy(odb, refs), e.id))
  }

  lemma VouchedStays(odb: Odb, store: Odb, reach: set<R.Node>, id: Id)
    requires Extends(odb, store) && Vouched(odb, reach, id)
    ensures Vouched(store, reach, id)
  {
    hide DecodeFile, DecodeRecord, RecordOf;
  }

  lemma DirChildren(store: R.Store, id: Id)
    requires R.Sound(store, R.Node(R.AsCatalogDir, id))
    ensures store[id].TreeObject? && store[id].entries.Some?
    ensures R.Children(store, R.Node(R.AsCatalogDir, id)) == [R.Node(R.AsTree, id)]
        + R.CatalogChildren(store, R.Node(R.AsCatalogDir, id))
    ensures forall i :: 0 <= i < |store[id].entries.value| ==> store[id].entries.value[i].kind != Symlink
  {
  }

  lemma NoSymlinks(odb: Odb, id: Id, name: Text)
    requires FetchTree(odb, id).Some? && name in FetchTree(odb, id).value
        && R.Sound(View(odb), R.Node(R.AsCatalogDir, id))
    ensures FetchTree(odb, id).value[name].kind != Symlink
  {
    hide FetchTree, EntriesOf, View, R.Sound, Listed;
    var entries := FetchTree(odb, id).value;
    ViewOfTree(odb, id);
    DirChildren(View(odb), id);
    ListedLength(entries);
    var i :| 0 <= i < |Listed(entries)| && Listed(entries)[i] == name;
    ListedEntry(entries, i);
  }

  lemma CatalogDirReaches(odb: Odb, refs: Refs, id: Id, name: Text)
    requires Entire(odb, refs) && R.Node(R.AsCatalogDir, id) in ReachedBy(odb, refs)
    requires FetchTree(odb, id).Some? && name in FetchTree(odb, id).value
    ensures FetchTree(odb, id).value[name].kind != Symlink
    ensures CatalogNode(FetchTree(odb, id).value[name]) in ReachedBy(odb, refs)
  {
    hide R.Reached, R.Children, R.Ordinary, R.Catalog, D.RootsOf, View, FetchTree, R.Sound, R.CatalogChildren,
      FileReads;
    R.ReachedIsLeast(View(odb), D.RootsOf(refs));
    var n := R.Node(R.AsCatalogDir, id);
    assert Proper(odb, n);
    DirChildren(View(odb), id);
    CatalogLeadsTo(odb, id);
    NoSymlinks(odb, id, name);
    assert CatalogNode(FetchTree(odb, id).value[name]) in R.Children(View(odb), n);
  }

  // A catalog directory in reach is in reach as a plain tree, too.
  lemma CatalogDirIsTree(odb: Odb, refs: Refs, id: Id)
    requires Entire(odb, refs) && R.Node(R.AsCatalogDir, id) in ReachedBy(odb, refs)
    ensures R.Node(R.AsTree, id) in ReachedBy(odb, refs)
  {
    hide R.Reached, R.Children, R.Ordinary, R.Catalog, D.RootsOf, View, R.Sound, R.CatalogChildren, FileReads;
    R.ReachedIsLeast(View(odb), D.RootsOf(refs));
    assert Proper(odb, R.Node(R.AsCatalogDir, id));
    DirChildren(View(odb), id);
    assert R.Node(R.AsTree, id) in R.Children(View(odb), R.Node(R.AsCatalogDir, id));
  }

  lemma HeldIsHereditary(odb: Odb, refs: Refs, store: Odb)
    requires Entire(odb, refs) && Extends(odb, store)
    ensures Hereditary(odb, Held(odb, refs, store))
  {
    hide ReachedBy, FetchTree, Vouched, Entire, Extends, Short;
    forall e: TreeEntry, name | Held(odb, refs, store)(e) && e.kind == Dir && FetchTree(odb, e.id).Some?
        && name in FetchTree(odb, e.id).value
      ensures Held(odb, refs, store)(FetchTree(odb, e.id).value[name])
    {
      var below := FetchTree(odb, e.id).value[name];
      FetchFits(odb, e.id);
      CatalogDirReaches(odb, refs, e.id, name);
      if below.kind == Dir {
        CatalogDirIsTree(odb, refs, below.id);
      } else {
        ReachedRecord(odb, refs, below.id);
        VouchedStays(odb, store, ReachedBy(odb, refs), below.id);
      }
    }
  }

  lemma RootIsHeld(hash: Hash, odb: Odb, refs: Refs, store: Odb)
    requires Entire(odb, refs) && Hashed(hash, odb) && TreeEdits.Typed(hash)
    ensures Good(Opening(refs.retention), Held(odb, refs, store))
    ensures refs.retention.Some? ==> IsId(refs.retention.value)
  {
    hide R.Reached, R.Ordinary, R.Catalog, D.RootsOf, View, R.Sound, FileReads, Vouched;
    OpeningWidth();
    if refs.retention.Some? {
      var id := refs.retention.value;
      RootsAre(refs);
      R.ReachedIsLeast(View(odb), D.RootsOf(refs));
      assert Rooted(refs, R.Node(R.AsCatalogDir, id)) && Rooted(refs, R.Node(R.AsTree, id));
      assert Proper(odb, R.Node(R.AsTree, id));
      assert hash(odb[id]) == id;
    }
  }

  lemma OpeningWidth()
    ensures 0 < Range(8)
  {
    Lengths();
  }

  // What stands at a place is a held entry, so the snapshot of a record read is in reach.
  lemma ReadIsReached(hash: Hash, odb: Odb, refs: Refs, place: Place)
    requires Entire(odb, refs) && Hashed(hash, odb) && TreeEdits.Typed(hash)
    requires ReadRecord(odb, Opening(refs.retention), place).Some?
        && ReadRecord(odb, Opening(refs.retention), place).value.Some?
    ensures var record := ReadRecord(odb, Opening(refs.retention), place).value.value;
      SnapshotOf(record).Some? && R.Node(R.AsSnapshot, SnapshotOf(record).value) in ReachedBy(odb, refs)
  {
    hide ReachedBy, Entire, LookAt, DecodeFile, DecodeRecord, PathOf, TreeEdits.Open, Short, RecordOf, Hereditary;
    var root, path := Opening(refs.retention), PathOf(place);
    RootIsHeld(hash, odb, refs, odb);
    assert Extends(odb, odb);
    HeldIsHereditary(odb, refs, odb);
    LookIsGood(odb, root, path, Held(odb, refs, odb));
    var entry := LookAt(odb, root, path).node.entry;
    assert Held(odb, refs, odb)(entry);
    var f := DecodeFile(odb[entry.id].body).value;
    RecordsAgree(f);
  }

  // ---- an exchange keeps everything in reach -----------------------------------------------------------

  lemma NewRecordIsHeld(hash: Hash, odb: Odb, refs: Refs, store: Odb, record: Record)
    requires Sane(record) && TreeEdits.Typed(hash)
    requires hash(RecordBlob(record)) in store && store[hash(RecordBlob(record))] == RecordBlob(record)
    requires SnapshotOf(record).Some? && R.Node(R.AsSnapshot, SnapshotOf(record).value) in ReachedBy(odb, refs)
    ensures Held(odb, refs, store)(RecordEntry(hash, record))
  {
    hide ReachedBy, FileOf, EncodeFile, DecodeFile, DecodeRecord, RecordOf, FileFits, Sane, SnapshotOf;
    RecordFits(record);
    RecordReads(record);
    RecordsAgree(FileOf(record));
    RecordDecodes(record);
    OpeningWidth();
  }

  lemma RecordDecodes(record: Record)
    requires FileFits(FileOf(record))
    ensures RecordBlob(record).kind == FileKind && DecodeFile(RecordBlob(record).body) == Some(FileOf(record))
  {
    hide FileFits, EncodeFile, DecodeFile, FileOf;
    var t: TreeObj, s: SnapshotObj := TreeObj(map[]), SnapshotObj([], None, Actors.System, 0, 0, []);
    BodiesAreCanonical(RecordBlob(record).body, FileOf(record), t, s);
  }

  lemma RecordsAreWelcome(hash: Hash, odb: Odb, refs: Refs, store: Odb, objects: seq<Blob>, snapshots: set<Option<Id>>)
    requires TreeEdits.Typed(hash) && Stores(hash, store, objects)
    requires forall s :: Some(s) in snapshots ==> R.Node(R.AsSnapshot, s) in ReachedBy(odb, refs)
    ensures Welcome(hash, objects, snapshots, Held(odb, refs, store))
  {
    hide ReachedBy, RecordBlob, Sane, Held, SnapshotOf;
    forall record: Record | Sane(record) && RecordBlob(record) in objects && SnapshotOf(record) in snapshots
      ensures Held(odb, refs, store)(RecordEntry(hash, record))
    {
      var i :| 0 <= i < |objects| && objects[i] == RecordBlob(record);
      SaneNames(record);
      assert Some(SnapshotOf(record).value) in snapshots;
      NewRecordIsHeld(hash, odb, refs, store, record);
    }
  }

  lemma SaneNames(record: Record)
    requires Sane(record)
    ensures SnapshotOf(record).Some?
  {
    hide FromHex32, Range;
  }

  // What a finished catalog adds: its directories, and the records in them.
  ghost predicate Brought(odb: Odb, refs: Refs, store: Odb, ids: set<Id>, n: R.Node) {
    match n.role
    case AsTree => n.id in ids
    case AsCatalogDir => n.id in ids
    case AsFile => Vouched(store, ReachedBy(odb, refs), n.id)
    case AsCatalogRecord => Vouched(store, ReachedBy(odb, refs), n.id)
    case _ => false
  }

  ghost predicate BuiltCatalog(hash: Hash, odb: Odb, refs: Refs, store: Odb, blobs: seq<Blob>) {
    forall b :: b in blobs ==> Grown(hash, store, Hashes(hash, blobs), Held(odb, refs, store), hash(b))
  }

  ghost predicate TreeOfBuilt(hash: Hash, odb: Odb, refs: Refs, store: Odb, blobs: seq<Blob>, tree: Option<Id>) {
    BuiltCatalog(hash, odb, refs, store, blobs) && (tree.Some? ==> tree.value in Hashes(hash, blobs))
  }

  lemma CatalogDirIsSound(odb: Odb, id: Id)
    requires FetchTree(odb, id).Some?
        && forall name :: name in FetchTree(odb, id).value ==> FetchTree(odb, id).value[name].kind != Symlink
    ensures Proper(odb, R.Node(R.AsCatalogDir, id))
    ensures R.Children(View(odb), R.Node(R.AsCatalogDir, id))
      == [R.Node(R.AsTree, id)] + R.CatalogChildren(View(odb), R.Node(R.AsCatalogDir, id))
  {
    hide FetchTree, EntriesOf, View, Listed, R.CatalogEdges;
    var entries := FetchTree(odb, id).value;
    var list := EntriesOf(TreeObj(entries));
    ViewOfTree(odb, id);
    ListedLength(entries);
    forall i | 0 <= i < |list|
      ensures list[i].kind != Symlink
    {
      ListedEntry(entries, i);
      assert Listed(entries)[i] in Listed(entries);
    }
    SoundDir(View(odb), id, list);
  }

  lemma SoundDir(store: R.Store, id: Id, list: seq<R.Entry>)
    requires id in store && store[id] == R.TreeObject(Some(list))
        && forall i :: 0 <= i < |list| ==> list[i].kind != Symlink
    ensures R.Sound(store, R.Node(R.AsCatalogDir, id))
    ensures R.Children(store, R.Node(R.AsCatalogDir, id)) == [R.Node(R.AsTree, id)]
        + R.CatalogChildren(store, R.Node(R.AsCatalogDir, id))
  {
    hide R.CatalogEdges;
  }

  lemma BroughtIsProper(hash: Hash, odb: Odb, refs: Refs, store: Odb, blobs: seq<Blob>, n: R.Node)
    requires BuiltCatalog(hash, odb, refs, store, blobs) && Brought(odb, refs, store, Hashes(hash, blobs), n)
    ensures Proper(store, n)
    ensures forall c :: c in R.Children(View(store), n) ==>
              Brought(odb, refs, store, Hashes(hash, blobs), c) || c in ReachedBy(odb, refs)
  {
    hide ReachedBy, R.Children, View, Proper, FetchTree, Vouched, R.CatalogChildren, Holdable;
    var ids := Hashes(hash, blobs);
    if n.role == R.AsTree || n.role == R.AsCatalogDir {
      var b :| b in blobs && hash(b) == n.id;
      assert Grown(hash, store, ids, Held(odb, refs, store), hash(b));
      DirLeadsTo(store, n.id);
      CatalogDirIsSound(store, n.id);
      CatalogLeadsTo(store, n.id);
    } else {
      VouchedLeadsTo(store, ReachedBy(odb, refs), n.id);
    }
  }

  // Refs that hold on to the new catalog, and otherwise to what was held on to, are entire.
  lemma NewCatalogEntire(hash: Hash, odb: Odb, refs: Refs, store: Odb, grown: Refs, blobs: seq<Blob>)
    requires Entire(odb, refs) && Extends(odb, store) && BuiltCatalog(hash, odb, refs, store, blobs)
    requires grown.retention.Some? ==> grown.retention == refs.retention || grown.retention.value in Hashes(hash, blobs)
    requires forall n :: Rooted(grown.(retention := None), n) ==> Rooted(refs, n)
    requires forall d :: d in grown.staging ==> d in refs.staging && grown.staging[d] == refs.staging[d]
    ensures Entire(store, grown)
  {
    var ids := Hashes(hash, blobs);
    var added := (n: R.Node) => Brought(odb, refs, store, ids, n);
    hide R.Reached, R.Children, R.Ordinary, R.Catalog, D.RootsOf, View, Proper, Extends, Brought, Rooted, BuiltCatalog;
    RootsAre(refs);
    RootsAre(grown);
    R.ReachedIsLeast(View(odb), D.RootsOf(refs));
    forall n | added(n)
      ensures Proper(store, n) && forall c :: c in R.Children(View(store), n) ==> added(c) || c in ReachedBy(odb, refs)
    {
      BroughtIsProper(hash, odb, refs, store, blobs, n);
    }
    forall n | Rooted(grown, n)
      ensures added(n) || n in ReachedBy(odb, refs)
    {
      CatalogRoot(odb, refs, store, grown, ids, n);
    }
    forall d | d in grown.staging
      ensures d in store && |store[d].body| == grown.staging[d].len
    {
      ExtendsAt(odb, store, d);
    }
    GrowsEntire(odb, refs, store, grown, added);
  }

  lemma CatalogRoot(odb: Odb, refs: Refs, store: Odb, grown: Refs, ids: set<Id>, n: R.Node)
    requires Rooted(grown, n)
        && (grown.retention.Some? ==> grown.retention == refs.retention || grown.retention.value in ids)
    requires forall n :: Rooted(grown.(retention := None), n) ==> Rooted(refs, n)
    ensures Rooted(refs, n) || Brought(odb, refs, store, ids, n)
  {
    if n.role != R.AsTree && n.role != R.AsCatalogDir {
      assert Rooted(grown.(retention := None), n);
    }
  }

  // An exchange brings records of snapshots in reach only.
  lemma ExchangeBuilds(hash: Hash, odb: Odb, refs: Refs, catalog: Catalog, moduleId: Text, key: Text,
                       expected: Option<Reference>, replacement: Option<Reference>, store: Odb)
    requires Entire(odb, refs) && Hashed(hash, odb) && TreeEdits.Typed(hash) && Represents(odb, refs.retention, catalog)
    requires Exchange(hash, odb, refs.retention, moduleId, key, expected, replacement).Some? && expected != replacement
    requires replacement.Some? ==> replacement.value.revision < Range(8)
    requires Retention.SnapshotOf(replacement).Some? ==>
      R.Node(R.AsSnapshot, Retention.SnapshotOf(replacement).value) in ReachedBy(odb, refs)
    requires Extends(odb, store)
        && Stores(hash, store, Exchange(hash, odb, refs.retention, moduleId, key, expected, replacement).value.1)
    ensures exists blobs :: TreeOfBuilt(
      hash, odb, refs, store, blobs, Exchange(hash, odb, refs.retention, moduleId, key, expected, replacement).value.0)
  {
    hide ReachedBy, Entire, Shows, EditCatalog, Finish, Good, Held, FromHex32, Retention.Checked, Retention.PlaceOf,
      IsPlace, Range,
      Grown, Hereditary, Extends, Stores, Welcome, ReadRecord, Retention.ValidName;
    var root, place := Opening(refs.retention), Retention.PlaceOf(hash, moduleId, key);
    var d := EditCatalog(hash, odb, root, place, expected, replacement).value;
    var snapshots := {Retention.SnapshotOf(expected), Retention.SnapshotOf(replacement)};
    PlaceIsPlace(hash, moduleId, key);
    FinishStores(hash, store, d);
    RootIsHeld(hash, odb, refs, store);
    HeldIsHereditary(odb, refs, store);
    if expected.Some? { ReadIsReached(hash, odb, refs, place); }
    RecordsAreWelcome(hash, odb, refs, store, d.objects, snapshots);
    CatalogIsGood(hash, odb, root, catalog, place, expected, replacement, Held(odb, refs, store));
    EditedIsMade(hash, odb, root, place, expected, replacement);
    FinishBuilds(hash, odb, refs, store, d);
  }

  // A finished catalog is made of held entries.
  lemma FinishBuilds(hash: Hash, odb: Odb, refs: Refs, store: Odb, d: Draft)
    requires Good(d.node, Held(odb, refs, store)) && TreeEdits.Typed(hash) && d.node.Made?
    requires Finish(hash, d).Some? && Stores(hash, store, Finish(hash, d).value.1)
    ensures exists blobs :: TreeOfBuilt(hash, odb, refs, store, blobs, Finish(hash, d).value.0)
  {
    hide ReachedBy, Good, Grown, Build, Hashes;
    HeldIsHoldable(odb, refs, store);
    if d.node == Made(map[]) {
      assert TreeOfBuilt(hash, odb, refs, store, [], None);
    } else {
      var (entry, blobs) := Build(hash, d.node).value;
      StoresPart(hash, store, blobs, d.objects + blobs);
      BuiltGrows(hash, d.node, Held(odb, refs, store), store);
      assert TreeOfBuilt(hash, odb, refs, store, blobs, Some(entry.id));
    }
  }

  lemma HeldIsHoldable(odb: Odb, refs: Refs, store: Odb)
    ensures forall e: TreeEntry :: Held(odb, refs, store)(e) ==> Holdable(e)
  {
    hide ReachedBy, Vouched, Holdable;
  }
}
