// The committed object graph (crates/duckfs/core/src/gc.rs:22-77): which objects the refs reach.
module Reachability {
  import opened Wrappers
  import opened Kinds

  datatype Entry = Entry(kind: EntryKind, id: Id)

  // A stored object: its kind, and what its body decodes to, or None where it does not decode. A
  // file object that has the shape of a retention record also names a snapshot.
  datatype Object =
    | ChunkObject
    | FileObject(file: Option<FileView>)
    | TreeObject(entries: Option<seq<Entry>>)
    | SnapshotObject(root: Option<Id>)

  datatype FileView = FileView(chunks: seq<Id>, record: Option<Id>)

  type Store = map<Id, Object>

  // How an object is reached: as a chunk, file, tree or snapshot, or inside the protected
  // retention catalog.
  datatype Role = AsChunk | AsFile | AsTree | AsSnapshot | AsCatalogDir | AsCatalogRecord

  datatype Node = Node(role: Role, id: Id)

  // Committed refs, as far as reachability goes.
  datatype Roots = Roots(head: Option<Id>, window: seq<Id>, pins: seq<Id>, staging: seq<Id>, retention: Option<Id>)

  // What a present object leads to; None when it is not what its role demands.
  function Edges(store: Store, node: Node): Option<seq<Node>>
    requires node.id in store
  {
    match (node.role, store[node.id])
    case (AsChunk, _) => Some([])
    case (AsFile, FileObject(Some(view))) => Some(AsAll(AsChunk, view.chunks))
    case (AsTree, TreeObject(Some(entries))) => Some(TreeEdges(entries))
    case (AsSnapshot, SnapshotObject(Some(root))) => Some([Node(AsTree, root)])
    case (AsCatalogDir, TreeObject(Some(entries))) =>
      if exists i :: 0 <= i < |entries| && entries[i].kind == Symlink then None
      else Some([Node(AsTree, node.id)] + CatalogEdges(entries))
    case (AsCatalogRecord, FileObject(Some(FileView(chunks, Some(snapshot))))) =>
      if chunks == [] then Some([Node(AsFile, node.id), Node(AsSnapshot, snapshot)]) else None
    case _ => None
  }

  function AsAll(role: Role, ids: seq<Id>): (nodes: seq<Node>)
    ensures |nodes| == |ids| && forall i :: 0 <= i < |ids| ==> nodes[i] == Node(role, ids[i])
  {
    seq(|ids|, i requires 0 <= i < |ids| => Node(role, ids[i]))
  }

  function TreeEdges(entries: seq<Entry>): (nodes: seq<Node>)
    ensures |nodes| == |entries|
    ensures forall i :: 0 <= i < |entries| ==>
              nodes[i] == Node(if entries[i].kind == Dir then AsTree else AsFile, entries[i].id)
  {
    seq(|entries|, i requires 0 <= i < |entries| => Node(if entries[i].kind == Dir then AsTree else AsFile,
        entries[i].id))
  }

  function CatalogEdges(entries: seq<Entry>): (nodes: seq<Node>)
    ensures |nodes| == |entries|
    ensures forall i :: 0 <= i < |entries| ==>
              nodes[i] == Node(if entries[i].kind == Dir then AsCatalogDir else AsCatalogRecord, entries[i].id)
  {
    seq(|entries|, i requires 0 <= i < |entries| =>
      Node(if entries[i].kind == Dir then AsCatalogDir else AsCatalogRecord, entries[i].id))
  }

  // The catalog nodes a present catalog directory leads to.
  function CatalogChildren(store: Store, node: Node): seq<Node>
    requires node.id in store
  {
    match store[node.id]
    case TreeObject(Some(entries)) => CatalogEdges(entries)
    case _ => []
  }

  function Children(store: Store, node: Node): seq<Node> {
    if node.id in store && Edges(store, node).Some? then Edges(store, node).value else []
  }

  // Present, of the kind its role demands, and decodable.
  predicate Sound(store: Store, node: Node) {
    node.id in store && Edges(store, node).Some?
  }

  // What each role demands of an object: any present one is a chunk, and others must decode as their
  // kind; a catalog directory holds no symlinks, and a record names a snapshot and no chunks.
  lemma SoundExactly(store: Store, node: Node)
    ensures Sound(store, node) <==> node.id in store && match (node.role, store[node.id])
      case (AsChunk, _) => true
      case (AsFile, FileObject(file)) => file.Some?
      case (AsTree, TreeObject(entries)) => entries.Some?
      case (AsSnapshot, SnapshotObject(root)) => root.Some?
      case (AsCatalogDir, TreeObject(entries)) =>
        entries.Some? && forall e :: e in entries.value ==> e.kind != Symlink
      case (AsCatalogRecord, FileObject(file)) => file.Some? && file.value.chunks == [] && file.value.record.Some?
      case _ => false
  {
    if node.id in store && store[node.id].TreeObject? && store[node.id].entries.Some? {
      var entries := store[node.id].entries.value;
      assert forall i :: 0 <= i < |entries| ==> entries[i] in entries;
    }
  }

  // And what a sound object leads to: a file to its chunks, a tree to its entries, a snapshot to its
  // root; a catalog directory also to itself as a tree, and a record to itself as a file and to the
  // snapshot it keeps.
  lemma ChildrenExactly(store: Store, node: Node, child: Node)
    requires Sound(store, node)
    ensures child in Children(store, node) <==> match (node.role, store[node.id])
      case (AsFile, FileObject(Some(view))) => child.role == AsChunk && child.id in view.chunks
      case (AsTree, TreeObject(Some(entries))) =>
        exists e :: e in entries && child == Node(if e.kind == Dir then AsTree else AsFile, e.id)
      case (AsSnapshot, SnapshotObject(Some(root))) => child == Node(AsTree, root)
      case (AsCatalogDir, TreeObject(Some(entries))) =>
        child == Node(AsTree, node.id)
        || exists e :: e in entries && child == Node(if e.kind == Dir then AsCatalogDir else AsCatalogRecord, e.id)
      case (AsCatalogRecord, FileObject(Some(view))) =>
        child == Node(AsFile, node.id) || (view.record.Some? && child == Node(AsSnapshot, view.record.value))
      case _ => false
  {
    match (node.role, store[node.id])
    case (AsFile, FileObject(Some(view))) =>
      if child.role == AsChunk && child.id in view.chunks {
        var i :| 0 <= i < |view.chunks| && view.chunks[i] == child.id;
        assert AsAll(AsChunk, view.chunks)[i] == child;
      }
    case (AsTree, TreeObject(Some(entries))) => EntryIn(TreeEdges(entries), entries, AsTree, AsFile, child);
    case (AsCatalogDir, TreeObject(Some(entries))) =>
      EntryIn(CatalogEdges(entries), entries, AsCatalogDir, AsCatalogRecord, child);
    case _ =>
  }

  lemma EntryIn(nodes: seq<Node>, entries: seq<Entry>, dir: Role, leaf: Role, child: Node)
    requires |nodes| == |entries|
    requires forall i :: 0 <= i < |entries| ==> nodes[i] == Node(if entries[i].kind == Dir then dir else leaf,
                                                                 entries[i].id)
    ensures child in nodes <==> exists e :: e in entries && child == Node(if e.kind == Dir then dir else leaf, e.id)
  {
    if exists e :: e in entries && child == Node(if e.kind == Dir then dir else leaf, e.id) {
      var e :| e in entries && child == Node(if e.kind == Dir then dir else leaf, e.id);
      var i :| 0 <= i < |entries| && entries[i] == e;
      assert nodes[i] == child;
    }
    if child in nodes {
      var i :| 0 <= i < |nodes| && nodes[i] == child;
      assert entries[i] in entries;
    }
  }

  // Present but not what its role demands: corruption, which is never mere absence.
  predicate Corrupt(store: Store, node: Node) {
    node.id in store && Edges(store, node).None?
  }

  function Ordinary(roots: Roots): seq<Node> {
    AsAll(AsSnapshot, if roots.head.Some? then [roots.head.value] else [])
    + AsAll(AsSnapshot, roots.window) + AsAll(AsSnapshot, roots.pins) + AsAll(AsChunk, roots.staging)
  }

  // The catalog root, which is also the plain tree it is.
  function Catalog(roots: Roots): seq<Node> {
    if roots.retention.Some? then [Node(AsCatalogDir, roots.retention.value), Node(AsTree, roots.retention.value)]
        else []
  }

  // ---- the reachable set: the least set that holds the roots and everything they lead to --------

  ghost predicate Closed(store: Store, nodes: set<Node>) {
    forall n, c :: n in nodes && c in Children(store, n) ==> c in nodes
  }

  ghost predicate Holds(nodes: set<Node>, roots: seq<Node>) {
    forall n :: n in roots ==> n in nodes
  }

  ghost function Reached(store: Store, roots: Roots): set<Node> {
    set n | n in Universe(store, roots) && InEveryClosed(store, roots, n)
  }

  ghost predicate InEveryClosed(store: Store, roots: Roots, n: Node) {
    forall s :: Closed(store, s) && Holds(s, Ordinary(roots) + Catalog(roots)) ==> n in s
  }

  // Every node there could be: the roots and whatever any present object leads to.
  ghost function Universe(store: Store, roots: Roots): set<Node> {
    (set n | n in Ordinary(roots) + Catalog(roots))
    + (set id, role, c | id in store.Keys && role in {AsFile, AsTree, AsSnapshot, AsCatalogDir, AsCatalogRecord}
                         && c in Children(store, Node(role, id)) :: c)
  }

  // The reachable set is closed and holds the roots, and it is part of every set that does.
  lemma ReachedIsLeast(store: Store, roots: Roots)
    ensures Closed(store, Reached(store, roots))
    ensures Holds(Reached(store, roots), Ordinary(roots) + Catalog(roots))
    ensures forall s :: Closed(store, s) && Holds(s, Ordinary(roots) + Catalog(roots)) ==> Reached(store, roots) <= s
  {
    forall n, c | n in Reached(store, roots) && c in Children(store, n)
      ensures c in Reached(store, roots)
    {
      assert n.role != AsChunk;
      assert c in Universe(store, roots);
      assert InEveryClosed(store, roots, n);
    }
  }

  function Ids(nodes: set<Node>): set<Id> {
    set n | n in nodes :: n.id
  }

  // No object is reached under two different ordinary roles, or under two different catalog
  // roles. Ids hash the object's kind, so this fails only where some object names an id under a
  // kind it was not hashed with.
  ghost predicate Unconfused(nodes: set<Node>) {
    forall m, n :: m in nodes && n in nodes && m.id == n.id && InCatalog(m) == InCatalog(n) ==> m == n
  }

  // The object itself, reached as what it is: a catalog directory is a tree, a record a file.
  function Plain(n: Node): Node {
    Node(if n.role == AsCatalogDir then AsTree else if n.role == AsCatalogRecord then AsFile else n.role, n.id)
  }

  predicate InCatalog(n: Node) {
    n.role == AsCatalogDir || n.role == AsCatalogRecord
  }
}
