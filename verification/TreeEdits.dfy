// Copy-on-write tree editing (crates/duckfs/core/src/tree.rs): an overlay that reads only the
// directories on the paths it touches, and turns back into tree objects along those paths alone.
module TreeEdits {
  import opened Wrappers
  import opened Texts
  import opened Kinds
  import opened Order
  import opened Sorting
  import opened Grammars
  import opened Layouts
  import opened Objects
  import opened Records
  import Actors

  type Path = seq<Text>

  // A directory as stored: None where it is absent, not a tree, or does not decode.
  function FetchTree(odb: Odb, id: Id): Option<map<Text, TreeEntry>> {
    if id in odb && odb[id].kind == TreeKind && DecodeTree(odb[id].body).Some?
    then Some(DecodeTree(odb[id].body).value.entries) else None
  }

  // A directory reads exactly if it is there, is a tree and is what its entries are written as.
  lemma FetchExactly(odb: Odb, id: Id, entries: map<Text, TreeEntry>)
    ensures FetchTree(odb, id) == Some(entries) <==>
      && id in odb && odb[id].kind == TreeKind
      && TreeFits(TreeObj(entries)) && odb[id].body == EncodeTree(TreeObj(entries))
  {
    hide DecodeTree, EncodeTree, TreeFits;
    if id in odb {
      var f: FileObj, s: SnapshotObj := FileObj(0, [], map[]), SnapshotObj([], None, Actors.System, 0, 0, []);
      BodiesAreCanonical(odb[id].body, f, TreeObj(entries), s);
    }
  }

  // An entry as stored, whatever is below it still unread; or a directory an edit has opened.
  datatype Node = Ref(entry: TreeEntry) | Made(children: map<Text, Node>)

  function DirRef(id: Id): Node {
    Ref(TreeEntry(Dir, id, false, 0))
  }

  function Refs(entries: map<Text, TreeEntry>): map<Text, Node> {
    map name | name in entries :: Ref(entries[name])
  }

  // `materialize`: what is directly below a node; a leaf and an unreadable directory do not open.
  function Open(odb: Odb, node: Node): Option<map<Text, Node>> {
    match node
    case Made(children) => Some(children)
    case Ref(entry) =>
      if entry.kind != Dir || FetchTree(odb, entry.id).None? then None
      else Some(Refs(FetchTree(odb, entry.id).value))
  }

  datatype Look = Broken | Absent | Found(node: Node)

  // What is at a path: `walk_get`, and on a stored tree `entry_at`. Nothing is below a leaf.
  function LookAt(odb: Odb, node: Node, path: Path): Look
    decreases |path|
  {
    if path == [] then Found(node)
    else if node.Ref? && node.entry.kind != Dir then Absent
    else
      match Open(odb, node)
      case None => Broken
      case Some(children) => if path[0] in children then LookAt(odb, children[path[0]], path[1..]) else Absent
  }

  // ---- one edit ------------------------------------------------------------------------------------

  // `navigate` to the parent, and put or drop the last name there; with `create`, directories
  // missing on the way are made.
  function SetAt(odb: Odb, node: Node, path: Path, value: Option<Node>, create: bool): Option<Node>
    requires path != []
    decreases |path|
  {
    match Open(odb, node)
    case None => None
    case Some(children) =>
      if |path| == 1 then Some(Made(if value.Some? then children[path[0] := value.value] else children - {path[0]}))
      else if path[0] !in children && !create then None
      else
        match SetAt(odb, if path[0] in children then children[path[0]] else Made(map[]), path[1..], value, create)
        case None => None
        case Some(below) => Some(Made(children[path[0] := below]))
  }

  // A node hung back below the directories passed on the way to it.
  function Hung(above: seq<map<Text, Node>>, path: Path, node: Option<Node>): Option<Node>
    requires |above| <= |path|
    decreases |above|
  {
    if node.None? || above == [] then node
    else
      var last := |above| - 1;
      Hung(above[..last], path, Some(Made(above[last][path[last] := node.value])))
  }

  lemma HungOneMore(above: seq<map<Text, Node>>, path: Path, node: Option<Node>)
    requires 0 < |above| <= |path|
    ensures var last := |above| - 1;
      Hung(above, path, node) == Hung(above[..last], path,
        if node.None? then None else Some(Made(above[last][path[last] := node.value])))
  {
  }

  lemma SetAtGoesDown(odb: Odb, node: Node, path: Path, value: Option<Node>, create: bool)
    requires path != []
    ensures SetAt(odb, node, path, value, create) ==
      match Open(odb, node)
      case None => None
      case Some(children) =>
        if |path| == 1 then
          Some(Made(if value.Some? then children[path[0] := value.value] else children - {path[0]}))
        else if path[0] !in children && !create then None
        else
          match SetAt(odb, Child(children, path[0]), path[1..], value, create)
          case None => None
          case Some(below) => Some(Made(children[path[0] := below]))
  {
    hide Open;
  }

  // An edit can pass through here: an open directory, or, where it may make one, nothing yet.
  predicate Passes(odb: Odb, look: Look, create: bool) {
    (look.Absent? && create) || (look.Found? && Open(odb, look.node).Some?)
  }

  // ---- one level of the walks ----------------------------------------------------------------------

  function Child(children: map<Text, Node>, name: Text): Node {
    if name in children then children[name] else Made(map[])
  }

  lemma LookNone(odb: Odb, node: Node)
    ensures LookAt(odb, node, []) == Found(node)
  {
    hide FetchTree, Refs, Open;
  }

  lemma LookUnfold(odb: Odb, node: Node, path: Path)
    requires Open(odb, node).Some? && path != []
    ensures var children := Open(odb, node).value;
      LookAt(odb, node, path) == if path[0] in children then LookAt(odb, children[path[0]], path[1..]) else Absent
  {
    hide FetchTree, Refs;
  }

  lemma NothingBelow(odb: Odb, path: Path)
    ensures LookAt(odb, Made(map[]), path) == if path == [] then Found(Made(map[])) else Absent
  {
    hide FetchTree, Refs;
  }

  lemma SetLast(odb: Odb, node: Node, path: Path, value: Option<Node>, create: bool)
    requires |path| == 1
    ensures SetAt(odb, node, path, value, create).Some? == Open(odb, node).Some?
    ensures Open(odb, node).Some? ==>
      var children := Open(odb, node).value;
      SetAt(odb, node, path, value, create) ==
        Some(Made(if value.Some? then children[path[0] := value.value] else children - {path[0]}))
  {
    hide FetchTree, Refs, Open;
  }

  lemma SetUnfold(odb: Odb, node: Node, path: Path, value: Option<Node>, create: bool)
    requires |path| > 1
    ensures Open(odb, node).None? ==> SetAt(odb, node, path, value, create).None?
    ensures Open(odb, node).Some? ==>
      var children := Open(odb, node).value;
      var below := SetAt(odb, Child(children, path[0]), path[1..], value, create);
      SetAt(odb, node, path, value, create) ==
        if (path[0] in children || create) && below.Some? then Some(Made(children[path[0] := below.value])) else None
  {
    hide FetchTree, Refs, Open;
  }

  // ---- what one edit does --------------------------------------------------------------------------

  ghost predicate Clear(odb: Odb, node: Node, path: Path, create: bool) {
    forall i :: 0 <= i < |path| ==> Passes(odb, LookAt(odb, node, path[..i]), create)
  }

  lemma PassesAt(odb: Odb, node: Node, path: Path, create: bool, i: nat)
    requires 0 < i < |path| && Open(odb, node).Some? && (path[0] in Open(odb, node).value || create)
    ensures var child := Child(Open(odb, node).value, path[0]);
      Passes(odb, LookAt(odb, node, path[..i]), create) == Passes(odb, LookAt(odb, child, path[1..][..i - 1]), create)
  {
    hide FetchTree, Refs, LookAt;
    LookUnfold(odb, node, path[..i]);
    assert path[..i][1..] == path[1..][..i - 1];
    NothingBelow(odb, path[1..][..i - 1]);
  }

  lemma ClearUnfold(odb: Odb, node: Node, path: Path, create: bool)
    requires path != []
    ensures Open(odb, node).None? ==> !Clear(odb, node, path, create)
    ensures Open(odb, node).Some? ==>
      var children := Open(odb, node).value;
      Clear(odb, node, path, create) <==>
          |path| == 1 || ((path[0] in children || create) && Clear(odb, Child(children, path[0]), path[1..], create))
  {
    hide FetchTree, Refs, Open, LookAt, Child;
    assert path[..0] == [];
    LookNone(odb, node);
    if Open(odb, node).Some? && |path| > 1 {
      var children := Open(odb, node).value;
      if path[0] in children || create {
        var child := Child(children, path[0]);
        forall i | 0 < i < |path|
          ensures Passes(odb, LookAt(odb, node, path[..i]), create)
              == Passes(odb, LookAt(odb, child, path[1..][..i - 1]), create)
        {
          PassesAt(odb, node, path, create, i);
        }
        if Clear(odb, child, path[1..], create) {
          forall i | 0 < i < |path|
            ensures Passes(odb, LookAt(odb, node, path[..i]), create)
          {
            assert 0 <= i - 1 < |path[1..]|;
          }
        }
        if Clear(odb, node, path, create) {
          forall i | 0 <= i < |path[1..]|
            ensures Passes(odb, LookAt(odb, child, path[1..][..i]), create)
          {
            assert Passes(odb, LookAt(odb, node, path[..i + 1]), create);
          }
        }
      } else {
        LookUnfold(odb, node, path[..1]);
        assert !Passes(odb, LookAt(odb, node, path[..1]), create);
      }
    }
  }

  // The edit goes through exactly if it can pass every directory on the way.
  lemma {:induction false} SetSucceeds(odb: Odb, node: Node, path: Path, value: Option<Node>, create: bool)
    requires path != []
    ensures SetAt(odb, node, path, value, create).Some? <==> Clear(odb, node, path, create)
    decreases |path|
  {
    hide FetchTree, Refs, Open, LookAt, Clear, SetAt;
    ClearUnfold(odb, node, path, create);
    if |path| == 1 {
      SetLast(odb, node, path, value, create);
    } else {
      SetUnfold(odb, node, path, value, create);
      if Open(odb, node).Some? {
        SetSucceeds(odb, Child(Open(odb, node).value, path[0]), path[1..], value, create);
      }
    }
  }

  // And then nothing changes but what is at the path and below it, and that the directories above
  // it are open.
  lemma {:induction false} SetIsExact(odb: Odb, node: Node, path: Path, value: Option<Node>, create: bool, q: Path)
    requires path != [] && SetAt(odb, node, path, value, create).Some?
    ensures var after := LookAt(odb, SetAt(odb, node, path, value, create).value, q);
      if path <= q then after == if value.Some? then LookAt(odb, value.value, q[|path|..]) else Absent
      else if q <= path then after.Found? && after.node.Made?
      else after == LookAt(odb, node, q)
    decreases |path|
  {
    hide FetchTree, Refs, Open, LookAt, SetAt;
    var after := SetAt(odb, node, path, value, create).value;
    if |path| == 1 { SetLast(odb, node, path, value, create); } else { SetUnfold(odb, node, path, value, create); }
    var children := Open(odb, node).value;
    if q == [] {
      LookNone(odb, after);
    } else {
      LookUnfold(odb, node, q);
      MadeOpens(odb, after);
      LookUnfold(odb, after, q);
      if |path| > 1 && q[0] == path[0] {
        SetIsExact(odb, Child(children, path[0]), path[1..], value, create, q[1..]);
        PrefixesUnfold(path, q);
        NothingBelow(odb, q[1..]);
      } else if q[0] == path[0] {
        assert path == [q[0]] <= q && q[|path|..] == q[1..];
      }
    }
  }

  lemma MadeOpens(odb: Odb, node: Node)
    requires node.Made?
    ensures Open(odb, node) == Some(node.children)
  {
  }

  lemma PrefixesUnfold(p: Path, q: Path)
    requires p != [] && q != [] && p[0] == q[0]
    ensures (p <= q) == (p[1..] <= q[1..]) && (q <= p) == (q[1..] <= p[1..])
    ensures p <= q ==> q[|p|..] == q[1..][|p[1..]|..]
  {
    assert p == [p[0]] + p[1..] && q == [q[0]] + q[1..];
  }

  // ---- the four edits ------------------------------------------------------------------------------

  datatype EditOp =
    | Put(path: Path, entry: TreeEntry)
    | Mkdir(path: Path)
    | Rm(path: Path)
    | Mv(from: Path, to: Path)

  // A directory that can be read and holds nothing under this name.
  predicate Free(odb: Odb, root: Node, path: Path)
    requires path != []
  {
    && LookAt(odb, root, path[..|path| - 1]).Found? && Open(odb, LookAt(odb, root, path[..|path| - 1]).node).Some?
    && LookAt(odb, root, path).Absent?
  }

  function Edit(odb: Odb, root: Node, op: EditOp): Option<Node> {
    match op
    case Put(path, entry) => if path == [] then None else SetAt(odb, root, path, Some(Ref(entry)), true)
    case Mkdir(path) =>
      if path == [] || LookAt(odb, root, path).Found? then None else SetAt(odb, root, path, Some(Made(map[])), true)
    case Rm(path) => if path == [] || !LookAt(odb, root, path).Found? then None else SetAt(odb, root, path, None, false)
    case Mv(from, to) =>
      if from == [] || to == [] || from <= to then None
      else if !LookAt(odb, root, from).Found? || !Free(odb, root, to) then None
      else
        match SetAt(odb, root, from, None, false)
        case None => None
        case Some(lifted) => SetAt(odb, lifted, to, Some(LookAt(odb, root, from).node), false)
  }

  // What is there was got to through open directories.
  lemma {:induction false} FoundIsClear(odb: Odb, node: Node, path: Path)
    requires LookAt(odb, node, path).Found?
    ensures forall i :: 0 <= i < |path| ==>
              LookAt(odb, node, path[..i]).Found? && Open(odb, LookAt(odb, node, path[..i]).node).Some?
    decreases |path|
  {
    hide FetchTree, Refs;
    if path != [] {
      var child := Open(odb, node).value[path[0]];
      FoundIsClear(odb, child, path[1..]);
      hide Open;
      forall i | 0 <= i < |path|
        ensures LookAt(odb, node, path[..i]).Found? && Open(odb, LookAt(odb, node, path[..i]).node).Some?
      {
        if i > 0 {
          assert path[..i][1..] == path[1..][..i - 1];
          assert LookAt(odb, node, path[..i]) == LookAt(odb, child, path[1..][..i - 1]);
        }
      }
    }
  }

  // What each edit asks of the tree: a put, a way to the parent; a new directory, besides, that
  // nothing is there; a removal, that something is; a move, both, and a parent at the destination.
  ghost predicate Allowed(odb: Odb, root: Node, op: EditOp) {
    match op
    case Put(path, _) => path != [] && Clear(odb, root, path, true)
    case Mkdir(path) => path != [] && Clear(odb, root, path, true) && !LookAt(odb, root, path).Found?
    case Rm(path) => path != [] && LookAt(odb, root, path).Found?
    case Mv(from, to) =>
      from != [] && to != [] && !(from <= to) && LookAt(odb, root, from).Found? && Free(odb, root, to)
  }

  lemma EditSucceeds(odb: Odb, root: Node, op: EditOp)
    ensures Edit(odb, root, op).Some? <==> Allowed(odb, root, op)
  {
    hide SetAt, LookAt, Open, Clear;
    match op
    case Put(path, entry) => if path != [] { SetSucceeds(odb, root, path, Some(Ref(entry)), true); }
    case Mkdir(path) => if path != [] { SetSucceeds(odb, root, path, Some(Made(map[])), true); }
    case Rm(path) => if path != [] && LookAt(odb, root, path).Found? { RemoveSucceeds(odb, root, path); }
    case Mv(from, to) =>
      if from != [] && to != [] && !(from <= to) && LookAt(odb, root, from).Found? && Free(odb, root, to) {
        RemoveSucceeds(odb, root, from);
        MoveSucceeds(odb, root, from, to);
      }
  }

  lemma RemoveSucceeds(odb: Odb, root: Node, path: Path)
    requires path != [] && LookAt(odb, root, path).Found?
    ensures SetAt(odb, root, path, None, false).Some?
  {
    hide SetAt, LookAt, Open;
    FoundIsClear(odb, root, path);
    SetSucceeds(odb, root, path, None, false);
  }

  // Lifting the source out leaves the way to the destination open.
  lemma MoveSucceeds(odb: Odb, root: Node, from: Path, to: Path)
    requires from != [] && to != [] && !(from <= to) && Free(odb, root, to) && SetAt(odb, root, from, None, false).Some?
    ensures var lifted := SetAt(odb, root, from, None, false).value;
      SetAt(odb, lifted, to, Some(LookAt(odb, root, from).node), false).Some?
    requires LookAt(odb, root, from).Found?
  {
    hide SetAt, LookAt;
    var lifted, dirs := SetAt(odb, root, from, None, false).value, to[..|to| - 1];
    FoundIsClear(odb, root, dirs);
    forall i | 0 <= i < |to|
      ensures Passes(odb, LookAt(odb, lifted, to[..i]), false)
    {
      assert to[..i] <= to;
      assert to[..i] == dirs[..i];
      assert dirs[..|dirs|] == dirs;
      SetIsExact(odb, root, from, None, false, to[..i]);
      assert !(from <= to[..i]);
    }
    SetSucceeds(odb, lifted, to, Some(LookAt(odb, root, from).node), false);
  }

  // What each edit leaves at a path. A move takes what is below the source along, opened or not.
  ghost predicate Edited(odb: Odb, root: Node, op: EditOp, q: Path, after: Look) {
    match op
    case Put(path, entry) =>
      if path <= q then after == LookAt(odb, Ref(entry), q[|path|..])
      else if q <= path then after.Found? && after.node.Made?
      else after == LookAt(odb, root, q)
    case Mkdir(path) =>
      if path <= q then after == if q == path then Found(Made(map[])) else Absent
      else if q <= path then after.Found? && after.node.Made?
      else after == LookAt(odb, root, q)
    case Rm(path) =>
      if path <= q then after == Absent
      else if q <= path then after.Found? && after.node.Made?
      else after == LookAt(odb, root, q)
    case Mv(from, to) =>
      if to <= q then after == LookAt(odb, root, from + q[|to|..])
      else if from <= q then after == Absent
      else if q <= from || q <= to then after.Found? && after.node.Made?
      else after == LookAt(odb, root, q)
  }

  lemma EditIsExact(odb: Odb, root: Node, op: EditOp, q: Path)
    requires Edit(odb, root, op).Some?
    ensures Edited(odb, root, op, q, LookAt(odb, Edit(odb, root, op).value, q))
  {
    hide SetAt, LookAt, Open;
    match op
    case Put(path, entry) => SetIsExact(odb, root, path, Some(Ref(entry)), true, q);
    case Mkdir(path) =>
      SetIsExact(odb, root, path, Some(Made(map[])), true, q);
      if path <= q { NothingBelow(odb, q[|path|..]); assert q[|path|..] == [] <==> q == path; }
    case Rm(path) => SetIsExact(odb, root, path, None, false, q);
    case Mv(from, to) =>
      var lifted, node := SetAt(odb, root, from, None, false).value, LookAt(odb, root, from).node;
      SetIsExact(odb, root, from, None, false, q);
      SetIsExact(odb, lifted, to, Some(node), false, q);
      assert !(from <= q && q <= to);
      if to <= q { LookFurther(odb, root, from, q[|to|..]); }
  }

  lemma {:induction false} LookFurther(odb: Odb, node: Node, path: Path, rest: Path)
    requires LookAt(odb, node, path).Found?
    ensures LookAt(odb, node, path + rest) == LookAt(odb, LookAt(odb, node, path).node, rest)
    decreases |path|
  {
    hide FetchTree, Refs;
    if path == [] {
      assert path + rest == rest;
    } else {
      assert (path + rest)[1..] == path[1..] + rest;
      LookFurther(odb, Open(odb, node).value[path[0]], path[1..], rest);
    }
  }

  // ---- building ------------------------------------------------------------------------------------

  type Hash = Blob -> Id

  function DirBlob(entries: map<Text, TreeEntry>): Blob {
    Blob(TreeKind, EncodeTree(TreeObj(entries)))
  }

  // A directory's names, in their order.
  function NamesOf(children: map<Text, Node>): (names: seq<Text>)
    ensures forall name :: name in names <==> name in children
  {
    BelowIsTotal();
    SortedMeans(Below, children.Keys);
    var names := Sorted(Below, children.Keys);
    ListsAll(names);
    names
  }

  lemma ListsAll(names: seq<Text>)
    ensures forall name :: name in names <==> name in Elements(names)
  {
  }

  // `build_dir`: a stored entry goes back as it is; an opened directory becomes a tree object,
  // after those below it.
  function Build(hash: Hash, node: Node): Option<(TreeEntry, seq<Blob>)>
    decreases node, 1, 0
  {
    match node
    case Ref(entry) => Some((entry, []))
    case Made(children) =>
      match BuildAll(hash, node, NamesOf(children))
      case None => None
      case Some((entries, blobs)) =>
        if |entries| > MAX_DIR_ENTRIES then None
        else Some((TreeEntry(Dir, hash(DirBlob(entries)), false, |entries|), blobs + [DirBlob(entries)]))
  }

  // The children under these names, one after another.
  function BuildAll(hash: Hash, dir: Node, names: seq<Text>): Option<(map<Text, TreeEntry>, seq<Blob>)>
    requires dir.Made? && forall name :: name in names ==> name in dir.children
    decreases dir, 0, |names|
  {
    if names == [] then Some((map[], []))
    else
      match (Build(hash, dir.children[names[0]]), BuildAll(hash, dir, names[1..]))
      case (Some(first), Some(rest)) => Some((rest.0[names[0] := first.0], first.1 + rest.1))
      case _ => None
  }

  // Objects are kept under what they hash to.
  ghost predicate Stores(hash: Hash, odb: Odb, blobs: seq<Blob>) {
    forall i :: 0 <= i < |blobs| ==> hash(blobs[i]) in odb && odb[hash(blobs[i])] == blobs[i]
  }

  // Every name is one a directory can hold, and every stored entry meets `ok`.
  predicate Good(node: Node, ok: TreeEntry -> bool) {
    match node
    case Ref(entry) => ok(entry)
    case Made(children) => forall name :: name in children ==> Short(name, MAX_NAME_BYTES) && Good(children[name], ok)
  }

  predicate Holdable(entry: TreeEntry) {
    IsId(entry.id) && entry.size < Range(8)
  }

  predicate Fit(node: Node) {
    Good(node, Holdable)
  }

  lemma {:induction false} BuildAllIs(hash: Hash, dir: Node, names: seq<Text>)
    requires dir.Made? && forall name :: name in names ==> name in dir.children
    requires BuildAll(hash, dir, names).Some?
    ensures var (entries, blobs) := BuildAll(hash, dir, names).value;
      && entries.Keys == Elements(names)
      && (forall name :: name in names ==>
            && Build(hash, dir.children[name]).Some? && entries[name] == Build(hash, dir.children[name]).value.0
            && forall b :: b in Build(hash, dir.children[name]).value.1 ==> b in blobs)
      && (forall b :: b in blobs ==> exists name :: name in names && FromChild(hash, dir, name, b))
    decreases |names|
  {
    hide Build;
    if names != [] {
      BuildAllIs(hash, dir, names[1..]);
      var (entries, blobs) := BuildAll(hash, dir, names).value;
      var first, rest := Build(hash, dir.children[names[0]]).value.1, BuildAll(hash, dir, names[1..]).value.1;
      forall b | b in blobs
        ensures exists name :: name in names && FromChild(hash, dir, name, b)
      {
        if b in first {
          assert names[0] in names && FromChild(hash, dir, names[0], b);
        } else {
          assert b in rest;
          var name :| name in names[1..] && FromChild(hash, dir, name, b);
          assert name in names;
        }
      }
    }
  }

  // This object comes from building this child.
  ghost predicate FromChild(hash: Hash, dir: Node, name: Text, b: Blob) {
    && dir.Made? && name in dir.children
    && Build(hash, dir.children[name]).Some? && b in Build(hash, dir.children[name]).value.1
  }

  // What an opened directory's entries are: its children, each as it is built.
  ghost predicate BuiltDir(hash: Hash, node: Node, entries: map<Text, TreeEntry>) {
    && node.Made? && Build(hash, node).Some? && entries.Keys == node.children.Keys && |entries| <= MAX_DIR_ENTRIES
    && Build(hash, node).value.0 == TreeEntry(Dir, hash(DirBlob(entries)), false, |entries|)
    && DirBlob(entries) in Build(hash, node).value.1
    && forall name :: name in node.children ==>
         && Build(hash, node.children[name]).Some? && entries[name] == Build(hash, node.children[name]).value.0
         && forall b :: b in Build(hash, node.children[name]).value.1 ==> b in Build(hash, node).value.1
  }

  // ... and every object comes from one of them, but for the directory's own.
  ghost predicate OwnOrBelow(hash: Hash, node: Node, entries: map<Text, TreeEntry>) {
    Build(hash, node).Some?
        && forall b :: b in Build(hash, node).value.1 ==>
             b == DirBlob(entries) || exists name :: FromChild(hash, node, name, b)
  }

  lemma BuildUnfold(hash: Hash, node: Node)
    requires node.Made? && Build(hash, node).Some?
    ensures exists entries: map<Text, TreeEntry> :: BuiltDir(hash, node, entries) && OwnOrBelow(hash, node, entries)
  {
    hide NamesOf, BuildAll, DirBlob, FromChild;
    var names := NamesOf(node.children);
    BuildAllIs(hash, node, names);
    assert BuiltDir(hash, node, BuildAll(hash, node, names).value.0);
  }

  ghost predicate Typed(hash: Hash) {
    forall b :: IsId(hash(b))
  }

  // An opened directory is stored as the directory of what its children are built to.
  lemma BuiltReads(hash: Hash, node: Node, entries: map<Text, TreeEntry>, after: Odb)
    requires BuiltDir(hash, node, entries) && Fit(node) && Typed(hash) && Stores(hash, after, Build(hash, node).value.1)
    ensures FetchTree(after, Build(hash, node).value.0.id) == Some(entries)
  {
    hide Build, EncodeTree, DecodeTree, TreeFits, Short;
    assert TreeFits(TreeObj(entries)) by {
      forall name | name in entries
        ensures EntryFits(name, entries[name])
      {
        BuiltFits(hash, node.children[name]);
      }
      TreeFitsIf(entries);
    }
    var f: FileObj, s: SnapshotObj := FileObj(0, [], map[]), SnapshotObj([], None, Actors.System, 0, 0, []);
    BodiesAreCanonical(DirBlob(entries).body, f, TreeObj(entries), s);
  }

  lemma TreeFitsIf(entries: map<Text, TreeEntry>)
    requires |entries| <= MAX_DIR_ENTRIES && forall name :: name in entries ==> EntryFits(name, entries[name])
    ensures TreeFits(TreeObj(entries))
  {
  }

  lemma BuiltFits(hash: Hash, node: Node)
    requires Build(hash, node).Some? && Fit(node) && Typed(hash)
    ensures IsId(Build(hash, node).value.0.id) && Build(hash, node).value.0.size < Range(8)
  {
    hide BuildAll, NamesOf, DirBlob, Short;
    assert Range(1) == 256 && Range(2) == 256 * Range(1) && Range(3) == 256 * Range(2);
  }

  ghost predicate Extends(odb: Odb, after: Odb) {
    forall id :: id in odb ==> id in after && after[id] == odb[id]
  }

  lemma StoredUnfold(odb: Odb, entry: TreeEntry, q: Path)
    requires entry.kind == Dir && q != []
    ensures LookAt(odb, Ref(entry), q) ==
      match FetchTree(odb, entry.id)
      case None => Broken
      case Some(entries) => if q[0] in entries then LookAt(odb, Ref(entries[q[0]]), q[1..]) else Absent
  {
    hide FetchTree;
  }

  lemma FetchStays(odb: Odb, id: Id, after: Odb)
    requires Extends(odb, after) && FetchTree(odb, id).Some?
    ensures FetchTree(after, id) == FetchTree(odb, id)
  {
    hide DecodeTree;
  }

  // A stored tree reads the same wherever more objects are at hand.
  lemma {:induction false} StoredStays(odb: Odb, node: Node, q: Path, after: Odb)
    requires node.Ref? && Extends(odb, after) && !LookAt(odb, node, q).Broken?
    ensures LookAt(after, node, q) == LookAt(odb, node, q)
    ensures LookAt(odb, node, q).Found? ==> LookAt(odb, node, q).node.Ref?
    decreases |q|
  {
    hide FetchTree, Extends, Refs, Open;
    if q != [] && node.entry.kind == Dir {
      hide LookAt;
      StoredUnfold(odb, node.entry, q);
      StoredUnfold(after, node.entry, q);
      FetchStays(odb, node.entry.id, after);
      var entries := FetchTree(odb, node.entry.id).value;
      if q[0] in entries {
        StoredStays(odb, Ref(entries[q[0]]), q[1..], after);
      }
    }
  }

  lemma BuiltOpens(after: Odb, entry: TreeEntry)
    ensures entry.kind == Dir && FetchTree(after, entry.id).Some? ==> Open(after, Ref(entry)).Some?
  {
    hide FetchTree;
  }

  lemma StoresPart(hash: Hash, odb: Odb, part: seq<Blob>, whole: seq<Blob>)
    requires Stores(hash, odb, whole) && forall b :: b in part ==> b in whole
    ensures Stores(hash, odb, part)
  {
    forall i | 0 <= i < |part|
      ensures hash(part[i]) in odb && odb[hash(part[i])] == part[i]
    {
      assert part[i] in whole;
    }
  }

  // An edited tree reads the same there, too, as far as it could be read.
  lemma {:induction false} LookStays(odb: Odb, node: Node, q: Path, after: Odb)
    requires Extends(odb, after) && !LookAt(odb, node, q).Broken?
    ensures LookAt(after, node, q) == LookAt(odb, node, q)
    decreases |q|
  {
    hide FetchTree, Extends, Refs, Open;
    if node.Ref? {
      StoredStays(odb, node, q, after);
    } else if q != [] {
      MadeOpens(odb, node);
      MadeOpens(after, node);
      hide LookAt;
      LookUnfold(odb, node, q);
      LookUnfold(after, node, q);
      if q[0] in node.children { LookStays(odb, node.children[q[0]], q[1..], after); }
    }
  }

  // What the edited tree shows at a path is what the built tree holds there, opened directories as
  // the entries they are built to and everything else as it was.
  lemma {:induction false} BuildIsExact(hash: Hash, odb: Odb, node: Node, q: Path, after: Odb)
    requires Build(hash, node).Some? && Fit(node) && Typed(hash)
    requires Extends(odb, after) && Stores(hash, after, Build(hash, node).value.1)
    requires !LookAt(odb, node, q).Broken?
    ensures match LookAt(odb, node, q)
      case Found(n) => Build(hash, n).Some?
          && LookAt(after, Ref(Build(hash, node).value.0), q) == Found(Ref(Build(hash, n).value.0))
      case _ => LookAt(after, Ref(Build(hash, node).value.0), q) == Absent
    ensures LookAt(odb, node, q).Found? && LookAt(odb, node, q).node.Made? ==>
      Build(hash, LookAt(odb, node, q).node).Some?
          && Open(after, Ref(Build(hash, LookAt(odb, node, q).node).value.0)).Some?
    decreases |q|
  {
    hide FetchTree, Extends, Refs, Open, BuildAll, NamesOf, DirBlob, Short;
    if node.Ref? {
      StoredStays(odb, node, q, after);
    } else {
      BuildUnfold(hash, node);
      var entries :| BuiltDir(hash, node, entries);
      BuiltReads(hash, node, entries, after);
      MadeOpens(odb, node);
      hide LookAt, Build;
      LookNone(odb, node);
      LookNone(after, Ref(Build(hash, node).value.0));
      BuiltOpens(after, Build(hash, node).value.0);
      if q == [] { return; }
      LookUnfold(odb, node, q);
      StoredUnfold(after, Build(hash, node).value.0, q);
      if q[0] in node.children {
        StoresPart(hash, after, Build(hash, node.children[q[0]]).value.1, Build(hash, node).value.1);
        BuildIsExact(hash, odb, node.children[q[0]], q[1..], after);
      }
    }
  }

  // An edit leaves the root open.
  lemma EditMakes(odb: Odb, root: Node, op: EditOp)
    requires Edit(odb, root, op).Some?
    ensures Edit(odb, root, op).value.Made?
  {
    hide LookAt, Open, Free;
  }

  // ---- the simple form: a map from paths to what is there ---------------------------------------------

  // `Sealed` is a directory that cannot be read; what would be below it is `Unknown`.
  datatype Spot = Nothing | Directory | Leaf(entry: TreeEntry) | Sealed | Unknown

  type Tree = Path -> Spot

  function SpotOf(odb: Odb, look: Look): Spot {
    match look
    case Broken => Unknown
    case Absent => Nothing
    case Found(node) =>
      if node.Ref? && node.entry.kind != Dir then Leaf(node.entry)
      else if Open(odb, node).Some? then Directory else Sealed
  }

  function SpotAt(odb: Odb, node: Node, path: Path): Spot {
    SpotOf(odb, LookAt(odb, node, path))
  }

  function TreeOf(odb: Odb, node: Node): Tree {
    path => SpotAt(odb, node, path)
  }

  ghost predicate AllDirectories(t: Tree, path: Path, create: bool) {
    forall i :: 0 <= i < |path| ==> t(path[..i]) == Directory || (create && t(path[..i]) == Nothing)
  }

  // What each edit asks of the tree: a put, a way to the parent; a new directory, besides, that
  // nothing is there; a removal, that something is; a move, both, and a parent at the destination.
  ghost predicate Permitted(t: Tree, op: EditOp) {
    match op
    case Put(path, _) => path != [] && AllDirectories(t, path, true)
    case Mkdir(path) => path != [] && AllDirectories(t, path, true) && t(path) == Nothing
    case Rm(path) => path != [] && t(path) != Nothing && t(path) != Unknown
    case Mv(from, to) =>
      && from != [] && to != [] && !(from <= to)
      && t(from) != Nothing && t(from) != Unknown && t(to[..|to| - 1]) == Directory && t(to) == Nothing
  }

  // And what it leaves at a path. A move takes along whatever is below its source.
  function Step(odb: Odb, t: Tree, op: EditOp, q: Path): Spot {
    match op
    case Put(path, entry) =>
      if path <= q then SpotAt(odb, Ref(entry), q[|path|..]) else if q <= path then Directory else t(q)
    case Mkdir(path) => if path < q then Nothing else if q <= path then Directory else t(q)
    case Rm(path) => if path <= q then Nothing else t(q)
    case Mv(from, to) => if to <= q then t(from + q[|to|..]) else if from <= q then Nothing else t(q)
  }

  ghost predicate Same(t: Tree, u: Tree) {
    forall q :: t(q) == u(q)
  }

  // The overlay's edits are the simple ones.
  lemma EditRefines(odb: Odb, root: Node, op: EditOp)
    ensures Edit(odb, root, op).Some? <==> Permitted(TreeOf(odb, root), op)
    ensures Edit(odb, root, op).Some? ==>
      forall q :: SpotAt(odb, Edit(odb, root, op).value, q) == Step(odb, TreeOf(odb, root), op, q)
  {
    hide Edit, LookAt, Open;
    EditSucceeds(odb, root, op);
    AllowedIsPermitted(odb, root, op);
    if Edit(odb, root, op).Some? {
      forall q
        ensures SpotAt(odb, Edit(odb, root, op).value, q) == Step(odb, TreeOf(odb, root), op, q)
      {
        EditIsExact(odb, root, op, q);
        EditedIsStep(odb, root, op, q, LookAt(odb, Edit(odb, root, op).value, q));
      }
    }
  }

  lemma AllowedIsPermitted(odb: Odb, root: Node, op: EditOp)
    ensures Allowed(odb, root, op) <==> Permitted(TreeOf(odb, root), op)
  {
    hide LookAt, Open;
    if (op.Put? || op.Mkdir?) && op.path != [] {
      ClearIsDirectories(odb, root, op.path);
      if op.Mkdir? && Clear(odb, root, op.path, true) { ClearIsKnown(odb, root, op.path); }
    }
    if op.Mv? && op.to != [] {
      LookParent(odb, root, op.to);
    }
  }

  lemma ClearIsDirectories(odb: Odb, root: Node, path: Path)
    ensures Clear(odb, root, path, true) <==> AllDirectories(TreeOf(odb, root), path, true)
  {
    hide LookAt;
    forall i | 0 <= i < |path|
      ensures Passes(odb, LookAt(odb, root, path[..i]), true) <==> SpotAt(odb, root, path[..i]) in {Directory, Nothing}
    {
      hide FetchTree, Refs;
    }
  }

  // With the way to the parent open, what is at the path is known.
  lemma {:induction false} ClearIsKnown(odb: Odb, root: Node, path: Path)
    requires Clear(odb, root, path, true)
    ensures !LookAt(odb, root, path).Broken?
    decreases |path|
  {
    hide FetchTree, Refs, Open, LookAt, Clear;
    if path == [] {
      LookNone(odb, root);
    } else {
      ClearUnfold(odb, root, path, true);
      LookUnfold(odb, root, path);
      var children := Open(odb, root).value;
      if path[0] in children {
        if |path| == 1 { assert path[1..] == []; LookNone(odb, children[path[0]]); }
        else { ClearIsKnown(odb, children[path[0]], path[1..]); }
      }
    }
  }

  lemma LookParent(odb: Odb, root: Node, path: Path)
    requires path != []
    ensures Free(odb, root, path) <==>
        SpotAt(odb, root, path[..|path| - 1]) == Directory && SpotAt(odb, root, path) == Nothing
  {
    hide LookAt, FetchTree, Refs;
  }

  lemma WayIsOpen(odb: Odb, root: Node, path: Path, q: Path)
    requires LookAt(odb, root, path).Found? && q <= path && q != path
    ensures SpotAt(odb, root, q) == Directory
  {
    hide LookAt, Open;
    FoundIsClear(odb, root, path);
    assert q == path[..|q|];
    LeafIsShut(odb, LookAt(odb, root, q));
  }

  lemma LeafIsShut(odb: Odb, look: Look)
    ensures look.Found? && Open(odb, look.node).Some? ==> SpotOf(odb, look) == Directory
  {
    hide FetchTree, Refs;
  }

  lemma EditedIsStep(odb: Odb, root: Node, op: EditOp, q: Path, after: Look)
    requires Edit(odb, root, op).Some? && Edited(odb, root, op, q, after)
    ensures SpotOf(odb, after) == Step(odb, TreeOf(odb, root), op, q)
  {
    hide Edit, LookAt, Open;
    EditSucceeds(odb, root, op);
    if after.Found? && after.node.Made? {
      MadeOpens(odb, after.node);
      LeafIsShut(odb, after);
    }
    if op.Rm? && q <= op.path && q != op.path { WayIsOpen(odb, root, op.path, q); }
    if op.Mv? { MovedIsStep(odb, root, op, q); }
  }

  lemma MovedIsStep(odb: Odb, root: Node, op: EditOp, q: Path)
    requires op.Mv? && Allowed(odb, root, op)
    ensures !(op.to <= q) && !(op.from <= q) && (q <= op.from || q <= op.to) ==> SpotAt(odb, root, q) == Directory
  {
    hide LookAt, Open;
    if q <= op.from && q != op.from {
      WayIsOpen(odb, root, op.from, q);
    } else if q <= op.to && q != op.to {
      var dirs := op.to[..|op.to| - 1];
      assert q == op.to[..|q|];
      if q == dirs { LeafIsShut(odb, LookAt(odb, root, q)); }
      else {
        assert q == dirs[..|q|];
        WayIsOpen(odb, root, dirs, q);
      }
    }
  }

  // ---- a run of edits ------------------------------------------------------------------------------

  function EditAll(odb: Odb, root: Node, ops: seq<EditOp>): Option<Node> {
    if ops == [] then Some(root)
    else
      match EditAll(odb, root, ops[..|ops| - 1])
      case None => None
      case Some(before) => Edit(odb, before, ops[|ops| - 1])
  }

  ghost function Replay(odb: Odb, t: Tree, ops: seq<EditOp>): Tree {
    if ops == [] then t
    else
      var before := Replay(odb, t, ops[..|ops| - 1]);
      q => Step(odb, before, ops[|ops| - 1], q)
  }

  ghost predicate AllPermitted(odb: Odb, t: Tree, ops: seq<EditOp>) {
    forall i :: 0 <= i < |ops| ==> Permitted(Replay(odb, t, ops[..i]), ops[i])
  }

  lemma SameStep(odb: Odb, t: Tree, u: Tree, op: EditOp)
    requires Same(t, u)
    ensures Permitted(t, op) == Permitted(u, op) && forall q :: Step(odb, t, op, q) == Step(odb, u, op, q)
  {
  }

  // A run goes through exactly if each edit is permitted where the ones before it leave the simple
  // tree, and shows what the simple tree then holds.
  lemma {:induction false} RunRefines(odb: Odb, root: Node, ops: seq<EditOp>)
    ensures EditAll(odb, root, ops).Some? <==> AllPermitted(odb, TreeOf(odb, root), ops)
    ensures EditAll(odb, root, ops).Some? ==>
        Same(TreeOf(odb, EditAll(odb, root, ops).value), Replay(odb, TreeOf(odb, root), ops))
    decreases |ops|
  {
    hide Edit, SpotAt, Step, Permitted, TreeOf;
    if ops != [] {
      var front, last := ops[..|ops| - 1], ops[|ops| - 1];
      var t := TreeOf(odb, root);
      RunRefines(odb, root, front);
      forall i | 0 <= i < |front|
        ensures front[..i] == ops[..i]
      {
      }
      if EditAll(odb, root, front).Some? {
        var before := EditAll(odb, root, front).value;
        EditRefines(odb, before, last);
        SameStep(odb, TreeOf(odb, before), Replay(odb, t, front), last);
        RunGrows(odb, t, ops);
        if Edit(odb, before, last).Some? { TreeOfIs(odb, Edit(odb, before, last).value); }
      } else {
        RunGrows(odb, t, ops);
      }
    }
  }

  lemma TreeOfIs(odb: Odb, node: Node)
    ensures forall q :: TreeOf(odb, node)(q) == SpotAt(odb, node, q)
  {
  }

  lemma RunGrows(odb: Odb, t: Tree, ops: seq<EditOp>)
    requires ops != []
    ensures var (front, last) := (ops[..|ops| - 1], ops[|ops| - 1]);
      AllPermitted(odb, t, ops) <==> AllPermitted(odb, t, front) && Permitted(Replay(odb, t, front), last)
  {
    hide Permitted, Replay;
    var front, last := ops[..|ops| - 1], ops[|ops| - 1];
    forall i | 0 <= i < |front|
      ensures Permitted(Replay(odb, t, front[..i]), front[i]) <==> Permitted(Replay(odb, t, ops[..i]), ops[i])
    {
      assert front[..i] == ops[..i];
    }
    if AllPermitted(odb, t, ops) {
      assert Permitted(Replay(odb, t, ops[..|ops| - 1]), ops[|ops| - 1]);
      forall i | 0 <= i < |front|
        ensures Permitted(Replay(odb, t, front[..i]), front[i])
      {
        assert Permitted(Replay(odb, t, ops[..i]), ops[i]);
      }
    }
    if AllPermitted(odb, t, front) && Permitted(Replay(odb, t, front), last) {
      forall i | 0 <= i < |ops|
        ensures Permitted(Replay(odb, t, ops[..i]), ops[i])
      {
        if i < |front| { assert Permitted(Replay(odb, t, front[..i]), front[i]); }
      }
    }
  }

  // ---- what a run leaves alone ---------------------------------------------------------------------

  function Touched(op: EditOp): seq<Path> {
    if op.Mv? then [op.from, op.to] else [op.path]
  }

  // Neither at, nor above, nor below anything an edit touches.
  ghost predicate Apart(ops: seq<EditOp>, q: Path) {
    forall i, p :: 0 <= i < |ops| && p in Touched(ops[i]) ==> !(p <= q) && !(q <= p)
  }

  lemma {:induction false} UntouchedStays(odb: Odb, root: Node, ops: seq<EditOp>, q: Path)
    requires EditAll(odb, root, ops).Some? && Apart(ops, q)
    ensures LookAt(odb, EditAll(odb, root, ops).value, q) == LookAt(odb, root, q)
    decreases |ops|
  {
    hide Edit, LookAt;
    if ops != [] {
      var front, last := ops[..|ops| - 1], ops[|ops| - 1];
      assert forall i :: 0 <= i < |front| ==> front[i] == ops[i];
      UntouchedStays(odb, root, front, q);
      EditIsExact(odb, EditAll(odb, root, front).value, last, q);
      assert forall p :: p in Touched(last) ==> !(p <= q) && !(q <= p);
      if last.Mv? { assert last.from in Touched(last) && last.to in Touched(last); }
      else { assert last.path in Touched(last); }
    }
  }

  // ---- what every edit keeps -----------------------------------------------------------------------

  predicate PathFits(path: Path) {
    forall i :: 0 <= i < |path| ==> Short(path[i], MAX_NAME_BYTES)
  }

  predicate OpGood(op: EditOp, ok: TreeEntry -> bool) {
    (forall p :: p in Touched(op) ==> PathFits(p)) && (op.Put? ==> ok(op.entry))
  }

  // What holds of a stored directory holds of the entries in it.
  ghost predicate Hereditary(odb: Odb, ok: TreeEntry -> bool) {
    forall e: TreeEntry, name ::
        ok(e) && e.kind == Dir && FetchTree(odb, e.id).Some? && name in FetchTree(odb, e.id).value ==>
      ok(FetchTree(odb, e.id).value[name])
  }

  lemma HoldableIsHereditary(odb: Odb)
    ensures Hereditary(odb, Holdable)
  {
    hide FetchTree, Short;
    forall id | FetchTree(odb, id).Some? { FetchFits(odb, id); }
  }

  lemma FetchFits(odb: Odb, id: Id)
    requires FetchTree(odb, id).Some?
    ensures forall name :: name in FetchTree(odb, id).value ==> EntryFits(name, FetchTree(odb, id).value[name])
  {
    hide DecodeTree, Short;
    var body := odb[id].body;
    var f: FileObj, s: SnapshotObj := FileObj(0, [], map[]), SnapshotObj([], None, Actors.System, 0, 0, []);
    BodiesAreCanonical(body, f, DecodeTree(body).value, s);
  }

  lemma OpenIsGood(odb: Odb, node: Node, ok: TreeEntry -> bool)
    requires Good(node, ok) && Hereditary(odb, ok) && Open(odb, node).Some?
    ensures forall name ::
        name in Open(odb, node).value ==> Short(name, MAX_NAME_BYTES) && Good(Open(odb, node).value[name], ok)
  {
    hide FetchTree, Short;
    if node.Ref? { FetchFits(odb, node.entry.id); }
  }

  lemma {:induction false} LookIsGood(odb: Odb, node: Node, path: Path, ok: TreeEntry -> bool)
    requires Good(node, ok) && Hereditary(odb, ok) && LookAt(odb, node, path).Found?
    ensures Good(LookAt(odb, node, path).node, ok)
    decreases |path|
  {
    hide Open, Short, Hereditary;
    if path != [] {
      OpenIsGood(odb, node, ok);
      LookIsGood(odb, Open(odb, node).value[path[0]], path[1..], ok);
    }
  }

  lemma {:induction false} SetIsGood(odb: Odb, node: Node, path: Path, value: Option<Node>, create: bool,
          ok: TreeEntry -> bool)
    requires path != [] && Good(node, ok) && Hereditary(odb, ok) && PathFits(path)
        && (value.Some? ==> Good(value.value, ok))
    requires SetAt(odb, node, path, value, create).Some?
    ensures Good(SetAt(odb, node, path, value, create).value, ok)
    decreases |path|
  {
    hide Open, Short, SetAt, Hereditary;
    OpenIsGood'(odb, node, ok);
    if |path| == 1 {
      SetLast(odb, node, path, value, create);
    } else {
      SetUnfold(odb, node, path, value, create);
      SetIsGood(odb, Child(Open(odb, node).value, path[0]), path[1..], value, create, ok);
    }
  }

  lemma OpenIsGood'(odb: Odb, node: Node, ok: TreeEntry -> bool)
    requires Good(node, ok) && Hereditary(odb, ok)
    ensures Open(odb, node).Some? ==>
      forall name :: name in Open(odb, node).value ==> Short(name, MAX_NAME_BYTES) && Good(Open(odb, node).value[name],
          ok)
  {
    hide *;
    if Open(odb, node).Some? { OpenIsGood(odb, node, ok); }
  }

  lemma EditIsGood(odb: Odb, root: Node, op: EditOp, ok: TreeEntry -> bool)
    requires Good(root, ok) && Hereditary(odb, ok) && OpGood(op, ok) && Edit(odb, root, op).Some?
    ensures Good(Edit(odb, root, op).value, ok)
  {
    hide PathFits, LookAt, SetAt, Open, Hereditary;
    match op
    case Put(path, entry) =>
      assert path in Touched(op);
      SetIsGood(odb, root, path, Some(Ref(entry)), true, ok);
    case Mkdir(path) =>
      assert path in Touched(op);
      SetIsGood(odb, root, path, Some(Made(map[])), true, ok);
    case Rm(path) =>
      assert path in Touched(op);
      SetIsGood(odb, root, path, None, false, ok);
    case Mv(from, to) =>
      assert from in Touched(op) && to in Touched(op);
      LookIsGood(odb, root, from, ok);
      SetIsGood(odb, root, from, None, false, ok);
      SetIsGood(odb, SetAt(odb, root, from, None, false).value, to, Some(LookAt(odb, root, from).node), false, ok);
  }

  lemma {:induction false} RunIsGood(odb: Odb, root: Node, ops: seq<EditOp>, ok: TreeEntry -> bool)
    requires Good(root, ok) && Hereditary(odb, ok) && EditAll(odb, root, ops).Some?
    requires forall i :: 0 <= i < |ops| ==> OpGood(ops[i], ok)
    ensures Good(EditAll(odb, root, ops).value, ok)
    decreases |ops|
  {
    hide Good, OpGood, Edit, Hereditary;
    if ops != [] {
      RunIsGood(odb, root, ops[..|ops| - 1], ok);
      EditIsGood(odb, EditAll(odb, root, ops[..|ops| - 1]).value, ops[|ops| - 1], ok);
    }
  }

  // ---- what is written can be read back --------------------------------------------------------------

  // Nothing, or an entry as it is stored.
  predicate Stored(look: Look) {
    look.Absent? || (look.Found? && look.node.Ref?)
  }

  // A built edit, read back: at every path what the simple tree holds after the same edits, and
  // away from what they touch the very entry there was, object id and all.
  lemma CopyOnWrite(hash: Hash, odb: Odb, root: Node, ops: seq<EditOp>, after: Odb, q: Path)
    requires Typed(hash) && Fit(root) && forall i :: 0 <= i < |ops| ==> OpGood(ops[i], Holdable)
    requires EditAll(odb, root, ops).Some? && Build(hash, EditAll(odb, root, ops).value).Some?
    requires Extends(odb, after) && Stores(hash, after, Build(hash, EditAll(odb, root, ops).value).value.1)
    ensures var (built, held) := (Ref(Build(hash, EditAll(odb, root, ops).value).value.0),
        Replay(odb, TreeOf(odb, root), ops)(q));
      && (held != Unknown && held != Sealed ==> SpotAt(after, built, q) == held)
      && (Apart(ops, q) && Stored(LookAt(odb, root, q)) ==> LookAt(after, built, q) == LookAt(odb, root, q))
  {
    hide Edit, LookAt, Open, Good, OpGood, Hereditary, Build, FetchTree, EditAll, Replay, Stores, Extends;
    var edited := EditAll(odb, root, ops).value;
    RunRefines(odb, root, ops);
    HoldableIsHereditary(odb);
    RunIsGood(odb, root, ops, Holdable);
    assert SpotAt(odb, edited, q) == TreeOf(odb, edited)(q);
    if !LookAt(odb, edited, q).Broken? {
      BuildIsExact(hash, odb, edited, q, after);
      if SpotAt(odb, edited, q) != Sealed { BuiltShows(hash, odb, edited, q, after); }
      if LookAt(odb, edited, q).Found? { BuildRef(hash, LookAt(odb, edited, q).node); }
    }
    if Apart(ops, q) && Stored(LookAt(odb, root, q)) { UntouchedStays(odb, root, ops, q); }
  }

  // A built tree shows what the edited one did.
  lemma BuiltShows(hash: Hash, odb: Odb, node: Node, q: Path, after: Odb)
    requires Build(hash, node).Some? && Fit(node) && Typed(hash)
    requires Extends(odb, after) && Stores(hash, after, Build(hash, node).value.1)
    requires SpotAt(odb, node, q) != Unknown && SpotAt(odb, node, q) != Sealed
    ensures SpotAt(after, Ref(Build(hash, node).value.0), q) == SpotAt(odb, node, q)
  {
    hide LookAt, Open, Good, Build, FetchTree, Stores, Extends;
    BuildIsExact(hash, odb, node, q, after);
    if LookAt(odb, node, q).Found? {
      SpotStays(odb, LookAt(odb, node, q).node, after);
      BuildRef(hash, LookAt(odb, node, q).node);
    }
  }

  lemma SameDir(odb: Odb, entry: TreeEntry, q: Path)
    requires entry.kind == Dir
    ensures SpotAt(odb, DirRef(entry.id), q) == SpotAt(odb, Ref(entry), q)
    ensures q != [] ==> LookAt(odb, DirRef(entry.id), q) == LookAt(odb, Ref(entry), q)
  {
    hide FetchTree;
    if q != [] {
      StoredUnfold(odb, entry, q);
      StoredUnfold(odb, TreeEntry(Dir, entry.id, false, 0), q);
    }
  }

  lemma BuildRef(hash: Hash, node: Node)
    ensures node.Ref? ==> Build(hash, node) == Some((node.entry, []))
    ensures node.Made? && Build(hash, node).Some? ==> Build(hash, node).value.0.kind == Dir
  {
    hide BuildAll, NamesOf, DirBlob;
  }

  lemma SpotStays(odb: Odb, node: Node, after: Odb)
    requires Extends(odb, after)
    ensures node.Ref? && Open(odb, node).Some? ==> Open(after, node).Some?
    ensures node.Made? ==> Open(odb, node).Some?
  {
    hide FetchTree, Extends;
    if node.Ref? && Open(odb, node).Some? { FetchStays(odb, node.entry.id, after); }
  }

  // ---- the edit as it runs -------------------------------------------------------------------------

  // The tree an edit starts from; no tree at all is the empty one.
  function Opening(tree: Option<Id>): Node {
    if tree.Some? then DirRef(tree.value) else Made(map[])
  }

  class TreeEdit {
    const hash: Hash
    const odb: Odb
    var root: Node

    constructor (hash: Hash, odb: Odb, tree: Option<Id>)
      ensures this.hash == hash && this.odb == odb && root == Opening(tree)
    {
      this.hash, this.odb, root := hash, odb, Opening(tree);
    }

    // The edit was made, as the simple tree makes it, or refused and nothing changed.
    ghost predicate Did(before: Node, op: EditOp, ok: bool)
      reads this
    {
      && ok == Permitted(TreeOf(odb, before), op)
      && (ok ==> Edit(odb, before, op) == Some(root) && forall q ::
        SpotAt(odb, root, q) == Step(odb, TreeOf(odb, before), op, q))
      && (!ok ==> root == before && Edit(odb, before, op).None?)
    }

    // `navigate` and the write it leads to: down to the directory above the last name, the write
    // there, and every directory passed on the way rewritten from the innermost out.
    method Place(path: Path, value: Option<Node>, create: bool) returns (ok: bool)
      requires path != []
      modifies this
      ensures var after := SetAt(odb, old(root), path, value, create);
        ok == after.Some? && root == if ok then after.value else old(root)
    {
      hide Open, SetAt;
      ghost var target := SetAt(odb, root, path, value, create);
      var node, above: seq<map<Text, Node>> := root, [];
      while |above| < |path| - 1
        invariant |above| < |path| && root == old(root)
        invariant target == Hung(above, path, SetAt(odb, node, path[|above|..], value, create))
      {
        var children, name := Open(odb, node), path[|above|];
        SetAtGoesDown(odb, node, path[|above|..], value, create);
        if children.None? || (name !in children.value && !create) { return false; }
        assert path[|above|..][1..] == path[|above| + 1..];
        node := Child(children.value, name);
        above := above + [children.value];
        HungOneMore(above, path, SetAt(odb, node, path[|above|..], value, create));
      }
      var children, last := Open(odb, node), path[|path| - 1];
      SetAtGoesDown(odb, node, path[|above|..], value, create);
      if children.None? { return false; }
      node := Made(if value.Some? then children.value[last := value.value] else children.value - {last});
      while above != []
        invariant |above| < |path|
        invariant target == Hung(above, path, Some(node))
      {
        node := Made(above[|above| - 1][path[|above| - 1] := node]);
        above := above[..|above| - 1];
      }
      root, ok := node, true;
    }

    method PutEntry(path: Path, entry: TreeEntry) returns (ok: bool)
      modifies this
      ensures Did(old(root), Put(path, entry), ok)
    {
      hide LookAt, SetAt, SpotAt, Step, Permitted;
      EditRefines(odb, root, Put(path, entry));
      if path == [] { return false; }
      ok := Place(path, Some(Ref(entry)), true);
    }

    method MakeDir(path: Path) returns (ok: bool)
      modifies this
      ensures Did(old(root), Mkdir(path), ok)
    {
      hide LookAt, SetAt, SpotAt, Step, Permitted;
      EditRefines(odb, root, Mkdir(path));
      if path == [] || LookAt(odb, root, path).Found? { return false; }
      ok := Place(path, Some(Made(map[])), true);
    }

    method Remove(path: Path) returns (ok: bool)
      modifies this
      ensures Did(old(root), Rm(path), ok)
    {
      hide LookAt, SetAt, SpotAt, Step, Permitted;
      EditRefines(odb, root, Rm(path));
      if path == [] || !LookAt(odb, root, path).Found? { return false; }
      ok := Place(path, None, false);
    }

    method Move(from: Path, to: Path) returns (ok: bool)
      modifies this
      ensures Did(old(root), Mv(from, to), ok)
    {
      hide LookAt, SetAt, SpotAt, Step, Permitted, Free, Allowed;
      EditRefines(odb, root, Mv(from, to));
      if from == [] || to == [] || from <= to { return false; }
      var source := LookAt(odb, root, from);
      if !source.Found? || !Free(odb, root, to) { return false; }
      RemoveSucceeds(odb, root, from);
      MoveSucceeds(odb, root, from, to);
      ok := Place(from, None, false);
      ok := Place(to, Some(source.node), false);
    }

    // Bottom-up: the opened directories below first, then the directory itself.
    method BuildDir(dir: Node, out: seq<Blob>) returns (entry: Option<TreeEntry>, pushed: seq<Blob>)
      requires dir.Made?
      ensures match Build(hash, dir)
        case None => entry == None
        case Some((built, blobs)) => entry == Some(built) && pushed == out + blobs
      decreases dir
    {
      hide *;
      var names, n, entries: map<Text, TreeEntry> := NamesOf(dir.children), 0, map[];
      pushed := out;
      GatherStarts(hash, dir, names, out);
      while n < |names|
        invariant n <= |names| && Gathered(hash, dir, names, n, entries, out, pushed)
      {
        var child, made := dir.children[names[n]], None;
        BuildRef(hash, child);
        GatherGoesOn(hash, dir, names, n, entries, out, pushed);
        if child.Ref? {
          made := Some(child.entry);
          assert pushed + [] == pushed;
        } else {
          made, pushed := BuildDir(child, pushed);
        }
        if made.None? { return None, pushed; }
        entries := entries[names[n] := made.value];
        n := n + 1;
      }
      GatherEnds(hash, dir, names, entries, out, pushed);
      if |entries| > MAX_DIR_ENTRIES { return None, pushed; }
      var blob := DirBlob(entries);
      entry, pushed := Some(TreeEntry(Dir, hash(blob), false, |entries|)), pushed + [blob];
    }
  }

  // The children before the `n`th are built; the others are still to come.
  ghost predicate Gathered(hash: Hash, dir: Node, names: seq<Text>, n: nat, entries: map<Text, TreeEntry>,
          out: seq<Blob>, pushed: seq<Blob>)
    requires dir.Made? && n <= |names| && forall name :: name in names ==> name in dir.children
  {
    var all, rest := BuildAll(hash, dir, names), BuildAll(hash, dir, names[n..]);
    && Matches(hash, dir, entries) && all.Some? == rest.Some?
    && (all.Some? ==> all.value.0 == rest.value.0 + entries && out + all.value.1 == pushed + rest.value.1)
  }

  ghost predicate Matches(hash: Hash, dir: Node, entries: map<Text, TreeEntry>)
    requires dir.Made?
  {
    forall name :: name in entries ==>
      name in dir.children && Build(hash, dir.children[name]).Some?
          && entries[name] == Build(hash, dir.children[name]).value.0
  }

  lemma GatherStarts(hash: Hash, dir: Node, names: seq<Text>, out: seq<Blob>)
    requires dir.Made? && forall name :: name in names ==> name in dir.children
    ensures Gathered(hash, dir, names, 0, map[], out, out)
  {
    hide BuildAll, Build;
    assert names[0..] == names;
  }

  // One child more, or no directory at all.
  lemma GatherGoesOn(hash: Hash, dir: Node, names: seq<Text>, n: nat, entries: map<Text, TreeEntry>, out: seq<Blob>,
          pushed: seq<Blob>)
    requires dir.Made? && n < |names| && (forall name :: name in names ==> name in dir.children)
        && names == NamesOf(dir.children)
    requires Gathered(hash, dir, names, n, entries, out, pushed)
    ensures match Build(hash, dir.children[names[n]])
      case None => Build(hash, dir).None?
      case Some((made, blobs)) => Gathered(hash, dir, names, n + 1, entries[names[n] := made], out, pushed + blobs)
  {
    hide BuildAll, Build, NamesOf, DirBlob;
    BuildIs(hash, dir);
    BuildNext(hash, dir, names[n..]);
    assert names[n..][1..] == names[n + 1..] && names[n..][0] == names[n];
    var child, rest := Build(hash, dir.children[names[n]]), BuildAll(hash, dir, names[n + 1..]);
    hide Gathered;
    GatherHolds(hash, dir, names, n, entries, out, pushed);
    if child.Some? {
      var made, blobs := child.value.0, child.value.1;
      if rest.Some? {
        LateEntry(rest.value.0, entries, names[n], made);
        Regroup(pushed, blobs, rest.value.1);
      }
      GatherHolds(hash, dir, names, n + 1, entries[names[n] := made], out, pushed + blobs);
    }
  }

  lemma GatherHolds(hash: Hash, dir: Node, names: seq<Text>, n: nat, entries: map<Text, TreeEntry>, out: seq<Blob>,
          pushed: seq<Blob>)
    requires dir.Made? && n <= |names| && forall name :: name in names ==> name in dir.children
    ensures Gathered(hash, dir, names, n, entries, out, pushed) <==>
      var all, rest := BuildAll(hash, dir, names), BuildAll(hash, dir, names[n..]);
      && Matches(hash, dir, entries) && all.Some? == rest.Some?
      && (all.Some? ==> all.value.0 == rest.value.0 + entries && out + all.value.1 == pushed + rest.value.1)
  {
    hide BuildAll, Build;
  }

  lemma LateEntry(rest: map<Text, TreeEntry>, entries: map<Text, TreeEntry>, name: Text, made: TreeEntry)
    requires name in entries ==> entries[name] == made
    ensures rest[name := made] + entries == rest + entries[name := made]
  {
  }

  lemma GatherEnds(hash: Hash, dir: Node, names: seq<Text>, entries: map<Text, TreeEntry>, out: seq<Blob>,
          pushed: seq<Blob>)
    requires dir.Made? && (forall name :: name in names ==> name in dir.children) && names == NamesOf(dir.children)
    requires Gathered(hash, dir, names, |names|, entries, out, pushed)
    ensures match Build(hash, dir)
      case None => |entries| > MAX_DIR_ENTRIES
      case Some((made, blobs)) =>
        && |entries| <= MAX_DIR_ENTRIES && made == TreeEntry(Dir, hash(DirBlob(entries)), false, |entries|)
        && out + blobs == pushed + [DirBlob(entries)]
  {
    hide BuildAll, Build, NamesOf, DirBlob;
    BuildIs(hash, dir);
    BuildNext(hash, dir, names[|names|..]);
    var all := BuildAll(hash, dir, names);
    assert map[] + entries == entries;
    assert pushed + [] == pushed;
    Regroup(out, all.value.1, [DirBlob(entries)]);
  }

  lemma BuildNext(hash: Hash, dir: Node, names: seq<Text>)
    requires dir.Made? && forall name :: name in names ==> name in dir.children
    ensures BuildAll(hash, dir, names) ==
      if names == [] then Some((map[], []))
      else
        match (Build(hash, dir.children[names[0]]), BuildAll(hash, dir, names[1..]))
        case (Some(first), Some(rest)) => Some((rest.0[names[0] := first.0], first.1 + rest.1))
        case _ => None
  {
    hide Build;
  }

  lemma BuildIs(hash: Hash, dir: Node)
    requires dir.Made?
    ensures Build(hash, dir) ==
      match BuildAll(hash, dir, NamesOf(dir.children))
      case None => None
      case Some((entries, blobs)) =>
        if |entries| > MAX_DIR_ENTRIES then None
        else Some((TreeEntry(Dir, hash(DirBlob(entries)), false, |entries|), blobs + [DirBlob(entries)]))
  {
    hide BuildAll, DirBlob, NamesOf;
  }
}
