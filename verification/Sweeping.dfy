// Mark and sweep (crates/duckfs/core/src/gc.rs:44-391, crates/duckfs/core/src/fs.rs:1146-1158).
module Sweeping {
  import opened Wrappers
  import opened Kinds
  import opened Reachability
  import opened Marking
  import opened Collecting

  // ---- `mark` and `collect_missing` are twins ---------------------------------------------------------

  // What the strict walk makes of a lenient one: a fault unless nothing was recorded on the way.
  function Stern(r: Outcome, missing: set<Id>): Outcome {
    if r.Walked? && r.missing == missing then r else Fault
  }

  lemma {:induction false} StrictTwin(store: Store, node: Node, visited: set<Id>, missing: set<Id>)
    requires missing <= visited
    ensures Visit(store, true, node, visited, missing) == Stern(Visit(store, false, node, visited, missing), missing)
    ensures var r := Visit(store, false, node, visited, missing); r.Walked? ==> missing <= r.missing <= r.visited
    decreases Left(store, visited), 0
  {
    if node.id !in visited && node.id in store && Edges(store, node).Some? {
      Shrinks(store, visited, node.id);
      StrictTwins(store, Edges(store, node).value, visited + {node.id}, missing);
    }
  }

  lemma {:induction false} StrictTwins(store: Store, nodes: seq<Node>, visited: set<Id>, missing: set<Id>)
    requires missing <= visited
    ensures VisitAll(store, true, nodes, visited, missing)
        == Stern(VisitAll(store, false, nodes, visited, missing), missing)
    ensures var r := VisitAll(store, false, nodes, visited, missing); r.Walked? ==> missing <= r.missing <= r.visited
    decreases Left(store, visited), 1 + |nodes|
  {
    if nodes != [] {
      StrictTwin(store, nodes[0], visited, missing);
      var r := Visit(store, false, nodes[0], visited, missing);
      if r.Walked? {
        Shrinks'(store, visited, r.visited);
        StrictTwins(store, nodes[1..], r.visited, r.missing);
      }
    }
  }

  lemma {:induction false} CatalogKeepsMissing(store: Store, stack: seq<Pending>, catalog: set<Id>, visited: set<Id>,
          missing: set<Id>)
    requires missing <= visited && WalkCatalog(store, stack, catalog, visited, missing).Walked?
    ensures missing <= WalkCatalog(store, stack, catalog, visited, missing).missing
    decreases Left(store, catalog), |stack|
  {
    hide *;
    WalkTurns(store, stack, catalog, visited, missing);
    if stack != [] {
      var top, rest := stack[|stack| - 1], stack[..|stack| - 1];
      var id := top.node.id;
      if id in catalog {
        CatalogKeepsMissing(store, rest, catalog, visited, missing);
      } else if id !in store {
        Shrinks'(store, catalog, catalog + {id});
        CatalogKeepsMissing(store, rest, catalog + {id}, visited + {id}, missing + {id});
      } else {
        Shrinks(store, catalog, id);
        if top.node.role == AsCatalogRecord {
          var snapshot := SnapshotOf(store, top.node);
          StrictTwin(store, snapshot, visited + {id}, missing);
          var v := Visit(store, false, snapshot, visited + {id}, missing);
          CatalogKeepsMissing(store, rest, catalog + {id}, v.visited, v.missing);
        } else {
          var more := Deeper(CatalogChildren(store, top.node), top.depth + 1);
          CatalogKeepsMissing(store, rest + more, catalog + {id}, visited + {id}, missing);
        }
      }
    }
  }

  // On every store, well kinded or not: nothing is missing exactly if `mark` succeeds.
  lemma NothingMissingIffMarked(store: Store, roots: Roots)
    ensures CollectMissing(store, roots) == Some({}) <==> Mark(store, roots).Some?
  {
    hide VisitAll, WalkCatalog, Ordinary, CatalogStack;
    StrictTwins(store, Ordinary(roots), {}, {});
    var r := VisitAll(store, false, Ordinary(roots), {}, {});
    if r.Walked? && WalkCatalog(store, CatalogStack(roots), {}, r.visited, r.missing).Walked? {
      CatalogKeepsMissing(store, CatalogStack(roots), {}, r.visited, r.missing);
    }
  }

  // ---- the sweep -------------------------------------------------------------------------------------

  function Swept(store: Store, live: set<Id>): (swept: Store)
    ensures swept.Keys == store.Keys * live && forall id :: id in swept ==> swept[id] == store[id]
  {
    map id | id in store && id in live :: store[id]
  }

  // A walk looks only at what it visits, so it does not notice a sweep of everything else.
  lemma {:induction false} VisitUnmoved(store: Store, live: set<Id>, strict: bool, node: Node, visited: set<Id>,
          missing: set<Id>)
    requires Visit(store, strict, node, visited, missing).Walked?
    requires Visit(store, strict, node, visited, missing).visited <= live
    ensures Visit(Swept(store, live), strict, node, visited, missing) == Visit(store, strict, node, visited, missing)
    decreases Left(store, visited), 0
  {
    if node.id !in visited {
      assert node.id in Visit(store, strict, node, visited, missing).visited;
      if node.id in store {
        Shrinks(store, visited, node.id);
        VisitAllUnmoved(store, live, strict, Edges(store, node).value, visited + {node.id}, missing);
      }
    }
  }

  lemma {:induction false} VisitAllUnmoved(store: Store, live: set<Id>, strict: bool, nodes: seq<Node>,
          visited: set<Id>, missing: set<Id>)
    requires VisitAll(store, strict, nodes, visited, missing).Walked?
    requires VisitAll(store, strict, nodes, visited, missing).visited <= live
    ensures VisitAll(Swept(store, live), strict, nodes, visited, missing)
        == VisitAll(store, strict, nodes, visited, missing)
    decreases Left(store, visited), 1 + |nodes|
  {
    if nodes != [] {
      var r := Visit(store, strict, nodes[0], visited, missing);
      Shrinks'(store, visited, r.visited);
      VisitUnmoved(store, live, strict, nodes[0], visited, missing);
      VisitAllUnmoved(store, live, strict, nodes[1..], r.visited, r.missing);
    }
  }

  lemma {:induction false} CatalogVisits(store: Store, stack: seq<Pending>, catalog: set<Id>, visited: set<Id>,
          missing: set<Id>)
    requires WalkCatalog(store, stack, catalog, visited, missing).Walked?
    ensures visited <= WalkCatalog(store, stack, catalog, visited, missing).visited
    decreases Left(store, catalog), |stack|
  {
    hide *;
    WalkTurns(store, stack, catalog, visited, missing);
    if stack != [] {
      var top, rest := stack[|stack| - 1], stack[..|stack| - 1];
      var id := top.node.id;
      if id in catalog {
        CatalogVisits(store, rest, catalog, visited, missing);
      } else if id !in store {
        Shrinks'(store, catalog, catalog + {id});
        CatalogVisits(store, rest, catalog + {id}, visited + {id}, missing + {id});
      } else {
        Shrinks(store, catalog, id);
        if top.node.role == AsCatalogRecord {
          var v := Visit(store, false, SnapshotOf(store, top.node), visited + {id}, missing);
          CatalogVisits(store, rest, catalog + {id}, v.visited, v.missing);
        } else {
          var more := Deeper(CatalogChildren(store, top.node), top.depth + 1);
          CatalogVisits(store, rest + more, catalog + {id}, visited + {id}, missing);
        }
      }
    }
  }

  // The other way round: what one turn does when the state is known.
  lemma WalkTurn(store: Store, stack: seq<Pending>, catalog: set<Id>, visited: set<Id>, missing: set<Id>)
    requires stack != [] && stack[|stack| - 1].depth <= CATALOG_DEPTH
    ensures
      var r := WalkCatalog(store, stack, catalog, visited, missing);
      var (top, rest) := (stack[|stack| - 1], stack[..|stack| - 1]);
      var (node, id) := (top.node, top.node.id);
      && (id in catalog ==> r == WalkCatalog(store, rest, catalog, visited, missing))
      && (id !in catalog && id !in store ==>
        r == WalkCatalog(store, rest, catalog + {id}, visited + {id}, missing + {id}))
      && (id !in catalog && Sound(store, node) && node.role == AsCatalogRecord ==>
            var v := Visit(store, false, SnapshotOf(store, node), visited + {id}, missing);
            v.Walked? ==> r == WalkCatalog(store, rest, catalog + {id}, v.visited, v.missing))
      && (id !in catalog && Sound(store, node) && node.role != AsCatalogRecord ==>
            r == WalkCatalog(store, rest + Deeper(CatalogChildren(store, node), top.depth + 1), catalog + {id},
                visited + {id}, missing))
  {
    hide Visit, VisitAll, Edges, CatalogChildren, Deeper, Left, Children;
  }

  // An empty stack ends the walk, and what is looked at is never too deep.
  lemma WalkBounds(store: Store, stack: seq<Pending>, catalog: set<Id>, visited: set<Id>, missing: set<Id>)
    ensures stack == [] ==> WalkCatalog(store, stack, catalog, visited, missing) == Walked(visited, missing)
    ensures stack != [] && WalkCatalog(store, stack, catalog, visited, missing).Walked? ==>
        stack[|stack| - 1].depth <= CATALOG_DEPTH
  {
    hide Visit, VisitAll, Edges, CatalogChildren, Deeper, Left, Children;
  }

  lemma {:induction false} CatalogUnmoved(store: Store, live: set<Id>, stack: seq<Pending>, catalog: set<Id>,
          visited: set<Id>, missing: set<Id>)
    requires WalkCatalog(store, stack, catalog, visited, missing).Walked?
    requires WalkCatalog(store, stack, catalog, visited, missing).visited <= live
    ensures WalkCatalog(Swept(store, live), stack, catalog, visited, missing)
        == WalkCatalog(store, stack, catalog, visited, missing)
    decreases Left(store, catalog), |stack|
  {
    hide *;
    var swept := Swept(store, live);
    WalkBounds(store, stack, catalog, visited, missing);
    WalkBounds(swept, stack, catalog, visited, missing);
    WalkTurns(store, stack, catalog, visited, missing);
    if stack != [] {
      var top, rest := stack[|stack| - 1], stack[..|stack| - 1];
      var id := top.node.id;
      WalkTurn(swept, stack, catalog, visited, missing);
      if id in catalog {
        CatalogUnmoved(store, live, rest, catalog, visited, missing);
      } else if id !in store {
        Shrinks'(store, catalog, catalog + {id});
        CatalogUnmoved(store, live, rest, catalog + {id}, visited + {id}, missing + {id});
      } else {
        Shrinks(store, catalog, id);
        if top.node.role == AsCatalogRecord {
          var snapshot := SnapshotOf(store, top.node);
          var v := Visit(store, false, snapshot, visited + {id}, missing);
          CatalogVisits(store, rest, catalog + {id}, v.visited, v.missing);
          assert id in live;
          SoundUnmoved(store, live, top.node);
          VisitUnmoved(store, live, false, snapshot, visited + {id}, missing);
          CatalogUnmoved(store, live, rest, catalog + {id}, v.visited, v.missing);
        } else {
          var more := Deeper(CatalogChildren(store, top.node), top.depth + 1);
          CatalogVisits(store, rest + more, catalog + {id}, visited + {id}, missing);
          assert id in live;
          SoundUnmoved(store, live, top.node);
          CatalogUnmoved(store, live, rest + more, catalog + {id}, visited + {id}, missing);
        }
      }
    }
  }

  lemma SoundUnmoved(store: Store, live: set<Id>, node: Node)
    requires Sound(store, node) && node.id in live
    ensures Sound(Swept(store, live), node) && CatalogChildren(Swept(store, live), node) == CatalogChildren(store, node)
    ensures node.role == AsCatalogRecord ==> SnapshotOf(Swept(store, live), node) == SnapshotOf(store, node)
  {
  }

  // A second mark right after a sweep finds the same live set, so a second sweep removes nothing.
  lemma SweepKeepsTheMark(store: Store, roots: Roots)
    requires Mark(store, roots).Some?
    ensures var live := Mark(store, roots).value;
      Mark(Swept(store, live), roots) == Some(live) && Swept(Swept(store, live), live) == Swept(store, live)
  {
    hide VisitAll, WalkCatalog, Ordinary, CatalogStack;
    var live := Mark(store, roots).value;
    var r := VisitAll(store, true, Ordinary(roots), {}, {});
    CatalogVisits(store, CatalogStack(roots), {}, r.visited, r.missing);
    VisitAllUnmoved(store, live, true, Ordinary(roots), {}, {});
    CatalogUnmoved(store, live, CatalogStack(roots), {}, r.visited, r.missing);
  }

  // ---- the hypothesis is needed -----------------------------------------------------------------------

  // A file that names a tree's id as a chunk makes the walk pass that tree by: the mark succeeds,
  // leaves out a reachable file, and the sweep takes it.
  lemma ConfusedGraphLosesAFile() returns (store: Store, roots: Roots, lost: Id)
    ensures Mark(store, roots).Some? && AllSound(store, roots)
    ensures lost in Ids(Reached(store, roots)) && lost in store && lost !in Swept(store, Mark(store, roots).value)
  {
    hide Mark, Reached, AllSound;
    var (s, t, f, d, g) := ([1], [2], [3], [4], [5]);
    store := map[
      s := SnapshotObject(Some(t)),
      t := TreeObject(Some([Entry(File, f), Entry(Dir, d)])),
      f := FileObject(Some(FileView([d], None))),
      d := TreeObject(Some([Entry(File, g)])),
      g := FileObject(Some(FileView([], None)))];
    roots := Roots(Some(s), [], [], [], None);
    lost := g;
    ConfusedMark(store, roots, s, t, f, d, g);
    ConfusedReach(store, roots, s, t, f, d, g);
  }

  predicate IsConfused(store: Store, roots: Roots, s: Id, t: Id, f: Id, d: Id, g: Id) {
    && s == [1] && t == [2] && f == [3] && d == [4] && g == [5]
    && store.Keys == {s, t, f, d, g} && roots == Roots(Some(s), [], [], [], None)
    && store[s] == SnapshotObject(Some(t)) && store[t] == TreeObject(Some([Entry(File, f), Entry(Dir, d)]))
    && store[f] == FileObject(Some(FileView([d], None))) && store[d] == TreeObject(Some([Entry(File, g)]))
    && store[g] == FileObject(Some(FileView([], None)))
  }

  lemma ConfusedMark(store: Store, roots: Roots, s: Id, t: Id, f: Id, d: Id, g: Id)
    requires IsConfused(store, roots, s, t, f, d, g)
    ensures Mark(store, roots) == Some({s, t, f, d})
  {
    var file, rest := Node(AsFile, f), [Node(AsTree, d)];
    assert {s, t, f} + {d} == {s, t, f, d} && {s, t} + {f} == {s, t, f} && {s} + {t} == {s, t} && {} + {s} == {s};
    assert Edges(store, file).value == [Node(AsChunk, d)];
    assert VisitAll(store, true, [], {s, t, f, d}, {}) == Walked({s, t, f, d}, {});
    assert Visit(store, true, Node(AsChunk, d), {s, t, f}, {}) == Walked({s, t, f, d}, {});
    assert [Node(AsChunk, d)][1..] == [] && rest[1..] == [];
    assert Visit(store, true, file, {s, t}, {}) == Walked({s, t, f, d}, {});
    assert VisitAll(store, true, rest, {s, t, f, d}, {}) == Walked({s, t, f, d}, {});
    var kids := [file] + rest;
    assert Edges(store, Node(AsTree, t)).value == kids && kids[1..] == rest;
    assert VisitAll(store, true, kids, {s, t}, {}) == Walked({s, t, f, d}, {});
    assert Visit(store, true, Node(AsTree, t), {s}, {}) == Walked({s, t, f, d}, {});
    assert VisitAll(store, true, [Node(AsTree, t)], {s}, {}) == Walked({s, t, f, d}, {});
    assert Edges(store, Node(AsSnapshot, s)).value == [Node(AsTree, t)];
    assert Visit(store, true, Node(AsSnapshot, s), {}, {}) == Walked({s, t, f, d}, {});
    assert Ordinary(roots) == [Node(AsSnapshot, s)] && [Node(AsSnapshot, s)][1..] == [];
    assert VisitAll(store, true, Ordinary(roots), {}, {}) == Walked({s, t, f, d}, {});
  }

  lemma ConfusedReach(store: Store, roots: Roots, s: Id, t: Id, f: Id, d: Id, g: Id)
    requires IsConfused(store, roots, s, t, f, d, g)
    ensures g in Ids(Reached(store, roots)) && AllSound(store, roots)
  {
    hide Reached;
    ReachedIsLeast(store, roots);
    var all := {Node(AsSnapshot, s), Node(AsTree, t), Node(AsFile, f), Node(AsChunk, d), Node(AsTree, d),
        Node(AsFile, g)};
    assert Ordinary(roots) == [Node(AsSnapshot, s)];
    assert Closed(store, all) && Holds(all, Ordinary(roots) + Catalog(roots));
    assert Ordinary(roots)[0] in Ordinary(roots) + Catalog(roots);
    assert Children(store, Node(AsSnapshot, s))[0] == Node(AsTree, t);
    assert Children(store, Node(AsTree, t))[1] == Node(AsTree, d);
    assert Children(store, Node(AsTree, d))[0] == Node(AsFile, g);
  }
}
