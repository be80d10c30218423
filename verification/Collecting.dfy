// What the reachability walk finds (crates/duckfs/core/src/gc.rs:22-144): exactly the reachable set.
module Collecting {
  import opened Kinds
  import opened Reachability
  import opened Marking

  // ---- soundness: a walk that ends has seen the reachable set, no more and no less ------------------

  lemma WalkSees(store: Store, strict: bool, roots: Roots)
    requires Unconfused(Reached(store, roots)) && WalkRoots(store, strict, roots).Walked?
    ensures var r := WalkRoots(store, strict, roots);
      && r.visited == Ids(Reached(store, roots))
      && Settled(store, {}, Reached(store, roots), {}, r.missing) && Absent(store, r.visited, r.missing)
  {
    hide VisitAll, WalkCatalog, Reached, Children, Plain;
    ReachedIsLeast(store, roots);
    var all := Reached(store, roots);
    var first := VisitAll(store, strict, Ordinary(roots), {}, {});
    var mid := VisitAllSees(store, strict, Ordinary(roots), {}, {}, all, {});
    var stack := CatalogStack(roots);
    CatalogBegins(store, roots, all, mid, first.visited, first.missing);
    var after := CatalogSees(store, stack, {}, first.visited, first.missing, all, {}, mid);
    assert Closed(store, after) && Holds(after, Ordinary(roots) + Catalog(roots)) by {
      assert Awaited([]) == {};
      CatalogAwaited(roots);
    }
    assert after == all;
  }

  lemma CatalogAwaited(roots: Roots)
    ensures Holds(Awaited(CatalogStack(roots)), Catalog(roots))
  {
    if roots.retention.Some? {
      assert CatalogStack(roots)[0] in CatalogStack(roots);
    }
  }

  lemma CatalogBegins(store: Store, roots: Roots, all: set<Node>, seen: set<Node>, visited: set<Id>, missing: set<Id>)
    requires Holds(all, Ordinary(roots) + Catalog(roots)) && Seen(seen, visited, all) && Absent(store, visited, missing)
    requires Settled(store, {}, seen, {}, missing) && forall n :: n in seen ==> !InCatalog(n)
    ensures CatalogStep(store, all, {}, seen, CatalogStack(roots), {}, visited, missing)
  {
    hide Children, Seen;
    if roots.retention.Some? {
      assert Catalog(roots)[0] in Ordinary(roots) + Catalog(roots);
      assert Catalog(roots)[1] in Ordinary(roots) + Catalog(roots);
    }
  }

  // ---- completeness: nothing corrupt means the walk ends ---------------------------------------------

  ghost predicate Walkable(store: Store, strict: bool, all: set<Node>) {
    Closed(store, all) && forall n :: n in all ==> !Corrupt(store, n) && (strict ==> n.id in store)
  }

  lemma {:induction false} VisitEnds(store: Store, strict: bool, node: Node, visited: set<Id>, missing: set<Id>,
          all: set<Node>)
    requires Walkable(store, strict, all) && node in all
    ensures Visit(store, strict, node, visited, missing).Walked?
    decreases Left(store, visited), 0
  {
    if node.id !in visited && node.id in store {
      Shrinks(store, visited, node.id);
      assert Edges(store, node).value == Children(store, node);
      VisitAllEnds(store, strict, Edges(store, node).value, visited + {node.id}, missing, all);
    }
  }

  lemma {:induction false} VisitAllEnds(store: Store, strict: bool, nodes: seq<Node>, visited: set<Id>,
          missing: set<Id>, all: set<Node>)
    requires Walkable(store, strict, all) && Holds(all, nodes)
    ensures VisitAll(store, strict, nodes, visited, missing).Walked?
    decreases Left(store, visited), 1 + |nodes|
  {
    if nodes != [] {
      VisitEnds(store, strict, nodes[0], visited, missing, all);
      var r := Visit(store, strict, nodes[0], visited, missing);
      Shrinks'(store, visited, r.visited);
      VisitAllEnds(store, strict, nodes[1..], r.visited, r.missing, all);
    }
  }

  // A way down the catalog from its root.
  ghost predicate Chain(store: Store, root: Id, chain: seq<Node>) {
    && chain != [] && chain[0] == Node(AsCatalogDir, root)
    && forall i :: 0 <= i < |chain| - 1 ==>
         && Sound(store, chain[i]) && chain[i].role == AsCatalogDir
         && chain[i + 1] in CatalogChildren(store, chain[i])
  }

  // No way down the catalog is longer than the depth the walk allows.
  ghost predicate Shallow(store: Store, roots: Roots) {
    roots.retention.Some? ==>
      forall chain :: Chain(store, roots.retention.value, chain) ==> |chain| <= CATALOG_DEPTH + 1
  }

  ghost predicate Traced(store: Store, roots: Roots, p: Pending) {
    roots.retention.Some? &&
    exists chain :: Chain(store, roots.retention.value, chain) && |chain| == p.depth + 1 && chain[p.depth] == p.node
  }

  lemma DeeperIsTraced(store: Store, roots: Roots, top: Pending)
    requires Traced(store, roots, top) && top.node.role == AsCatalogDir && Sound(store, top.node)
    ensures forall p :: p in Deeper(CatalogChildren(store, top.node), top.depth + 1) ==> Traced(store, roots, p)
  {
    hide CatalogChildren, Edges;
    var chain :| Chain(store, roots.retention.value, chain) && |chain| == top.depth + 1 && chain[top.depth] == top.node;
    forall p | p in Deeper(CatalogChildren(store, top.node), top.depth + 1)
      ensures Traced(store, roots, p)
    {
      assert Chain(store, roots.retention.value, chain + [p.node]);
    }
  }

  ghost predicate Ready(store: Store, roots: Roots, all: set<Node>, p: Pending) {
    p.node in all && InCatalog(p.node) && Plain(p.node) in all && Traced(store, roots, p)
  }

  lemma {:induction false} CatalogEnds(store: Store, roots: Roots, stack: seq<Pending>, catalog: set<Id>,
          visited: set<Id>, missing: set<Id>, all: set<Node>)
    requires Walkable(store, false, all) && Shallow(store, roots)
    requires forall p :: p in stack ==> Ready(store, roots, all, p)
    ensures WalkCatalog(store, stack, catalog, visited, missing).Walked?
    decreases Left(store, catalog), |stack|
  {
    hide Visit, VisitAll, Edges, CatalogChildren, Deeper, Left, Children, Walkable, Shallow, Ready;
    if stack != [] {
      var top, rest := stack[|stack| - 1], stack[..|stack| - 1];
      var id := top.node.id;
      assert top in stack;
      TopIsSound(store, roots, top, all);
      if id in catalog {
        CatalogEnds(store, roots, rest, catalog, visited, missing, all);
      } else if id !in store {
        Shrinks'(store, catalog, catalog + {id});
        CatalogEnds(store, roots, rest, catalog + {id}, visited + {id}, missing + {id}, all);
      } else {
        Shrinks(store, catalog, id);
        if top.node.role == AsCatalogRecord {
          var snapshot := Edges(store, top.node).value[1];
          VisitEnds(store, false, snapshot, visited + {id}, missing, all);
          var r := Visit(store, false, snapshot, visited + {id}, missing);
          CatalogEnds(store, roots, rest, catalog + {id}, r.visited, r.missing, all);
        } else {
          var more := Deeper(CatalogChildren(store, top.node), top.depth + 1);
          CatalogEnds(store, roots, rest + more, catalog + {id}, visited + {id}, missing, all);
        }
      }
    }
  }

  lemma TopIsSound(store: Store, roots: Roots, top: Pending, all: set<Node>)
    requires Walkable(store, false, all) && Shallow(store, roots) && Ready(store, roots, all, top)
    ensures top.depth <= CATALOG_DEPTH
    ensures top.node.id in store ==> Edges(store, top.node).Some?
    ensures top.node.id in store && top.node.role == AsCatalogRecord ==>
      |Edges(store, top.node).value| == 2 && Edges(store, top.node).value[1] in all
    ensures top.node.id in store && top.node.role != AsCatalogRecord ==>
      forall p :: p in Deeper(CatalogChildren(store, top.node), top.depth + 1) ==> Ready(store, roots, all, p)
  {
    if top.node.id in store {
      DeeperInAll(store, all, top.node, top.depth + 1);
      if top.node.role != AsCatalogRecord { DeeperIsTraced(store, roots, top); }
    }
  }

  lemma WalkEnds(store: Store, strict: bool, roots: Roots)
    requires Walkable(store, strict, Reached(store, roots)) && Shallow(store, roots)
    ensures WalkRoots(store, strict, roots).Walked?
  {
    hide VisitAll, WalkCatalog, Reached, Children, Edges, Shallow;
    ReachedIsLeast(store, roots);
    var all := Reached(store, roots);
    VisitAllEnds(store, strict, Ordinary(roots), {}, {}, all);
    var first := VisitAll(store, strict, Ordinary(roots), {}, {});
    forall p | p in CatalogStack(roots)
      ensures Ready(store, roots, all, p)
    {
      assert Chain(store, roots.retention.value, [p.node]);
      assert p.node == Catalog(roots)[0] && Plain(p.node) == Catalog(roots)[1];
      assert Catalog(roots)[0] in Ordinary(roots) + Catalog(roots);
      assert Catalog(roots)[1] in Ordinary(roots) + Catalog(roots);
    }
    CatalogEnds(store, roots, CatalogStack(roots), {}, first.visited, first.missing, all);
  }

  // ---- the theorems ----------------------------------------------------------------------------------

  ghost predicate AllSound(store: Store, roots: Roots) {
    forall n :: n in Reached(store, roots) ==> Sound(store, n)
  }

  ghost predicate NoneCorrupt(store: Store, roots: Roots) {
    forall n :: n in Reached(store, roots) ==> !Corrupt(store, n)
  }

  ghost function Absentees(store: Store, roots: Roots): set<Id> {
    set n | n in Reached(store, roots) && n.id !in store :: n.id
  }

  // `mark` succeeds exactly if everything reachable is present and what its place demands, and
  // then it returns exactly the ids reached.
  lemma MarkIsExact(store: Store, roots: Roots)
    requires Unconfused(Reached(store, roots))
    ensures Mark(store, roots).Some? ==>
        AllSound(store, roots) && Mark(store, roots).value == Ids(Reached(store, roots))
    ensures AllSound(store, roots) && Shallow(store, roots) ==> Mark(store, roots).Some?
  {
    hide WalkRoots, Reached, Edges, Shallow, Unconfused, Children;
    ReachedIsLeast(store, roots);
    if AllSound(store, roots) && Shallow(store, roots) { WalkEnds(store, true, roots); }
    if WalkRoots(store, true, roots).Walked? { WalkSees(store, true, roots); }
  }

  // `collect_missing` fails exactly on corruption, and otherwise finds exactly the reachable ids
  // that are absent.
  lemma MissingIsExact(store: Store, roots: Roots)
    requires Unconfused(Reached(store, roots))
    ensures CollectMissing(store, roots).Some? ==>
        NoneCorrupt(store, roots) && CollectMissing(store, roots).value == Absentees(store, roots)
    ensures NoneCorrupt(store, roots) && Shallow(store, roots) ==> CollectMissing(store, roots).Some?
  {
    hide WalkRoots, Reached, Edges, Shallow, Unconfused, Children;
    ReachedIsLeast(store, roots);
    if NoneCorrupt(store, roots) && Shallow(store, roots) { WalkEnds(store, false, roots); }
    if WalkRoots(store, false, roots).Walked? {
      WalkSees(store, false, roots);
      var r := WalkRoots(store, false, roots);
      assert Absentees(store, roots) == r.missing;
    }
  }
}
