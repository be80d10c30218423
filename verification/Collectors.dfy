// The walkers as they run (crates/duckfs/core/src/gc.rs:44-391): one object threads the visited
// and missing sets through the recursion and through the catalog's explicit stack.
module Collectors {
  import opened Wrappers
  import opened Kinds
  import opened Reachability
  import opened Marking
  import opened Collecting
  import opened Sweeping

  class Walker {
    const store: Store
    const strict: bool
    var visited: set<Id>
    var missing: set<Id>

    constructor (store: Store, strict: bool)
      ensures this.store == store && this.strict == strict && visited == {} && missing == {}
    {
      this.store, this.strict := store, strict;
      visited, missing := {}, {};
    }

    // Where the walker got to; nothing is promised of a walker that faulted.
    ghost predicate Reports(ok: bool, r: Outcome)
      reads this
    {
      ok == r.Walked? && (ok ==> r == Walked(visited, missing))
    }

    method Visit(node: Node, leniently: bool) returns (ok: bool)
      modifies this
      ensures Reports(ok, Marking.Visit(store, strict && !leniently, node, old(visited), old(missing)))
      decreases Left(store, visited), 0
    {
      if node.id in visited {
        return true;
      }
      visited := visited + {node.id};
      if node.id !in store {
        if strict && !leniently {
          return false;
        }
        missing := missing + {node.id};
        return true;
      }
      var edges := Edges(store, node);
      if edges.None? {
        return false;
      }
      Shrinks(store, old(visited), node.id);
      ok := VisitAll(edges.value, leniently);
    }

    method VisitAll(nodes: seq<Node>, leniently: bool) returns (ok: bool)
      modifies this
      ensures Reports(ok, Marking.VisitAll(store, strict && !leniently, nodes, old(visited), old(missing)))
      decreases Left(store, visited), 1
    {
      var index := 0;
      while index < |nodes|
        invariant index <= |nodes| && old(visited) <= visited
        invariant Marking.VisitAll(store, strict && !leniently, nodes, old(visited), old(missing))
               == Marking.VisitAll(store, strict && !leniently, nodes[index..], visited, missing)
      {
        Shrinks'(store, old(visited), visited);
        ok := Visit(nodes[index], leniently);
        if !ok {
          return;
        }
        assert nodes[index..][1..] == nodes[index + 1..];
        index := index + 1;
      }
      ok := true;
    }

    // One catalog node looked at for the first time: what there is below a directory is to be looked at
    // next, and a record's snapshot is walked as an ordinary one.
    method Enter(top: Pending) returns (ok: bool, more: seq<Pending>)
      requires InCatalog(top.node)
      modifies this
      ensures forall p :: p in more ==> InCatalog(p.node)
      ensures var r := Entered(store, top, old(visited), old(missing));
        ok == r.Some? && (ok ==> r.value == (Walked(visited, missing), more))
    {
      hide Marking.Visit, CatalogChildren, SnapshotOf, Edges;
      more := [];
      visited := visited + {top.node.id};
      if top.node.id !in store {
        missing := missing + {top.node.id};
        return true, [];
      }
      if Edges(store, top.node).None? {
        return false, [];
      }
      if top.node.role == AsCatalogRecord {
        RecordEdges(store, top.node);
        ok := Visit(Edges(store, top.node).value[1], true);
      } else {
        ok, more := true, Deeper(CatalogChildren(store, top.node), top.depth + 1);
        CatalogBelow(store, top.node, top.depth + 1);
      }
    }

    // `collect_retention`: catalog directories and records are looked at once each, whatever the
    // ordinary walk has visited; each record's snapshot is then walked as an ordinary one.
    method WalkCatalog(root: Id) returns (ok: bool)
      modifies this
      ensures Reports(ok, Marking.WalkCatalog(store, [Pending(Node(AsCatalogDir, root), 0)], {}, old(visited),
          old(missing)))
    {
      var catalog: set<Id> := {};
      var stack := [Pending(Node(AsCatalogDir, root), 0)];
      ghost var goal := Marking.WalkCatalog(store, stack, catalog, visited, missing);
      while stack != []
        invariant forall p :: p in stack ==> InCatalog(p.node)
        invariant Marking.WalkCatalog(store, stack, catalog, visited, missing) == goal
        decreases Left(store, catalog), |stack|
      {
        hide *;
        var top, id := stack[|stack| - 1], stack[|stack| - 1].node.id;
        WalkGoesOn(store, stack, catalog, visited, missing);
        CatalogShrinks(store, catalog, id);
        assert top in stack;
        stack := stack[..|stack| - 1];
        if top.depth > CATALOG_DEPTH {
          return false;
        }
        if id !in catalog {
          catalog := catalog + {id};
          var more;
          ok, more := Enter(top);
          if !ok {
            return;
          }
          stack := stack + more;
        }
      }
      WalkStops(store, catalog, visited, missing);
      ok := true;
    }

    method WalkRoots(roots: Roots) returns (ok: bool)
      requires visited == {} && missing == {}
      modifies this
      ensures Reports(ok, Marking.WalkRoots(store, strict, roots))
    {
      hide Marking.VisitAll, Marking.WalkCatalog;
      ok := VisitAll(Ordinary(roots), false);
      if !ok {
        return;
      }
      if roots.retention.Some? {
        ok := WalkCatalog(roots.retention.value);
      } else {
        WalkStops(store, {}, visited, missing);
      }
    }
  }

  // What comes of one catalog node looked at for the first time: where the walk stands, and what is
  // to be looked at next.
  ghost function Entered(store: Store, top: Pending, visited: set<Id>, missing: set<Id>)
      : Option<(Outcome, seq<Pending>)> {
    var id := top.node.id;
    if id !in store then Some((Walked(visited + {id}, missing + {id}), []))
    else if Edges(store, top.node).None? then None
    else if top.node.role == AsCatalogRecord then
      var r := Marking.Visit(store, false, SnapshotOf(store, top.node), visited + {id}, missing);
      if r.Fault? then None else Some((r, []))
    else Some((Walked(visited + {id}, missing), Deeper(CatalogChildren(store, top.node), top.depth + 1)))
  }

  // One turn of the stack loop.
  lemma WalkGoesOn(store: Store, stack: seq<Pending>, catalog: set<Id>, visited: set<Id>, missing: set<Id>)
    requires stack != []
    ensures
      var r := Marking.WalkCatalog(store, stack, catalog, visited, missing);
      var (top, rest) := (stack[|stack| - 1], stack[..|stack| - 1]);
      if top.depth > CATALOG_DEPTH then r == Fault
      else if top.node.id in catalog then r == Marking.WalkCatalog(store, rest, catalog, visited, missing)
      else
        var e := Entered(store, top, visited, missing);
        if e.None? then r == Fault
        else e.value.0.Walked? && r == Marking.WalkCatalog(store, rest + e.value.1, catalog + {top.node.id},
                                                           e.value.0.visited, e.value.0.missing)
  {
    hide Marking.Visit, Edges, CatalogChildren, Deeper, Left, Children;
    assert stack[..|stack| - 1] + [] == stack[..|stack| - 1];
  }

  lemma WalkStops(store: Store, catalog: set<Id>, visited: set<Id>, missing: set<Id>)
    ensures Marking.WalkCatalog(store, [], catalog, visited, missing) == Walked(visited, missing)
  {
  }

  lemma CatalogShrinks(store: Store, catalog: set<Id>, id: Id)
    ensures Left(store, catalog + {id}) <= Left(store, catalog)
    ensures id in store && id !in catalog ==> Left(store, catalog + {id}) < Left(store, catalog)
  {
    hide Left;
    Shrinks'(store, catalog, catalog + {id});
    if id in store && id !in catalog { Shrinks(store, catalog, id); }
  }

  lemma RecordEdges(store: Store, node: Node)
    requires Sound(store, node) && node.role == AsCatalogRecord
    ensures Edges(store, node).Some? && |Edges(store, node).value| == 2
        && Edges(store, node).value[1] == SnapshotOf(store, node)
  {
  }

  lemma CatalogBelow(store: Store, node: Node, depth: nat)
    requires node.id in store
    ensures forall p :: p in Deeper(CatalogChildren(store, node), depth) ==> InCatalog(p.node)
  {
  }

  method MarkLive(store: Store, roots: Roots) returns (live: Option<set<Id>>)
    ensures live == Marking.Mark(store, roots)
  {
    var walker := new Walker(store, true);
    var ok := walker.WalkRoots(roots);
    live := if ok && walker.missing == {} then Some(walker.visited) else None;
  }

  method FindMissing(store: Store, roots: Roots) returns (missing: Option<set<Id>>)
    ensures missing == Marking.CollectMissing(store, roots)
  {
    var walker := new Walker(store, false);
    var ok := walker.WalkRoots(roots);
    missing := if ok then Some(walker.missing) else None;
  }

  // The committed side of a node: its refs' roots and its object store.
  class Collector {
    const roots: Roots
    var store: Store

    constructor (store: Store, roots: Roots)
      ensures this.store == store && this.roots == roots
    {
      this.store, this.roots := store, roots;
    }

    // Sweeps everything the mark did not reach; a failed mark (None) removes nothing.
    method Gc() returns (removed: Option<nat>)
      modifies this
      ensures removed.Some? <==> Marking.Mark(old(store), roots).Some?
      ensures removed.None? ==> store == old(store)
      ensures removed.Some? ==>
        && store == Swept(old(store), Marking.Mark(old(store), roots).value)
        && removed.value == |old(store)| - |store|
      // Everything reachable survives and nothing else does, where no id is confused.
      ensures removed.Some? && Unconfused(Reached(old(store), roots)) ==>
        store.Keys == Ids(Reached(old(store), roots))
      // Straight after a sweep there is nothing to sweep.
      ensures removed.Some? ==> Marking.Mark(store, roots) == Marking.Mark(old(store), roots)
    {
      hide *;
      var live := MarkLive(store, roots);
      if live.None? {
        return None;
      }
      var todo, count := store.Keys, 0;
      SweptNothing(store, live.value);
      while todo != {}
        invariant todo <= old(store).Keys && store == Swept(old(store), live.value + todo)
        invariant count == |old(store)| - |store|
        decreases todo
      {
        var id :| id in todo;
        SweptOne(old(store), live.value, todo, id);
        todo := todo - {id};
        if id !in live.value {
          OneFewer(store, id);
          store := store - {id};
          count := count + 1;
        }
      }
      assert live.value + {} == live.value;
      SweepKeepsTheMark(old(store), roots);
      if Unconfused(Reached(old(store), roots)) { MarkedIsPresent(old(store), roots); }
      removed := Some(count);
    }
  }

  lemma SweptNothing(store: Store, live: set<Id>)
    ensures Swept(store, live + store.Keys) == store
  {
  }

  // One object dealt with: a live one stays, any other goes.
  lemma SweptOne(store: Store, live: set<Id>, todo: set<Id>, id: Id)
    requires id in todo && todo <= store.Keys
    ensures id in Swept(store, live + todo)
    ensures id in live ==> Swept(store, live + (todo - {id})) == Swept(store, live + todo)
    ensures id !in live ==> Swept(store, live + (todo - {id})) == Swept(store, live + todo) - {id}
  {
    var (was, now) := (Swept(store, live + todo), Swept(store, live + (todo - {id})));
    if id in live {
      assert now.Keys == was.Keys;
    } else {
      assert now.Keys == was.Keys - {id};
    }
  }

  lemma OneFewer(store: Store, id: Id)
    requires id in store
    ensures |store - {id}| == |store| - 1
  {
    assert (store - {id}).Keys == store.Keys - {id};
    assert |store - {id}| == |(store - {id}).Keys| && |store| == |store.Keys|;
  }

  lemma MarkedIsPresent(store: Store, roots: Roots)
    requires Marking.Mark(store, roots).Some? && Unconfused(Reached(store, roots))
    ensures Marking.Mark(store, roots).value == Ids(Reached(store, roots)) <= store.Keys
  {
    hide Marking.Mark, Reached, Edges;
    MarkIsExact(store, roots);
  }
}
