// The reachability walk (crates/duckfs/core/src/gc.rs:44-391). `mark` and `collect_missing` are
// one walk from the same roots: the strict one faults on an absent object, the other records it
// and goes no further down.
module Marking {
  import opened Wrappers
  import opened Kinds
  import opened Reachability

  const CATALOG_DEPTH := 33

  // How many stored objects a walk has still to look at.
  ghost function Left(store: Store, looked: set<Id>): nat {
    |store.Keys - looked|
  }

  datatype Outcome = Fault | Walked(visited: set<Id>, missing: set<Id>)

  function Visit(store: Store, strict: bool, node: Node, visited: set<Id>, missing: set<Id>): (r: Outcome)
    ensures r.Walked? ==> visited <= r.visited
    decreases Left(store, visited), 0
  {
    if node.id in visited then Walked(visited, missing)
    else if node.id !in store then
      if strict then Fault else Walked(visited + {node.id}, missing + {node.id})
    else if Edges(store, node).None? then Fault
    else
      Shrinks(store, visited, node.id);
      VisitAll(store, strict, Edges(store, node).value, visited + {node.id}, missing)
  }

  function VisitAll(store: Store, strict: bool, nodes: seq<Node>, visited: set<Id>, missing: set<Id>): (r: Outcome)
    ensures r.Walked? ==> visited <= r.visited
    decreases Left(store, visited), 1 + |nodes|
  {
    if nodes == [] then Walked(visited, missing)
    else
      match Visit(store, strict, nodes[0], visited, missing)
      case Fault => Fault
      case Walked(v, m) =>
        Shrinks'(store, visited, v);
        VisitAll(store, strict, nodes[1..], v, m)
  }

  lemma Shrinks(store: Store, visited: set<Id>, id: Id)
    requires id in store && id !in visited
    ensures Left(store, visited + {id}) < Left(store, visited)
  {
    assert store.Keys - visited == store.Keys - (visited + {id}) + {id};
  }

  lemma Shrinks'(store: Store, visited: set<Id>, more: set<Id>)
    requires visited <= more
    ensures Left(store, more) <= Left(store, visited)
  {
    assert store.Keys - visited == (store.Keys - more) + ((store.Keys - visited) - (store.Keys - more));
  }

  // A catalog object still to look at, and how deep it was found.
  datatype Pending = Pending(node: Node, depth: nat)

  // The explicit stack under the catalog root; the last pending object is looked at first.
  // `catalog` holds the ids already looked at here, whatever the ordinary walk has visited.
  function WalkCatalog(store: Store, stack: seq<Pending>, catalog: set<Id>, visited: set<Id>,
          missing: set<Id>): (r: Outcome)
    decreases Left(store, catalog), |stack|
  {
    if stack == [] then Walked(visited, missing)
    else
      var (top, rest) := (stack[|stack| - 1], stack[..|stack| - 1]);
      var id := top.node.id;
      if top.depth > CATALOG_DEPTH then Fault
      else if id in catalog then WalkCatalog(store, rest, catalog, visited, missing)
      else if id !in store then
        Shrinks'(store, catalog, catalog + {id});
        WalkCatalog(store, rest, catalog + {id}, visited + {id}, missing + {id})
      else if Edges(store, top.node).None? then Fault
      else
        Shrinks(store, catalog, id);
        if top.node.role == AsCatalogRecord then
          match Visit(store, false, Edges(store, top.node).value[1], visited + {id}, missing)
          case Fault => Fault
          case Walked(v, m) => WalkCatalog(store, rest, catalog + {id}, v, m)
        else
          WalkCatalog(store, rest + Deeper(CatalogChildren(store, top.node), top.depth + 1), catalog + {id},
              visited + {id}, missing)
  }

  function Deeper(nodes: seq<Node>, depth: nat): (stack: seq<Pending>)
    ensures |stack| == |nodes| && forall i :: 0 <= i < |nodes| ==> stack[i] == Pending(nodes[i], depth)
  {
    seq(|nodes|, i requires 0 <= i < |nodes| => Pending(nodes[i], depth))
  }

  function CatalogStack(roots: Roots): seq<Pending> {
    if roots.retention.Some? then [Pending(Node(AsCatalogDir, roots.retention.value), 0)] else []
  }

  // The whole walk: the ordinary roots, then the catalog.
  function WalkRoots(store: Store, strict: bool, roots: Roots): Outcome {
    match VisitAll(store, strict, Ordinary(roots), {}, {})
    case Fault => Fault
    case Walked(v, m) => WalkCatalog(store, CatalogStack(roots), {}, v, m)
  }

  // `mark`: every id the roots reach, or None if any of it is absent or corrupt.
  function Mark(store: Store, roots: Roots): Option<set<Id>> {
    match WalkRoots(store, true, roots)
    case Fault => None
    case Walked(live, missing) => if missing != {} then None else Some(live)
  }

  // `collect_missing`: the absent ids the walk runs into, or None on corruption.
  function CollectMissing(store: Store, roots: Roots): Option<set<Id>> {
    match WalkRoots(store, false, roots)
    case Fault => None
    case Walked(_, missing) => Some(missing)
  }

  // ---- what a walk has seen ----------------------------------------------------------------------

  // `seen` are the nodes behind the visited ids; every catalog node among them counts as the
  // plain object it is, too.
  ghost predicate Seen(seen: set<Node>, visited: set<Id>, all: set<Node>) {
    && seen <= all && visited == Ids(seen)
    && forall n :: n in seen ==> Plain(n) in seen
  }

  // Whatever the walk newly saw is not corrupt, absent only if recorded, and its children were
  // seen too, except those still pending.
  ghost predicate Settled(store: Store, before: set<Node>, seen: set<Node>, pending: set<Node>, missing: set<Id>) {
    && before <= seen
    && (forall n :: n in seen && n !in before ==> !Corrupt(store, n) && (n.id !in store ==> n.id in missing))
    && (forall n, c :: n in seen && n !in before && c in Children(store, n) ==> c in seen || c in pending)
  }

  ghost predicate Absent(store: Store, visited: set<Id>, missing: set<Id>) {
    missing <= visited && forall id :: id in missing ==> id !in store
  }

  ghost predicate Consistent(store: Store, all: set<Node>) {
    Closed(store, all) && Unconfused(all)
  }

  // An ordinary node whose id was visited is itself among the nodes seen.
  lemma SeenBefore(all: set<Node>, seen: set<Node>, visited: set<Id>, node: Node)
    requires Unconfused(all) && Seen(seen, visited, all) && node in all && !InCatalog(node) && node.id in visited
    ensures node in seen
  {
    var n :| n in seen && n.id == node.id;
    assert Plain(n) == node;
  }

  lemma SettledTwice(store: Store, a: set<Node>, b: set<Node>, c: set<Node>, m1: set<Id>, m2: set<Id>)
    requires Settled(store, a, b, {}, m1) && Settled(store, b, c, {}, m2) && m1 <= m2
    ensures Settled(store, a, c, {}, m2)
  {
  }

  // What one ordinary visit sees, given the nodes seen before.
  lemma {:induction false} VisitSees(store: Store, strict: bool, node: Node, visited: set<Id>, missing: set<Id>,
          all: set<Node>, seen: set<Node>)
    returns (after: set<Node>)
    requires Consistent(store, all) && Seen(seen, visited, all) && node in all && !InCatalog(node)
    requires Absent(store, visited, missing) && Visit(store, strict, node, visited, missing).Walked?
    ensures var r := Visit(store, strict, node, visited, missing);
      && Seen(after, r.visited, all) && node in after && Settled(store, seen, after, {}, r.missing)
      && missing <= r.missing && Absent(store, r.visited, r.missing)
      && (strict ==> r.missing == missing)
      && forall n :: n in after && n !in seen ==> !InCatalog(n)
    decreases Left(store, visited), 0
  {
    if node.id in visited {
      SeenBefore(all, seen, visited, node);
      after := seen;
    } else {
      var here := seen + {node};
      assert Ids(here) == visited + {node.id};
      if node.id !in store {
        after := here;
      } else {
        Shrinks(store, visited, node.id);
        var kids := Edges(store, node).value;
        assert kids == Children(store, node);
        ChildrenArePlain(store, node);
        after := VisitAllSees(store, strict, kids, visited + {node.id}, missing, all, here);
      }
    }
  }

  lemma ChildrenArePlain(store: Store, node: Node)
    requires !InCatalog(node)
    ensures forall c :: c in Children(store, node) ==> !InCatalog(c)
  {
  }

  lemma {:induction false} VisitAllSees(store: Store, strict: bool, nodes: seq<Node>, visited: set<Id>,
          missing: set<Id>, all: set<Node>, seen: set<Node>)
    returns (after: set<Node>)
    requires Consistent(store, all) && Seen(seen, visited, all)
    requires forall n :: n in nodes ==> n in all && !InCatalog(n)
    requires Absent(store, visited, missing) && VisitAll(store, strict, nodes, visited, missing).Walked?
    ensures var r := VisitAll(store, strict, nodes, visited, missing);
      && Seen(after, r.visited, all) && Holds(after, nodes) && Settled(store, seen, after, {}, r.missing)
      && missing <= r.missing && Absent(store, r.visited, r.missing)
      && (strict ==> r.missing == missing)
      && forall n :: n in after && n !in seen ==> !InCatalog(n)
    decreases Left(store, visited), 1 + |nodes|
  {
    if nodes == [] {
      after := seen;
    } else {
      assert nodes[0] in nodes;
      var first := Visit(store, strict, nodes[0], visited, missing);
      var mid := VisitSees(store, strict, nodes[0], visited, missing, all, seen);
      Shrinks'(store, visited, first.visited);
      after := VisitAllSees(store, strict, nodes[1..], first.visited, first.missing, all, mid);
      SettledTwice(store, seen, mid, after, first.missing, VisitAll(store, strict, nodes, visited, missing).missing);
      assert forall n :: n in nodes ==> n == nodes[0] || n in nodes[1..];
    }
  }

  // ---- the same below the catalog root -------------------------------------------------------------

  // The pending catalog nodes, each also as the plain object it is.
  function Awaited(stack: seq<Pending>): (nodes: set<Node>) {
    (set p | p in stack :: p.node) + (set p | p in stack :: Plain(p.node))
  }

  ghost predicate CatalogStep(store: Store, all: set<Node>, before: set<Node>, seen: set<Node>, stack: seq<Pending>,
                              catalog: set<Id>, visited: set<Id>, missing: set<Id>) {
    && Seen(seen, visited, all) && Absent(store, visited, missing)
    && Settled(store, before, seen, Awaited(stack), missing)
    && catalog == CatalogIds(seen)
    && forall p :: p in stack ==> p.node in all && InCatalog(p.node) && Plain(p.node) in all
  }

  ghost function CatalogIds(seen: set<Node>): set<Id> {
    set n | n in seen && InCatalog(n) :: n.id
  }

  // What was pending settles once it has been seen or handed on.
  lemma SettledOn(store: Store, before: set<Node>, a: set<Node>, b: set<Node>, p: set<Node>, q: set<Node>, m1: set<Id>,
          m2: set<Id>)
    requires Settled(store, before, a, p, m1) && a <= b && m1 <= m2 && p <= b + q
    requires Settled(store, a, b, q, m2)
    ensures Settled(store, before, b, q, m2)
  {
    hide Children, Corrupt;
    forall n, c | n in b && n !in before && c in Children(store, n)
      ensures c in b || c in q
    {
      assert n in a ==> c in a || c in p;
    }
  }

  // More may be pending than has to be.
  lemma SettledStill(store: Store, before: set<Node>, seen: set<Node>, p: set<Node>, q: set<Node>, missing: set<Id>)
    requires Settled(store, before, seen, p, missing) && p <= seen + q
    ensures Settled(store, before, seen, q, missing)
  {
    hide Children, Corrupt;
  }

  lemma SettledKeeps(store: Store, before: set<Node>, seen: set<Node>, pending: set<Node>, missing: set<Id>)
    requires Settled(store, before, seen, pending, missing)
    ensures before <= seen
  {
  }

  lemma Popped(stack: seq<Pending>, more: seq<Pending>)
    requires stack != []
    ensures var top := stack[|stack| - 1];
      Awaited(stack) <= {top.node, Plain(top.node)} + Awaited(stack[..|stack| - 1] + more)
      && Awaited(more) <= Awaited(stack[..|stack| - 1] + more)
  {
    var top := stack[|stack| - 1];
    var rest := stack[..|stack| - 1];
    assert stack == rest + [top];
    forall n | n in Awaited(stack)
      ensures n in {top.node, Plain(top.node)} + Awaited(rest + more)
    {
      var p :| p in stack && (n == p.node || n == Plain(p.node));
      assert p == top || p in rest + more;
    }
    forall n | n in Awaited(more)
      ensures n in Awaited(rest + more)
    {
      var p :| p in more && (n == p.node || n == Plain(p.node));
      assert p in rest + more;
    }
  }

  // A catalog node and the plain object it is: neither is corrupt, and what they lead to is what
  // the walk goes on to look at.
  lemma PairSettles(store: Store, seen: set<Node>, node: Node, depth: nat, after: set<Node>, missing: set<Id>)
    requires InCatalog(node) && !Corrupt(store, node) && after == seen + {node, Plain(node)}
    requires node.id !in store ==> node.id in missing
    ensures node.role == AsCatalogDir || node.id !in store ==>
      Settled(store, seen, after, Awaited(Deeper(CatalogNext(store, node), depth)), missing)
    ensures node.role == AsCatalogRecord && node.id in store ==>
      |Edges(store, node).value| == 2 && Settled(store, seen, after, {Edges(store, node).value[1]}, missing)
  {
    if node.id in store && node.role == AsCatalogDir {
      var entries := store[node.id].entries.value;
      var next := Deeper(CatalogNext(store, node), depth);
      forall n, c | n in after && n !in seen && c in Children(store, n)
        ensures c in after || c in Awaited(next)
      {
        if c in CatalogEdges(entries) {
          var i :| 0 <= i < |entries| && c == CatalogEdges(entries)[i];
          assert next[i].node == c && next[i] in next;
        } else if c in TreeEdges(entries) {
          var i :| 0 <= i < |entries| && c == TreeEdges(entries)[i];
          assert c == Plain(next[i].node) && next[i] in next;
        }
      }
    }
  }

  // What the walk goes on to below a catalog node.
  function CatalogNext(store: Store, node: Node): seq<Node> {
    if node.id in store && node.role == AsCatalogDir then CatalogChildren(store, node) else []
  }

  lemma PairSeen(seen: set<Node>, visited: set<Id>, all: set<Node>, node: Node)
    requires Seen(seen, visited, all) && node in all && Plain(node) in all && InCatalog(node)
    ensures Seen(seen + {node, Plain(node)}, visited + {node.id}, all)
    ensures CatalogIds(seen + {node, Plain(node)}) == CatalogIds(seen) + {node.id}
  {
    assert Ids(seen + {node, Plain(node)}) == Ids(seen) + {node.id};
  }

  lemma DeeperInAll(store: Store, all: set<Node>, node: Node, depth: nat)
    requires Closed(store, all) && node in all && InCatalog(node) && Sound(store, node) && Plain(node) in all
    ensures forall p :: p in Deeper(CatalogNext(store, node),
        depth) ==> p.node in all && InCatalog(p.node) && Plain(p.node) in all
    ensures node.role == AsCatalogRecord ==>
        |Edges(store, node).value| == 2 && Edges(store, node).value[1] in all && !InCatalog(Edges(store, node).value[1])
  {
    if node.role == AsCatalogDir {
      var entries := store[node.id].entries.value;
      forall p | p in Deeper(CatalogNext(store, node), depth)
        ensures p.node in all && InCatalog(p.node) && Plain(p.node) in all
      {
        var i :| 0 <= i < |entries| && p == Deeper(CatalogNext(store, node), depth)[i];
        assert p.node in Children(store, node);
        assert Plain(p.node) == TreeEdges(entries)[i];
        assert Plain(p.node) in Children(store, Plain(node));
      }
    } else {
      assert Edges(store, node).value[1] in Children(store, node);
    }
  }

  // Between two points of the loop, what had been seen or was pending still is.
  ghost predicate Hands(seen: set<Node>, stack: seq<Pending>, after: set<Node>, rest: seq<Pending>) {
    seen + Awaited(stack) <= after + Awaited(rest) && seen <= after
  }

  lemma HandsOn(s1: set<Node>, p1: seq<Pending>, s2: set<Node>, p2: seq<Pending>, s3: set<Node>, p3: seq<Pending>)
    requires Hands(s1, p1, s2, p2) && Hands(s2, p2, s3, p3)
    ensures Hands(s1, p1, s3, p3)
  {
    hide Awaited;
  }

  // One turn of the stack loop, case by case: the step holds again afterwards.
  lemma StepKnown(store: Store, all: set<Node>, before: set<Node>, seen: set<Node>, stack: seq<Pending>,
                  catalog: set<Id>, visited: set<Id>, missing: set<Id>)
    requires Consistent(store, all) && CatalogStep(store, all, before, seen, stack, catalog, visited, missing)
    requires stack != [] && stack[|stack| - 1].node.id in catalog
    ensures CatalogStep(store, all, before, seen, stack[..|stack| - 1], catalog, visited, missing)
    ensures Hands(seen, stack, seen, stack[..|stack| - 1])
  {
    hide Absent, Settled, Awaited, Children;
    var top, rest := stack[|stack| - 1], stack[..|stack| - 1];
    Popped(stack, []);
    assert rest + [] == rest && top in stack;
    assert top.node in seen && Plain(top.node) in seen by {
      var n :| n in seen && InCatalog(n) && n.id == top.node.id;
      assert n in all && n == top.node;
    }
    SettledStill(store, before, seen, Awaited(stack), Awaited(rest), missing);
  }

  lemma StepAbsent(store: Store, all: set<Node>, before: set<Node>, seen: set<Node>, stack: seq<Pending>,
                   catalog: set<Id>, visited: set<Id>, missing: set<Id>)
    requires CatalogStep(store, all, before, seen, stack, catalog, visited, missing)
    requires stack != [] && stack[|stack| - 1].node.id !in store
    ensures var top := stack[|stack| - 1];
      CatalogStep(store, all, before, seen + {top.node, Plain(top.node)}, stack[..|stack| - 1],
                  catalog + {top.node.id}, visited + {top.node.id}, missing + {top.node.id})
    ensures Hands(seen, stack, seen + {stack[|stack| - 1].node, Plain(stack[|stack| - 1].node)}, stack[..|stack| - 1])
  {
    assert Awaited([]) == {};
    hide Seen, Settled, Awaited, Children;
    var top, rest := stack[|stack| - 1], stack[..|stack| - 1];
    var id, here := top.node.id, seen + {top.node, Plain(top.node)};
    assert top in stack;
    Popped(stack, []);
    assert rest + [] == rest && Deeper(CatalogNext(store, top.node), 0) == [];
    PairSeen(seen, visited, all, top.node);
    PairSettles(store, seen, top.node, 0, here, missing + {id});
    SettledStill(store, seen, here, {}, Awaited(rest), missing + {id});
    SettledOn(store, before, seen, here, Awaited(stack), Awaited(rest), missing, missing + {id});
  }

  lemma StepDirectory(store: Store, all: set<Node>, before: set<Node>, seen: set<Node>, stack: seq<Pending>,
                      catalog: set<Id>, visited: set<Id>, missing: set<Id>)
    requires Consistent(store, all) && CatalogStep(store, all, before, seen, stack, catalog, visited, missing)
    requires stack != [] && Sound(store, stack[|stack| - 1].node) && stack[|stack| - 1].node.role == AsCatalogDir
    ensures var top := stack[|stack| - 1];
      var next := stack[..|stack| - 1] + Deeper(CatalogChildren(store, top.node), top.depth + 1);
      && CatalogStep(store, all, before, seen + {top.node, Plain(top.node)}, next, catalog + {top.node.id},
        visited + {top.node.id}, missing)
      && Hands(seen, stack, seen + {top.node, Plain(top.node)}, next)
  {
    hide Seen, Settled, Awaited, Children, Edges, CatalogChildren;
    var top, rest := stack[|stack| - 1], stack[..|stack| - 1];
    var id, here := top.node.id, seen + {top.node, Plain(top.node)};
    var more := Deeper(CatalogChildren(store, top.node), top.depth + 1);
    assert top in stack;
    Popped(stack, more);
    PairSeen(seen, visited, all, top.node);
    PairSettles(store, seen, top.node, top.depth + 1, here, missing);
    DeeperInAll(store, all, top.node, top.depth + 1);
    SettledStill(store, seen, here, Awaited(more), Awaited(rest + more), missing);
    SettledOn(store, before, seen, here, Awaited(stack), Awaited(rest + more), missing, missing);
    assert forall p :: p in rest + more ==> p in stack || p in more;
  }

  lemma StepRecord(store: Store, all: set<Node>, before: set<Node>, seen: set<Node>, stack: seq<Pending>,
                   catalog: set<Id>, visited: set<Id>, missing: set<Id>)
    returns (after: set<Node>)
    requires Consistent(store, all) && CatalogStep(store, all, before, seen, stack, catalog, visited, missing)
    requires stack != [] && Sound(store, stack[|stack| - 1].node) && stack[|stack| - 1].node.role == AsCatalogRecord
    requires Visit(store, false, SnapshotOf(store, stack[|stack| - 1].node), visited + {stack[|stack| - 1].node.id},
        missing).Walked?
    ensures var top := stack[|stack| - 1];
      var r := Visit(store, false, SnapshotOf(store, top.node), visited + {top.node.id}, missing);
      && CatalogStep(store, all, before, after, stack[..|stack| - 1], catalog + {top.node.id}, r.visited, r.missing)
      && missing <= r.missing && Hands(seen, stack, after, stack[..|stack| - 1])
  {
    hide Seen, Settled, Awaited, Children, Edges, Visit;
    var top, rest := stack[|stack| - 1], stack[..|stack| - 1];
    var id, here, snapshot := top.node.id, seen + {top.node, Plain(top.node)}, SnapshotOf(store, top.node);
    assert top in stack;
    Popped(stack, []);
    assert rest + [] == rest;
    PairSeen(seen, visited, all, top.node);
    PairSettles(store, seen, top.node, top.depth + 1, here, missing);
    DeeperInAll(store, all, top.node, top.depth + 1);
    var r := Visit(store, false, snapshot, visited + {id}, missing);
    after := VisitSees(store, false, snapshot, visited + {id}, missing, all, here);
    SettledKeeps(store, here, after, {}, r.missing);
    SettledOn(store, seen, here, after, {snapshot}, {}, missing, r.missing);
    SettledStill(store, seen, after, {}, Awaited(rest), r.missing);
    SettledOn(store, before, seen, after, Awaited(stack), Awaited(rest), missing, r.missing);
    assert CatalogIds(after) == CatalogIds(here);
  }

  // The snapshot a sound catalog record keeps.
  function SnapshotOf(store: Store, node: Node): Node
    requires Sound(store, node) && node.role == AsCatalogRecord
  {
    Edges(store, node).value[1]
  }

  lemma InStep(store: Store, all: set<Node>, before: set<Node>, seen: set<Node>, stack: seq<Pending>,
               catalog: set<Id>, visited: set<Id>, missing: set<Id>)
    requires CatalogStep(store, all, before, seen, stack, catalog, visited, missing)
    ensures catalog == CatalogIds(seen) && Hands(seen, stack, seen, stack)
    ensures forall p :: p in stack ==> InCatalog(p.node)
    ensures stack != [] ==> stack[|stack| - 1].node.role in {AsCatalogDir, AsCatalogRecord}
  {
    if stack != [] { assert stack[|stack| - 1] in stack; }
  }

  // One turn of the stack loop.
  lemma WalkTurns(store: Store, stack: seq<Pending>, catalog: set<Id>, visited: set<Id>, missing: set<Id>)
    requires WalkCatalog(store, stack, catalog, visited, missing).Walked?
    ensures stack == [] ==> WalkCatalog(store, stack, catalog, visited, missing) == Walked(visited, missing)
    ensures stack != [] ==>
      var r := WalkCatalog(store, stack, catalog, visited, missing);
      var (top, rest) := (stack[|stack| - 1], stack[..|stack| - 1]);
      var (node, id) := (top.node, top.node.id);
      if id in catalog then r == WalkCatalog(store, rest, catalog, visited, missing)
      else if id !in store then r == WalkCatalog(store, rest, catalog + {id}, visited + {id}, missing + {id})
      else
        && Sound(store, node)
        && (node.role == AsCatalogRecord ==>
          var v := Visit(store, false, SnapshotOf(store, node), visited + {id}, missing);
          v.Walked? && r == WalkCatalog(store, rest, catalog + {id}, v.visited, v.missing))
        && (node.role != AsCatalogRecord ==>
          r == WalkCatalog(store, rest + Deeper(CatalogChildren(store, node), top.depth + 1), catalog + {id},
              visited + {id}, missing))
  {
    hide Visit, VisitAll, Edges, CatalogChildren, Deeper, Left, Children;
  }

  lemma {:induction false} CatalogSees(store: Store, stack: seq<Pending>, catalog: set<Id>, visited: set<Id>,
          missing: set<Id>,
                                       all: set<Node>, before: set<Node>, seen: set<Node>)
    returns (after: set<Node>)
    requires Consistent(store, all) && CatalogStep(store, all, before, seen, stack, catalog, visited, missing)
    requires WalkCatalog(store, stack, catalog, visited, missing).Walked?
    ensures var r := WalkCatalog(store, stack, catalog, visited, missing);
      && CatalogStep(store, all, before, after, [], CatalogIds(after), r.visited, r.missing)
      && missing <= r.missing && Hands(seen, stack, after, [])
    decreases Left(store, catalog), |stack|
  {
    hide *;
    WalkTurns(store, stack, catalog, visited, missing);
    InStep(store, all, before, seen, stack, catalog, visited, missing);
    if stack == [] {
      after := seen;
    } else {
      var top, rest := stack[|stack| - 1], stack[..|stack| - 1];
      var id, here := top.node.id, seen + {top.node, Plain(top.node)};
      if id in catalog {
        StepKnown(store, all, before, seen, stack, catalog, visited, missing);
        after := CatalogSees(store, rest, catalog, visited, missing, all, before, seen);
        HandsOn(seen, stack, seen, rest, after, []);
      } else if id !in store {
        StepAbsent(store, all, before, seen, stack, catalog, visited, missing);
        Shrinks'(store, catalog, catalog + {id});
        after := CatalogSees(store, rest, catalog + {id}, visited + {id}, missing + {id}, all, before, here);
        HandsOn(seen, stack, here, rest, after, []);
      } else {
        Shrinks(store, catalog, id);
        if top.node.role == AsCatalogRecord {
          var r := Visit(store, false, SnapshotOf(store, top.node), visited + {id}, missing);
          var mid := StepRecord(store, all, before, seen, stack, catalog, visited, missing);
          after := CatalogSees(store, rest, catalog + {id}, r.visited, r.missing, all, before, mid);
          HandsOn(seen, stack, mid, rest, after, []);
        } else {
          StepDirectory(store, all, before, seen, stack, catalog, visited, missing);
          var more := Deeper(CatalogChildren(store, top.node), top.depth + 1);
          after := CatalogSees(store, rest + more, catalog + {id}, visited + {id}, missing, all, before, here);
          HandsOn(seen, stack, here, rest + more, after, []);
        }
      }
    }
  }
}
