// Replaying a diff: it never fails, it ends exactly at the new tree, and it is not longer than
// the two trees together.
module DiffReplay {
  import opened Wrappers
  import opened Nodes
  import opened Patches
  import opened Diffing

  // `items` are the nodes at these indices.
  ghost predicate Picks(items: seq<Node>, nodes: seq<Node>, indices: seq<nat>) {
    && |items| == |indices|
    && forall k :: 0 <= k < |indices| ==> indices[k] < |nodes| && items[k] == nodes[indices[k]]
  }

  lemma PicksMore(items: seq<Node>, nodes: seq<Node>, indices: seq<nat>, i: nat)
    requires Picks(items, nodes, indices) && i < |nodes|
    ensures Picks(items + [nodes[i]], nodes, indices + [i])
  {
  }

  // Every old child not placed yet is a child the new list still wants.
  ghost predicate Covered(wanted: seq<Option<nat>>, index: nat, rest: seq<nat>) {
    forall r :: r in rest ==> exists j :: index <= j < |wanted| && wanted[j] == Some(r)
  }

  lemma {:induction false} ReplayOwnFields(before: Node, after: Node)
    requires before.kind == after.kind && SameArity(before, after)
    ensures Replay(before, OwnFields(before, after)) == Outcome(after.(children := before.children), Done)
  {
    if Detached(before) == Detached(after) {
      assert before == Detached(before).(children := before.children);
      assert after.(children := before.children) == Detached(after).(children := before.children);
    } else {
      ReplayOne(before, Props(Detached(after)));
    }
  }

  lemma ReplayOne(root: Node, edit: Edit)
    ensures Replay(root, [Patch([], edit)]) == EditNode(root, edit)
  {
    assert [Patch([], edit)][1..] == [];
  }

  // The diff of any two trees, replayed on the first, succeeds and leaves exactly the second.
  lemma {:induction false} DiffReplays(before: Node, after: Node)
    ensures Replay(before, DiffNode(before, after)) == Outcome(after, Done)
    decreases before, 2
  {
    if before == after {
    } else if before.kind != after.kind || !SameArity(before, after) {
      ReplayOne(before, Replace(after));
    } else {
      ReplayOwnFields(before, after);
      var host := after.(children := before.children);
      if HoldsList(before.kind) {
        ReplayConcat(before, OwnFields(before, after), DiffList(before.children, after.children));
        ListReplays(host, before.children, after.children);
      } else {
        ReplayConcat(before, OwnFields(before, after), DiffInPlace(before.children, after.children, 0));
        InPlaceReplays(host, before.children, after.children, 0);
      }
      assert host.(children := after.children) == after;
    }
  }

  lemma {:induction false} InPlaceReplays(host: Node, before: seq<Node>, after: seq<Node>, i: nat)
    requires |before| == |after| && i <= |before|
    requires host.children == after[..i] + before[i..]
    ensures Replay(host, DiffInPlace(before, after, i)) == Outcome(host.(children := after), Done)
    decreases before, 0, |before| - i
  {
    if i == |before| {
      assert host.children == after;
    } else {
      DiffReplays(before[i], after[i]);
      ReplayUnder(host, i, DiffNode(before[i], after[i]));
      var next := host.(children := host.children[i := after[i]]);
      assert next.children == after[..i + 1] + before[i + 1..];
      ReplayConcat(host, Under([i], DiffNode(before[i], after[i])), DiffInPlace(before, after, i + 1));
      InPlaceReplays(next, before, after, i + 1);
    }
  }

  lemma {:induction false} ListReplays(host: Node, before: seq<Node>, after: seq<Node>)
    requires HoldsList(host.kind) && host.children == before
    ensures Replay(host, DiffList(before, after)) == Outcome(host.(children := after), Done)
    decreases before, 1
  {
    if Positional(before, after) {
      InPlaceReplays(host, before, after, 0);
    } else {
      var stays := Survivors(before, after);
      var wanted := Matches(before, after);
      var live := Live(stays, |before|);
      MatchingIsReady(before, after);
      LiveIs(stays, |before|);
      SurvivorsAreWanted(before, after);
      var kept := RemovalsReplay(host, before, stays, |before|);
      NothingPlaced(kept, before, after);
      ReplayConcat(host, Removals(stays, |before|), Placements(before, after, wanted, 0, live));
      PlacementsReplay(host.(children := after[..0] + kept), kept, before, after, wanted, 0, live);
    }
  }

  lemma NothingPlaced(kept: seq<Node>, before: seq<Node>, after: seq<Node>)
    ensures kept + before[|before|..] == after[..0] + kept
  {
    assert before[|before|..] == [] && after[..0] == [];
  }

  lemma SurvivorsAreWanted(before: seq<Node>, after: seq<Node>)
    ensures forall r :: r in Live(Survivors(before, after), |before|) ==>
              exists j :: 0 <= j < |Matches(before, after)| && Matches(before, after)[j] == Some(r)
  {
    hide Matches, Survivors, Live;
    LiveIs(Survivors(before, after), |before|);
    forall r | r in Live(Survivors(before, after), |before|)
      ensures exists j :: 0 <= j < |Matches(before, after)| && Matches(before, after)[j] == Some(r)
    {
      var j := SurvivorIsMatched(before, after, r);
      assert Matches(before, after)[j] == Some(r);
    }
  }

  lemma {:induction false} RemovalsReplay(host: Node, before: seq<Node>, stays: seq<bool>, upto: nat)
    returns (kept: seq<Node>)
    requires HoldsList(host.kind) && host.children == before && upto <= |before| == |stays|
    ensures Picks(kept, before, Live(stays, upto))
    ensures Replay(host, Removals(stays, upto)) == Outcome(host.(children := kept + before[upto..]), Done)
  {
    hide *;
    kept := [];
    if upto == 0 {
      RemovalsReplayNone(host, before, stays);
    } else {
      var x := before[upto - 1];
      kept := RemovalsReplay(host, before, stays, upto - 1);
      RemovalsNext(stays, upto - 1);
      SplitTail(kept, before, upto - 1);
      if stays[upto - 1] {
        PicksMore(kept, before, Live(stays, upto - 1), upto - 1);
        kept := kept + [x];
      } else {
        PicksLength(kept, before, Live(stays, upto - 1));
        ReplayRemove(host, Removals(stays, upto - 1), kept, x, before[upto..]);
      }
    }
  }

  lemma RemovalsReplayNone(host: Node, before: seq<Node>, stays: seq<bool>)
    requires host.children == before
    ensures Picks([], before, Live(stays, 0))
    ensures Replay(host, Removals(stays, 0)) == Outcome(host.(children := [] + before[0..]), Done)
  {
    assert [] + before[0..] == before;
  }

  lemma PicksLength(items: seq<Node>, nodes: seq<Node>, indices: seq<nat>)
    requires Picks(items, nodes, indices)
    ensures |items| == |indices|
  {
  }

  lemma SplitTail<T>(a: seq<T>, b: seq<T>, i: nat)
    requires i < |b|
    ensures a + b[i..] == a + ([b[i]] + b[i + 1..]) == a + [b[i]] + b[i + 1..]
  {
  }

  lemma ReplayRemove(host: Node, patches: seq<Patch>, a: seq<Node>, x: Node, b: seq<Node>)
    requires HoldsList(host.kind) && Replay(host, patches) == Outcome(host.(children := a + ([x] + b)), Done)
    ensures Replay(host, patches + [Patch([], Remove(|a|))]) == Outcome(host.(children := a + b), Done)
  {
    ReplayConcat(host, patches, [Patch([], Remove(|a|))]);
    assert RemoveAt(a + ([x] + b), |a|) == a + b;
    ReplayOne(host.(children := a + ([x] + b)), Remove(|a|));
  }

  lemma {:induction false} PlacementsReplay(host: Node, items: seq<Node>, before: seq<Node>, after: seq<Node>,
          wanted: seq<Option<nat>>, index: nat, rest: seq<nat>)
    requires HoldsList(host.kind) && index <= |after| == |wanted|
    requires Ready(wanted, |before|, index, rest) && Covered(wanted, index, rest) && Distinct(rest)
    requires Picks(items, before, rest) && host.children == after[..index] + items
    ensures Replay(host, Placements(before, after, wanted, index, rest)) == Outcome(host.(children := after), Done)
    decreases before, 0, |after| - index
  {
    if index == |after| {
      assert rest == [] by {
        if rest != [] { CoveredBySomeone(wanted, index, rest); }
      }
      assert host.children == after;
    } else if wanted[index].None? {
      var edit := Insert(index, after[index]);
      var tail := Placements(before, after, wanted, index + 1, rest);
      var next := host.(children := after[..index + 1] + items);
      InsertMiddle(after[..index], after[index], items);
      assert after[..index + 1] == after[..index] + [after[index]];
      ReplayOne(host, edit);
      ReplayConcat(host, [Patch([], edit)], tail);
      PlacementsReplay(next, items, before, after, wanted, index + 1, rest);
    } else {
      PlaceSurvivor(host, items, before, after, wanted, index, rest);
    }
  }

  lemma InsertMiddle<T>(a: seq<T>, x: T, b: seq<T>)
    ensures InsertAt(a + b, |a|, x) == a + [x] + b
  {
  }

  lemma {:induction false} PlaceSurvivor(host: Node, items: seq<Node>, before: seq<Node>, after: seq<Node>,
          wanted: seq<Option<nat>>, index: nat, rest: seq<nat>)
    requires HoldsList(host.kind) && index < |after| == |wanted|
    requires Ready(wanted, |before|, index, rest) && Covered(wanted, index, rest) && Distinct(rest)
    requires Picks(items, before, rest) && host.children == after[..index] + items
    requires wanted[index].Some?
    ensures Replay(host, Placements(before, after, wanted, index, rest)) == Outcome(host.(children := after), Done)
    decreases before, 0, |after| - index, 0
  {
    hide *;
    var w := wanted[index].value;
    PlacementsKeep(before, after, wanted, index, rest);
    CoveredAfter(wanted, index, rest);
    var at := IndexOf(rest, w);
    var left := RemoveAt<nat>(rest, at);
    PicksRemoveAt(items, before, rest, at);
    var itemsLeft := RemoveAt(items, at);
    var below := DiffNode(before[w], after[index]);
    var moved := host.(children := after[..index] + [items[at]] + itemsLeft);
    ReplayMove(host, after[..index], items, at);
    DiffReplays(before[w], after[index]);
    var placed := ReplaceOneChild(moved, after[..index], items[at], after[index], itemsLeft, below);
    assert after[..index + 1] == after[..index] + [after[index]];
    PlacementsReplay(placed, itemsLeft, before, after, wanted, index + 1, left);
    ReplayTwice(host, moved, placed, MoveUp(at, index), Under([index], below),
        Placements(before, after, wanted, index + 1, left));
  }

  lemma PicksRemoveAt(items: seq<Node>, nodes: seq<Node>, indices: seq<nat>, at: nat)
    requires Picks(items, nodes, indices) && at < |indices|
    ensures |items| == |indices| && indices[at] < |nodes| && items[at] == nodes[indices[at]]
    ensures Picks(RemoveAt(items, at), nodes, RemoveAt<nat>(indices, at))
  {
  }

  lemma ReplaceOneChild(host: Node, a: seq<Node>, x: Node, y: Node, b: seq<Node>, patches: seq<Patch>)
    returns (next: Node)
    requires host.children == a + [x] + b && Replay(x, patches) == Outcome(y, Done)
    ensures next == host.(children := a + [y] + b)
    ensures Replay(host, Under([|a|], patches)) == Outcome(next, Done)
  {
    ReplayUnder(host, |a|, patches);
    next := host.(children := a + [y] + b);
    assert host.children[|a| := y] == a + [y] + b;
  }

  lemma ReplayTwice(a: Node, b: Node, c: Node, first: seq<Patch>, second: seq<Patch>, third: seq<Patch>)
    requires Replay(a, first) == Outcome(b, Done) && Replay(b, second) == Outcome(c, Done)
    ensures Replay(a, first + second + third) == Replay(c, third)
  {
    ReplayConcat(a, first, second);
    ReplayConcat(a, first + second, third);
  }

  // Moving the `at`th of the children not placed yet right behind the placed ones.
  lemma ReplayMove(host: Node, placed: seq<Node>, items: seq<Node>, at: nat)
    requires HoldsList(host.kind) && at < |items| && host.children == placed + items
    ensures Replay(host, MoveUp(at, |placed|))
         == Outcome(host.(children := placed + [items[at]] + RemoveAt(items, at)), Done)
  {
    var goal := placed + [items[at]] + RemoveAt(items, at);
    if at == 0 {
      assert host.children == goal;
    } else {
      var edit := Move(|placed| + at, |placed|);
      assert RemoveAt(host.children, |placed| + at) == placed + RemoveAt(items, at);
      assert InsertAt(RemoveAt(host.children, |placed| + at), |placed|, items[at]) == goal;
      ReplayOne(host, edit);
    }
  }

  lemma CoveredBySomeone(wanted: seq<Option<nat>>, index: nat, rest: seq<nat>)
    requires rest != [] && Covered(wanted, index, rest)
    ensures index < |wanted|
  {
    assert rest[0] in rest;
  }

  lemma CoveredAfter(wanted: seq<Option<nat>>, index: nat, rest: seq<nat>)
    requires index < |wanted| && wanted[index].Some? && wanted[index].value in rest
    requires Covered(wanted, index, rest) && Distinct(rest)
    ensures var left := RemoveAt<nat>(rest, IndexOf(rest, wanted[index].value));
            Covered(wanted, index + 1, left) && Distinct(left)
  {
    var at := IndexOf(rest, wanted[index].value);
    var left := RemoveAt(rest, at);
    forall r | r in left
      ensures exists j :: index + 1 <= j < |wanted| && wanted[j] == Some(r)
    {
      var k :| 0 <= k < |left| && left[k] == r;
      assert r == rest[if k < at then k else k + 1] && r in rest;
      var j :| index <= j < |wanted| && wanted[j] == Some(r);
      assert j != index;
    }
  }

  // ---- how long a diff is -----------------------------------------------------------------

  // Two trees never need as many patches as they have nodes between them.
  lemma {:induction false} DiffBound(before: Node, after: Node)
    ensures |DiffNode(before, after)| < Count(before) + Count(after)
    decreases before, 2
  {
    if before != after && before.kind == after.kind && SameArity(before, after) {
      if HoldsList(before.kind) {
        ListBound(before.children, after.children);
      } else {
        InPlaceBound(before.children, after.children, 0);
      }
    }
  }

  lemma {:induction false} InPlaceBound(before: seq<Node>, after: seq<Node>, i: nat)
    requires |before| == |after| && i <= |before|
    ensures |DiffInPlace(before, after, i)| <= CountAll(before[i..]) + CountAll(after[i..])
    decreases before, 0, |before| - i
  {
    if i < |before| {
      DiffBound(before[i], after[i]);
      InPlaceBound(before, after, i + 1);
      assert before[i..][1..] == before[i + 1..] && after[i..][1..] == after[i + 1..];
    }
  }

  lemma {:induction false} ListBound(before: seq<Node>, after: seq<Node>)
    ensures |DiffList(before, after)| <= CountAll(before) + CountAll(after)
    decreases before, 1
  {
    if Positional(before, after) {
      InPlaceBound(before, after, 0);
    } else {
      var stays := Survivors(before, after);
      MatchingIsReady(before, after);
      var kept := RemovalsBound(before, stays, |before|);
      assert before[..|before|] == before;
      PlacementsBound(kept, before, after, Matches(before, after), 0, Live(stays, |before|));
    }
  }

  lemma {:induction false} RemovalsBound(before: seq<Node>, stays: seq<bool>, upto: nat) returns (kept: seq<Node>)
    requires upto <= |before| == |stays|
    ensures Picks(kept, before, Live(stays, upto))
    ensures |Removals(stays, upto)| + CountAll(kept) <= CountAll(before[..upto])
  {
    kept := [];
    if upto > 0 {
      kept := RemovalsBound(before, stays, upto - 1);
      assert before[..upto] == before[..upto - 1] + [before[upto - 1]];
      CountAllConcat(before[..upto - 1], [before[upto - 1]]);
      if stays[upto - 1] {
        CountAllConcat(kept, [before[upto - 1]]);
        kept := kept + [before[upto - 1]];
      } else {
        assert Live(stays, upto) == Live(stays, upto - 1);
      }
    }
  }

  lemma {:induction false} PlacementsBound(items: seq<Node>, before: seq<Node>, after: seq<Node>,
          wanted: seq<Option<nat>>, index: nat, rest: seq<nat>)
    requires index <= |after| == |wanted| && Ready(wanted, |before|, index, rest) && Picks(items, before, rest)
    ensures |Placements(before, after, wanted, index, rest)| <= CountAll(items) + CountAll(after[index..])
    decreases before, 0, |after| - index
  {
    if index < |after| {
      assert after[index..] == [after[index]] + after[index + 1..];
      match wanted[index]
      case None => PlacementsBound(items, before, after, wanted, index + 1, rest);
      case Some(w) =>
        var at := IndexOf(rest, w);
        ReadyAfter(wanted, |before|, index, rest);
        DiffBound(before[w], after[index]);
        PlacementsBound(RemoveAt(items, at), before, after, wanted, index + 1, RemoveAt(rest, at));
        CountAllRemoveAt(items, at);
    }
  }

  lemma CountAllRemoveAt(nodes: seq<Node>, at: nat)
    requires at < |nodes|
    ensures CountAll(nodes) == Count(nodes[at]) + CountAll(RemoveAt(nodes, at))
  {
    var tail := nodes[at..];
    assert nodes == nodes[..at] + tail && tail[1..] == nodes[at + 1..];
    CountAllConcat(nodes[..at], tail);
    CountAllConcat(nodes[..at], nodes[at + 1..]);
  }
}
