// The tree differ (crates/view-wire/src/patch.rs): which patches turn one tree into another.
// The functions say what `diff_node` and `diff_list` emit, as patches addressed from the node at
// hand; `Differ` (Differs.dfy) is the differ itself, pushing absolute paths onto one list.
module Diffing {
  import opened Wrappers
  import Texts
  import opened Nodes
  import opened Patches

  predicate SameArity(before: Node, after: Node) {
    HoldsList(after.kind) || |before.children| == |after.children|
  }

  function DiffNode(before: Node, after: Node): seq<Patch>
    decreases before, 2
  {
    if before == after then []
    else if before.kind != after.kind || !SameArity(before, after) then [Patch([], Replace(after))]
    else
      OwnFields(before, after)
      + if HoldsList(before.kind) then DiffList(before.children, after.children)
        else DiffInPlace(before.children, after.children, 0)
  }

  function OwnFields(before: Node, after: Node): seq<Patch> {
    if Detached(before) == Detached(after) then [] else [Patch([], Props(Detached(after)))]
  }

  // Children matched by position.
  function DiffInPlace(before: seq<Node>, after: seq<Node>, i: nat): seq<Patch>
    requires |before| == |after| && i <= |before|
    decreases before, 0, |before| - i
  {
    if i == |before| then []
    else Under([i], DiffNode(before[i], after[i])) + DiffInPlace(before, after, i + 1)
  }

  predicate Positional(before: seq<Node>, after: seq<Node>) {
    |before| == |after|
    && forall i :: 0 <= i < |before| ==>
         before[i].key == after[i].key && (before[i].key.None? ==> before[i].kind == after[i].kind)
  }

  function DiffList(before: seq<Node>, after: seq<Node>): seq<Patch>
    decreases before, 1
  {
    if Positional(before, after) then DiffInPlace(before, after, 0)
    else
      var stays := Survivors(before, after);
      MatchingIsReady(before, after);
      Removals(stays, |before|)
      + Placements(before, after, Matches(before, after), 0, Live(stays, |before|))
  }

  // ---- which children survive ---------------------------------------------------------------

  // A key one child alone carries.
  predicate SoleKey(nodes: seq<Node>, i: nat)
    requires i < |nodes|
  {
    nodes[i].key.Some? && forall j :: 0 <= j < |nodes| && j != i ==> nodes[j].key != nodes[i].key
  }

  // The index of the one child that carries `key`.
  function SoleIndex(nodes: seq<Node>, key: Option<Texts.Text>): (r: Option<nat>)
    ensures r.Some? ==> r.value < |nodes| && SoleKey(nodes, r.value) && nodes[r.value].key == key
    ensures r.None? ==> forall i :: 0 <= i < |nodes| && SoleKey(nodes, i) ==> nodes[i].key != key
  {
    var i := FirstWith(nodes, key);
    if i < |nodes| && SoleKey(nodes, i) then Some(i) else None
  }

  function FirstWith(nodes: seq<Node>, key: Option<Texts.Text>): (i: nat)
    ensures i <= |nodes| && (i < |nodes| ==> nodes[i].key == key)
    ensures forall j :: 0 <= j < i ==> nodes[j].key != key
  {
    if nodes == [] || nodes[0].key == key then 0 else 1 + FirstWith(nodes[1..], key)
  }

  predicate Survives(before: seq<Node>, after: seq<Node>, i: nat)
    requires i < |before|
  {
    SoleKey(before, i) && SoleIndex(after, before[i].key).Some?
  }

  // The old index of the child that new child `j` is, if it survives.
  function Match(before: seq<Node>, after: seq<Node>, j: nat): Option<nat>
    requires j < |after|
  {
    if SoleKey(after, j) then SoleIndex(before, after[j].key) else None
  }

  function Survivors(before: seq<Node>, after: seq<Node>): (stays: seq<bool>)
    ensures |stays| == |before| && forall i: nat :: i < |before| ==> stays[i] == Survives(before, after, i)
  {
    seq(|before|, i requires 0 <= i < |before| => Survives(before, after, i))
  }

  function Matches(before: seq<Node>, after: seq<Node>): (wanted: seq<Option<nat>>)
    ensures |wanted| == |after| && forall j: nat :: j < |after| ==> wanted[j] == Match(before, after, j)
  {
    seq(|after|, j requires 0 <= j < |after| => Match(before, after, j))
  }

  // A child survives exactly when its key is the only one of its name on each side, and then the
  // new child of that key is matched with it.
  lemma MatchIs(before: seq<Node>, after: seq<Node>, j: nat)
    requires j < |after| && Match(before, after, j).Some?
    ensures var w := Match(before, after, j).value;
            w < |before| && SoleKey(before, w) && SoleKey(after, j) && before[w].key == after[j].key
            && Survives(before, after, w)
  {
    assert SoleIndex(after, after[j].key).Some?;
  }

  // A new child is matched with an old one exactly if they carry the same key, which no other child on
  // either side carries.
  lemma MatchExactly(before: seq<Node>, after: seq<Node>, j: nat, w: nat)
    requires j < |after|
    ensures Match(before, after, j) == Some(w) <==>
      && w < |before| && after[j].key.Some? && before[w].key == after[j].key
      && (forall i :: 0 <= i < |before| && i != w ==> before[i].key != after[j].key)
      && (forall i :: 0 <= i < |after| && i != j ==> after[i].key != after[j].key)
  {
    if w < |before| && SoleKey(before, w) && before[w].key == after[j].key {
      assert SoleIndex(before, after[j].key) == Some(w);
    }
  }

  // Two lists are matched place by place exactly if they are as long and hold, place by place, the same
  // key, or nodes of one kind without keys.
  lemma PositionalExactly(before: seq<Node>, after: seq<Node>)
    ensures Positional(before, after) <==>
      && |before| == |after|
      && forall i :: 0 <= i < |before| ==> match (before[i].key, after[i].key)
           case (Some(a), Some(b)) => a == b
           case (None, None) => before[i].kind == after[i].kind
           case _ => false
  {
  }

  lemma SurvivorIsMatched(before: seq<Node>, after: seq<Node>, i: nat) returns (j: nat)
    requires i < |before| && Survives(before, after, i)
    ensures j < |after| && Match(before, after, j) == Some(i)
  {
    j := SoleIndex(after, before[i].key).value;
    assert SoleIndex(before, after[j].key) == Some(i);
  }

  // ---- removing the others ------------------------------------------------------------------

  predicate Within(indices: seq<nat>, n: nat) {
    forall k :: 0 <= k < |indices| ==> indices[k] < n
  }

  ghost predicate Distinct(s: seq<nat>) {
    forall i, j :: 0 <= i < j < |s| ==> s[i] != s[j]
  }

  // Among the first `upto` old children: those that stay, and the patches that remove the others.
  function Live(stays: seq<bool>, upto: nat): (live: seq<nat>)
    requires upto <= |stays|
    ensures Within(live, upto)
  {
    if upto == 0 then []
    else Live(stays, upto - 1) + if stays[upto - 1] then [upto - 1] else []
  }

  lemma {:induction false} LiveIs(stays: seq<bool>, upto: nat)
    requires upto <= |stays|
    ensures Distinct(Live(stays, upto))
    ensures forall i: nat :: i in Live(stays, upto) <==> i < upto && stays[i]
  {
    if upto > 0 { LiveIs(stays, upto - 1); }
  }

  function Removals(stays: seq<bool>, upto: nat): seq<Patch>
    requires upto <= |stays|
  {
    if upto == 0 then []
    else
      Removals(stays, upto - 1)
      + if stays[upto - 1] then [] else [Patch([], Remove(|Live(stays, upto - 1)|))]
  }

  lemma RemovalsNext(stays: seq<bool>, i: nat)
    requires i < |stays|
    ensures Live(stays, i + 1) == if stays[i] then Live(stays, i) + [i] else Live(stays, i)
    ensures Removals(stays, i + 1)
         == if stays[i] then Removals(stays, i) else Removals(stays, i) + [Patch([], Remove(|Live(stays, i)|))]
  {
  }

  // ---- placing the new children -------------------------------------------------------------

  // Every child still wanted from `index` on is among the old children not placed yet, and no
  // old child is wanted twice.
  ghost predicate Ready(wanted: seq<Option<nat>>, bound: nat, index: nat, rest: seq<nat>) {
    && Within(rest, bound)
    && (forall j :: index <= j < |wanted| && wanted[j].Some? ==> wanted[j].value in rest)
    && forall i, j :: index <= i < j < |wanted| && wanted[i].Some? ==> wanted[i] != wanted[j]
  }

  function IndexOf(rest: seq<nat>, w: nat): (at: nat)
    requires w in rest
    ensures at < |rest| && rest[at] == w && w !in rest[..at]
  {
    if rest[0] == w then 0 else 1 + IndexOf(rest[1..], w)
  }

  // The patch that brings the `at`th child not placed yet to `index`, if it is not there.
  function MoveUp(at: nat, index: nat): seq<Patch> {
    if at == 0 then [] else [Patch([], Move(index + at, index))]
  }

  // The patches that place new children `index..`, with `rest` the old children not placed yet
  // in the order the list holds them behind the placed ones.
  function Placements(before: seq<Node>, after: seq<Node>, wanted: seq<Option<nat>>, index: nat,
          rest: seq<nat>): seq<Patch>
    requires index <= |after| == |wanted| && Ready(wanted, |before|, index, rest)
    decreases before, 0, |after| - index
  {
    if index == |after| then []
    else
      match wanted[index]
      case None =>
        [Patch([], Insert(index, after[index]))] + Placements(before, after, wanted, index + 1, rest)
      case Some(w) =>
        var at := IndexOf(rest, w);
        ReadyAfter(wanted, |before|, index, rest);
        MoveUp(at, index)
        + Under([index], DiffNode(before[w], after[index]))
        + Placements(before, after, wanted, index + 1, RemoveAt(rest, at))
  }

  lemma MatchingIsReady(before: seq<Node>, after: seq<Node>)
    ensures Ready(Matches(before, after), |before|, 0, Live(Survivors(before, after), |before|))
  {
    LiveIs(Survivors(before, after), |before|);
    forall j: nat | j < |after| && Match(before, after, j).Some?
      ensures Match(before, after, j).value in Live(Survivors(before, after), |before|)
    {
      MatchIs(before, after, j);
    }
    forall i: nat, j: nat | i < j < |after| && Match(before, after, i).Some?
      ensures Match(before, after, i) != Match(before, after, j)
    {
      MatchIs(before, after, i);
      if Match(before, after, j).Some? { MatchIs(before, after, j); }
    }
  }

  lemma ReadyAfter(wanted: seq<Option<nat>>, bound: nat, index: nat, rest: seq<nat>)
    requires index < |wanted| && Ready(wanted, bound, index, rest) && wanted[index].Some?
    ensures Ready(wanted, bound, index + 1, RemoveAt(rest, IndexOf(rest, wanted[index].value)))
  {
    var at := IndexOf(rest, wanted[index].value);
    forall j | index + 1 <= j < |wanted| && wanted[j].Some?
      ensures wanted[j].value in RemoveAt(rest, at)
    {
      var i :| 0 <= i < |rest| && rest[i] == wanted[j].value;
      assert RemoveAt(rest, at)[if i < at then i else i - 1] == wanted[j].value;
    }
  }

  lemma PlacementsInsert(before: seq<Node>, after: seq<Node>, wanted: seq<Option<nat>>, index: nat, rest: seq<nat>)
    requires index < |after| == |wanted| && Ready(wanted, |before|, index, rest) && wanted[index].None?
    ensures Ready(wanted, |before|, index + 1, rest)
    ensures Placements(before, after, wanted, index, rest)
         == [Patch([], Insert(index, after[index]))] + Placements(before, after, wanted, index + 1, rest)
  {
  }

  lemma PlacementsKeep(before: seq<Node>, after: seq<Node>, wanted: seq<Option<nat>>, index: nat, rest: seq<nat>)
    requires index < |after| == |wanted| && Ready(wanted, |before|, index, rest) && wanted[index].Some?
    ensures wanted[index].value in rest && wanted[index].value < |before|
    ensures var w := wanted[index].value;
            var left := RemoveAt<nat>(rest, IndexOf(rest, w));
            && Ready(wanted, |before|, index + 1, left)
            && Placements(before, after, wanted, index, rest)
               == MoveUp(IndexOf(rest, w), index) + Under([index], DiffNode(before[w], after[index]))
                  + Placements(before, after, wanted, index + 1, left)
  {
    ReadyAfter(wanted, |before|, index, rest);
  }
}
