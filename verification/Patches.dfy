// Patch frames (crates/view-wire/src/patch.rs): one edit to the tree the host holds, and the
// replay of a whole list of them.
module Patches {
  import opened Wrappers
  import Texts
  import opened Nodes

  // A path is the child index at every level from the root down, [] the root itself.
  datatype Patch = Patch(path: seq<nat>, edit: Edit)

  datatype Edit =
    | Replace(node: Node)
    | Props(node: Node)
    | Insert(index: nat, node: Node)
    | Remove(index: nat)
    | Move(from: nat, to: nat)

  datatype Status = Done | PathToNoNode | PropsOfAnotherArity | ListEditOnNoList | IndexPastTheList

  // The tree after an edit. After a refused Props the target has already lost its children.
  datatype Outcome = Outcome(root: Node, status: Status)

  // What is left of a node once its children are taken out: an empty list, or one empty
  // stand-in per slot.
  function Detached(node: Node): Node {
    node.(children := if HoldsList(node.kind) then [] else Blanks(|node.children|))
  }

  function Blanks(n: nat): seq<Node> {
    seq(n, _ => EMPTY)
  }

  function EditNode(target: Node, edit: Edit): Outcome {
    match edit
    case Replace(node) => Outcome(node, Done)
    case Props(node) =>
      if HoldsList(node.kind) || |node.children| == |target.children| then
        Outcome(node.(children := target.children), Done)
      else
        Outcome(Detached(target), PropsOfAnotherArity)
    case Insert(index, node) =>
      if !HoldsList(target.kind) then Outcome(target, ListEditOnNoList)
      else if index > |target.children| then Outcome(target, IndexPastTheList)
      else Outcome(target.(children := InsertAt(target.children, index, node)), Done)
    case Remove(index) =>
      if !HoldsList(target.kind) then Outcome(target, ListEditOnNoList)
      else if index >= |target.children| then Outcome(target, IndexPastTheList)
      else Outcome(target.(children := RemoveAt(target.children, index)), Done)
    case Move(from, to) =>
      if !HoldsList(target.kind) then Outcome(target, ListEditOnNoList)
      else if from >= |target.children| || to >= |target.children| then
        Outcome(target, IndexPastTheList)
      else
        Outcome(target.(children := InsertAt(RemoveAt(target.children, from), to, target.children[from])), Done)
  }

  function InsertAt<T>(s: seq<T>, index: nat, x: T): (r: seq<T>)
    requires index <= |s|
    ensures |r| == |s| + 1
  {
    s[..index] + [x] + s[index..]
  }

  function RemoveAt<T>(s: seq<T>, index: nat): (r: seq<T>)
    requires index < |s|
    ensures |r| == |s| - 1
  {
    s[..index] + s[index + 1..]
  }

  function ApplyOne(root: Node, path: seq<nat>, edit: Edit): Outcome
    decreases |path|
  {
    if path == [] then EditNode(root, edit)
    else if path[0] >= |root.children| then Outcome(root, PathToNoNode)
    else
      var below := ApplyOne(root.children[path[0]], path[1..], edit);
      Outcome(root.(children := root.children[path[0] := below.root]), below.status)
  }

  // ---- what one patch does -------------------------------------------------------------------------

  // An edit of a list is refused exactly if the node has no list or the place is past it, and fields of
  // another arity are refused where children sit in fixed places; nothing else is. A refused edit leaves
  // the node alone, but for refused fields: its children are gone by then.
  lemma RefusedExactly(target: Node, edit: Edit)
    ensures EditNode(target, edit).status != Done ==>
      var after := EditNode(target, edit).root;
      if edit.Props? then
        && after == target.(children := after.children)
        && |after.children| == (if HoldsList(target.kind) then 0 else |target.children|)
        && forall k :: 0 <= k < |after.children| ==> after.children[k] == EMPTY
      else after == target
    ensures var n := |target.children|;
      EditNode(target, edit).status == Done <==> match edit
        case Replace(_) => true
        case Props(node) => HoldsList(node.kind) || |node.children| == n
        case Insert(index, _) => HoldsList(target.kind) && index <= n
        case Remove(index) => HoldsList(target.kind) && index < n
        case Move(from, to) => HoldsList(target.kind) && from < n && to < n
  {
  }

  // A child put in, taken out or moved; all others keep their order.
  predicate PutIn(was: seq<Node>, now: seq<Node>, index: nat, node: Node) {
    && |now| == |was| + 1 && index <= |was|
    && forall k :: 0 <= k <= |was| ==> now[k] == if k < index then was[k] else if k == index then node else was[k - 1]
  }

  predicate TakenOut(was: seq<Node>, now: seq<Node>, index: nat) {
    && |was| == |now| + 1 && index <= |now|
    && forall k :: 0 <= k < |now| ==> now[k] == if k < index then was[k] else was[k + 1]
  }

  predicate Moved(was: seq<Node>, now: seq<Node>, from: nat, to: nat) {
    && |now| == |was| && from < |was| && to < |was| && now[to] == was[from]
    && forall k :: 0 <= k < |was| && k != to ==>
         now[k] == if from <= k < to then was[k + 1] else if to < k <= from then was[k - 1] else was[k]
  }

  lemma MovedIs(was: seq<Node>, from: nat, to: nat)
    requires from < |was| && to < |was|
    ensures Moved(was, InsertAt(RemoveAt(was, from), to, was[from]), from, to)
  {
    var without := RemoveAt(was, from);
    assert TakenOut(was, without, from);
    assert PutIn(without, InsertAt(without, to, was[from]), to, was[from]);
    hide InsertAt, RemoveAt;
  }

  // An accepted edit puts one child in, takes one out or moves one, and nothing else of the node changes;
  // or it gives the node fresh fields and leaves the children alone.
  lemma EditIsExact(target: Node, edit: Edit)
    requires EditNode(target, edit).status == Done
    ensures var (was, after) := (target.children, EditNode(target, edit).root);
      match edit
      case Replace(node) => after == node
      case Props(node) => after == node.(children := was)
      case Insert(index, node) =>
        after == target.(children := after.children) && PutIn(was, after.children, index, node)
      case Remove(index) => after == target.(children := after.children) && TakenOut(was, after.children, index)
      case Move(from, to) => after == target.(children := after.children) && Moved(was, after.children, from, to)
  {
    hide Moved;
    match edit
    case Insert(index, node) => assert PutIn(target.children, InsertAt(target.children, index, node), index, node);
    case Remove(index) => assert TakenOut(target.children, RemoveAt(target.children, index), index);
    case Move(from, to) => MovedIs(target.children, from, to);
    case _ =>
  }

  function NodeAt(root: Node, path: seq<nat>): Option<Node>
    decreases |path|
  {
    if path == [] then Some(root)
    else if path[0] >= |root.children| then None
    else NodeAt(root.children[path[0]], path[1..])
  }

  // A patch edits the node at its path, or finds none there; whatever is not on the way to it stays.
  lemma {:induction false} PatchIsLocal(root: Node, path: seq<nat>, edit: Edit, other: seq<nat>)
    ensures var (after, target) := (ApplyOne(root, path, edit), NodeAt(root, path));
      && (target.None? ==> after == Outcome(root, PathToNoNode))
      && (target.Some? ==> after.status == EditNode(target.value, edit).status
                           && NodeAt(after.root, path) == Some(EditNode(target.value, edit).root))
      && (!(path <= other) && !(other <= path) ==> NodeAt(after.root, other) == NodeAt(root, other))
      && (other < path && target.Some? ==>
            var (was, now) := (NodeAt(root, other), NodeAt(after.root, other));
            was.Some? && now.Some? && |now.value.children| == |was.value.children|
            && now.value == was.value.(children := now.value.children))
    decreases |path|
  {
    hide EditNode;
    if path != [] && path[0] < |root.children| {
      if other == [] {
        PatchIsLocal(root.children[path[0]], path[1..], edit, []);
      } else {
        PatchIsLocal(root.children[path[0]], path[1..], edit, other[1..]);
        assert path == [path[0]] + path[1..] && other == [other[0]] + other[1..];
      }
    }
  }

  // One patch after another, stopping at the first the tree cannot take.
  function Replay(root: Node, patches: seq<Patch>): Outcome
    decreases |patches|
  {
    if patches == [] then Outcome(root, Done)
    else
      var first := ApplyOne(root, patches[0].path, patches[0].edit);
      if first.status != Done then first else Replay(first.root, patches[1..])
  }

  // The same patches, addressed from further up.
  function Under(prefix: seq<nat>, patches: seq<Patch>): (r: seq<Patch>)
    ensures |r| == |patches|
  {
    if patches == [] then []
    else [Patch(prefix + patches[0].path, patches[0].edit)] + Under(prefix, patches[1..])
  }

  lemma {:induction false} UnderConcat(prefix: seq<nat>, a: seq<Patch>, b: seq<Patch>)
    ensures Under(prefix, a + b) == Under(prefix, a) + Under(prefix, b)
  {
    if a == [] {
      assert a + b == b;
      assert Under(prefix, []) == [] && [] + Under(prefix, b) == Under(prefix, b);
    } else {
      UnderConcat(prefix, a[1..], b);
      assert (a + b)[0] == a[0] && (a + b)[1..] == a[1..] + b;
      var first := [Patch(prefix + a[0].path, a[0].edit)];
      Texts.Regroup(first, Under(prefix, a[1..]), Under(prefix, b));
    }
  }

  lemma UnderUnder(outer: seq<nat>, inner: seq<nat>, patches: seq<Patch>)
    ensures Under(outer, Under(inner, patches)) == Under(outer + inner, patches)
  {
    if patches != [] {
      UnderUnder(outer, inner, patches[1..]);
      assert outer + (inner + patches[0].path) == outer + inner + patches[0].path;
    }
  }

  lemma UnderNothing(patches: seq<Patch>)
    ensures Under([], patches) == patches
  {
    if patches != [] {
      UnderNothing(patches[1..]);
      assert [] + patches[0].path == patches[0].path;
    }
  }

  lemma {:induction false} ReplayConcat(root: Node, a: seq<Patch>, b: seq<Patch>)
    requires Replay(root, a).status == Done
    ensures Replay(root, a + b) == Replay(Replay(root, a).root, b)
    decreases |a|
  {
    if a == [] {
      assert a + b == b;
    } else {
      assert (a + b)[1..] == a[1..] + b;
      ReplayConcat(ApplyOne(root, a[0].path, a[0].edit).root, a[1..], b);
    }
  }

  // Patches under child `i` change that child alone, exactly as they would change it as a root.
  lemma {:induction false} ReplayUnder(root: Node, i: nat, patches: seq<Patch>)
    requires i < |root.children|
    ensures var below := Replay(root.children[i], patches);
            Replay(root, Under([i], patches))
            == Outcome(root.(children := root.children[i := below.root]), below.status)
    decreases |patches|
  {
    if patches == [] {
      assert root.children[i := root.children[i]] == root.children;
    } else {
      assert ([i] + patches[0].path)[1..] == patches[0].path;
      var first := ApplyOne(root.children[i], patches[0].path, patches[0].edit);
      if first.status == Done {
        var next := root.(children := root.children[i := first.root]);
        ReplayUnder(next, i, patches[1..]);
        assert next.children[i := Replay(first.root, patches[1..]).root]
            == root.children[i := Replay(first.root, patches[1..]).root];
      }
    }
  }
}
