// The host's side of a patch frame (crates/view-wire/src/patch.rs): the live tree it edits.
module Hosts {
  import opened Wrappers
  import opened Nodes
  import opened Patches
  import opened Diffing
  import opened DiffReplay
  import opened Sanitizing
  import opened SanitizerLaws
  import Sanitizers

  // The most patches one frame may carry.
  const MAX_PATCHES := 1024

  class Host {
    var root: Node

    constructor (tree: Node)
      ensures root == tree
    {
      root := tree;
    }

    // The replay half of `apply`. A frame with too many patches is refused (None) before the
    // first; a patch the tree cannot take stops the frame part-way.
    method Replay(patches: seq<Patch>) returns (status: Option<Status>)
      modifies this
      ensures |patches| > MAX_PATCHES ==> status == None && root == old(root)
      ensures |patches| <= MAX_PATCHES ==>
        status.Some? && Outcome(root, status.value) == Patches.Replay(old(root), patches)
    {
      if |patches| > MAX_PATCHES {
        return None;
      }
      var index := 0;
      while index < |patches|
        invariant index <= |patches|
        invariant Patches.Replay(old(root), patches) == Patches.Replay(root, patches[index..])
      {
        var applied := ApplyOne(root, patches[index].path, patches[index].edit);
        root := applied.root;
        if applied.status != Done {
          return Some(applied.status);
        }
        assert patches[index..][1..] == patches[index + 1..];
        index := index + 1;
      }
      return Some(Done);
    }

    // `apply`: the frame's patches, and then the whole tree within bounds again.
    method Apply(patches: seq<Patch>) returns (status: Option<Status>)
      modifies this
      ensures |patches| > MAX_PATCHES ==> status == None && root == old(root)
      ensures |patches| <= MAX_PATCHES ==>
        var replayed := Patches.Replay(old(root), patches);
        status == Some(replayed.status)
            && root == if status.value == Done then Sanitized(replayed.root) else replayed.root
    {
      hide Sanitized;
      status := Replay(patches);
      if status == Some(Done) {
        root := Sanitizers.SanitizeTree(root);
      }
    }

    // A guest's diff of the tree the host holds, small enough to send, brings the host to exactly
    // the guest's tree, provided that tree keeps within the bounds.
    method Follow(guest: Node) returns (status: Option<Status>)
      requires |DiffNode(root, guest)| <= MAX_PATCHES && WithinBounds(guest)
      modifies this
      ensures status == Some(Done) && root == guest
    {
      hide Sanitized, WithinBounds;
      DiffReplays(root, guest);
      WellBehavedIsUnchanged(guest);
      status := Apply(DiffNode(root, guest));
    }

    // And of whatever else a guest sends, what the host ends up with is within bounds.
    method Endure(patches: seq<Patch>) returns (status: Option<Status>)
      requires Shaped(root) && ShapedPatches(patches)
      modifies this
      ensures status == Some(Done) ==>
        AllDiffer(Keys(root)) && Height(root) <= MAX_DEPTH + 1 && TextIn(root) <= MAX_TEXT_BYTES_PER_FRAME
        && Count(root) <= MAX_NODES + MAX_DEPTH + 1 && Settled(root)
    {
      hide Sanitized, Shaped, ShapedPatches, Keys, Height, TextIn, Count, Settled;
      ghost var replayed := Patches.Replay(root, patches).root;
      ReplayKeepsShapes(root, patches);
      status := Apply(patches);
      SanitizedIsBounded(replayed);
    }
  }

  // ---- edits keep the shapes the variants allow ------------------------------------------------------

  predicate ShapedPatches(patches: seq<Patch>) {
    forall i :: 0 <= i < |patches| ==>
      match patches[i].edit
      case Replace(node) => Shaped(node)
      case Props(node) => Shaped(node)
      case Insert(_, node) => Shaped(node)
      case _ => true
  }

  lemma {:induction false} ShapedEach(nodes: seq<Node>)
    ensures ShapedAll(nodes) <==> forall i :: 0 <= i < |nodes| ==> Shaped(nodes[i])
  {
    hide Shaped;
    if nodes != [] {
      ShapedEach(nodes[1..]);
      assert forall i :: 0 < i < |nodes| ==> nodes[i] == nodes[1..][i - 1];
    }
  }

  lemma ChildrenFromOld(target: Node, edit: Edit)
    requires edit.Insert? || edit.Remove? || edit.Move?
    ensures var after := EditNode(target, edit).root;
      && after.kind == target.kind && (after != target ==> HoldsList(target.kind))
      && forall i :: 0 <= i < |after.children| ==>
           after.children[i] in target.children || (edit.Insert? && after.children[i] == edit.node)
  {
  }

  lemma EditKeepsShapes(target: Node, edit: Edit)
    requires Shaped(target) && ShapedPatches([Patch([], edit)])
    ensures Shaped(EditNode(target, edit).root)
  {
    assert [Patch([], edit)][0] == Patch([], edit);
    var after := EditNode(target, edit).root;
    match edit
    case Replace(_) =>
    case Props(node) =>
      ShapedEach(Blanks(|target.children|));
      assert Shaped(EMPTY);
    case _ =>
      ShapedEach(target.children);
      ShapedEach(after.children);
      ChildrenFromOld(target, edit);
  }

  lemma {:induction false} OneKeepsShapes(root: Node, path: seq<nat>, edit: Edit)
    requires Shaped(root) && ShapedPatches([Patch([], edit)])
    ensures Shaped(ApplyOne(root, path, edit).root)
    decreases |path|
  {
    hide ShapedPatches, EditNode;
    if path == [] {
      EditKeepsShapes(root, edit);
    } else if path[0] < |root.children| {
      ShapedEach(root.children);
      OneKeepsShapes(root.children[path[0]], path[1..], edit);
      ShapedEach(root.children[path[0] := ApplyOne(root.children[path[0]], path[1..], edit).root]);
    }
  }

  lemma {:induction false} ReplayKeepsShapes(root: Node, patches: seq<Patch>)
    requires Shaped(root) && ShapedPatches(patches)
    ensures Shaped(Patches.Replay(root, patches).root)
    decreases |patches|
  {
    hide Shaped, ApplyOne;
    if patches != [] {
      assert ShapedPatches([Patch([], patches[0].edit)]);
      OneKeepsShapes(root, patches[0].path, patches[0].edit);
      var first := ApplyOne(root, patches[0].path, patches[0].edit);
      if first.status == Done {
        assert ShapedPatches(patches[1..]);
        ReplayKeepsShapes(first.root, patches[1..]);
      }
    }
  }
}
