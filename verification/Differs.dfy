// The differ at work: one path stack and one growing list of patches.
module Differs {
  import opened Wrappers
  import Texts
  import opened Nodes
  import opened Patches
  import opened Diffing
  import opened DiffReplay

  class Differ {
    var path: seq<nat>
    var out: seq<Patch>

    constructor ()
      ensures path == [] && out == []
    {
      path, out := [], [];
    }

    method Node(before: Nodes.Node, after: Nodes.Node)
      modifies this
      ensures path == old(path)
      ensures out == old(out) + Under(path, DiffNode(before, after))
      decreases before, 2
    {
      hide *;
      UnderNode(path, before, after);
      if before == after { return; }
      var sameKind := before.kind == after.kind;
      var sameArity := HoldsList(after.kind) || |before.children| == |after.children|;
      if !(sameKind && sameArity) {
        out := out + [Patch(path, Replace(after))];
        return;
      }
      var beforeOwn, afterOwn := Detached(before), Detached(after);
      if beforeOwn != afterOwn {
        out := out + [Patch(path, Props(afterOwn))];
      }
      ghost var sofar := out;
      if HoldsList(before.kind) {
        List(before.children, after.children);
      } else {
        InPlace(before.children, after.children);
      }
      RegroupFour(old(out), sofar[|old(out)|..], out[|sofar|..], []);
    }

    method InPlace(before: seq<Nodes.Node>, after: seq<Nodes.Node>)
      requires |before| == |after|
      modifies this
      ensures path == old(path)
      ensures out == old(out) + Under(path, DiffInPlace(before, after, 0))
      decreases before, 0
    {
      hide *;
      ghost var goal := old(out) + Under(path, DiffInPlace(before, after, 0));
      var index: nat := 0;
      while index < |before|
        invariant index <= |before|
        invariant path == old(path)
        invariant out + Under(path, DiffInPlace(before, after, index)) == goal
      {
        UnderInPlace(path, before, after, index);
        ghost var sofar := out;
        path := path + [index];
        Node(before[index], after[index]);
        path := path[..|path| - 1];
        assert path == old(path);
        RegroupFour(sofar, [], Under(path + [index], DiffNode(before[index], after[index])),
          Under(path, DiffInPlace(before, after, index + 1)));
        index := index + 1;
      }
      UnderInPlace(path, before, after, index);
    }

    method List(before: seq<Nodes.Node>, after: seq<Nodes.Node>)
      modifies this
      ensures path == old(path)
      ensures out == old(out) + Under(path, DiffList(before, after))
      decreases before, 1
    {
      if Positional(before, after) {
        InPlace(before, after);
      } else {
        MatchingIsReady(before, after);
        Keyed(before, after);
        UnderConcat(path, Removals(Survivors(before, after), |before|),
          Placements(before, after, Matches(before, after), 0, Live(Survivors(before, after), |before|)));
      }
    }

    method Keyed(before: seq<Nodes.Node>, after: seq<Nodes.Node>)
      requires Ready(Matches(before, after), |before|, 0, Live(Survivors(before, after), |before|))
      modifies this
      ensures path == old(path)
      ensures out == old(out) + (Under(path, Removals(Survivors(before, after), |before|))
        + Under(path, Placements(before, after, Matches(before, after), 0, Live(Survivors(before, after), |before|))))
      decreases before, 0, 3
    {
      hide *;
      var beforeKeys := Unique(before);
      var afterKeys := Unique(after);
      var live := RemoveGone(before, after, beforeKeys, afterKeys);
      ghost var sofar := out;
      Place(before, after, beforeKeys, afterKeys, live);
      RegroupFour(old(out), sofar[|old(out)|..], out[|sofar|..], []);
    }

    // Removes every child that does not survive; `live` is the list as the host then has it.
    method RemoveGone(before: seq<Nodes.Node>, after: seq<Nodes.Node>, beforeKeys: map<Texts.Text, nat>,
            afterKeys: map<Texts.Text, nat>)
      returns (live: seq<nat>)
      requires Indexes(beforeKeys, before) && Indexes(afterKeys, after)
      modifies this
      ensures path == old(path)
      ensures live == Live(Survivors(before, after), |before|)
      ensures out == old(out) + Under(path, Removals(Survivors(before, after), |before|))
    {
      hide *;
      ghost var stays := Survivors(before, after);
      RemovalsNone(stays, path);
      live := [];
      var index: nat := 0;
      while index < |before|
        invariant index <= |before|
        invariant path == old(path)
        invariant live == Live(stays, index)
        invariant out == old(out) + Under(path, Removals(stays, index))
      {
        var key := before[index].key;
        var survives := key.Some? && key.value in beforeKeys && key.value in afterKeys;
        LookupSurvives(before, after, index, beforeKeys, afterKeys);
        RemovalsNext(stays, index);
        UnderRemovals(stays, index, path);
        if survives {
          live := live + [index];
        } else {
          out := out + [Patch(path, Remove(|live|))];
        }
        index := index + 1;
      }
    }

    method Place(before: seq<Nodes.Node>, after: seq<Nodes.Node>, beforeKeys: map<Texts.Text, nat>,
            afterKeys: map<Texts.Text, nat>, first: seq<nat>)
      requires Indexes(beforeKeys, before) && Indexes(afterKeys, after)
      requires Ready(Matches(before, after), |before|, 0, first)
      modifies this
      ensures path == old(path)
      ensures out == old(out) + Under(path, Placements(before, after, Matches(before, after), 0, first))
      decreases before, 0, 2
    {
      ghost var wanted := Matches(before, after);
      ghost var goal := old(out) + Under(path, Placements(before, after, wanted, 0, first));
      // Old indices, and |before| for a child that was just inserted.
      var live := first;
      var index: nat := 0;
      while index < |after|
        invariant index <= |after| && index <= |live|
        invariant path == old(path)
        invariant Ready(wanted, |before|, index, live[index..])
        invariant out + Under(path, Placements(before, after, wanted, index, live[index..])) == goal
      {
        live := PlaceNext(before, after, beforeKeys, afterKeys, live, index);
        index := index + 1;
      }
    }

    method PlaceNext(before: seq<Nodes.Node>, after: seq<Nodes.Node>, beforeKeys: map<Texts.Text, nat>,
            afterKeys: map<Texts.Text, nat>, first: seq<nat>, index: nat)
      returns (live: seq<nat>)
      requires Indexes(beforeKeys, before) && Indexes(afterKeys, after)
      requires index < |after| && index <= |first| && Ready(Matches(before, after), |before|, index, first[index..])
      modifies this
      ensures path == old(path)
      ensures index < |live| && Ready(Matches(before, after), |before|, index + 1, live[index + 1..])
      ensures out + Under(path, Placements(before, after, Matches(before, after), index + 1, live[index + 1..]))
           == old(out) + Under(path, Placements(before, after, Matches(before, after), index, first[index..]))
      decreases before, 0, 1
    {
      hide *;
      var key := after[index].key;
      var found := key.Some? && key.value in afterKeys && key.value in beforeKeys;
      LookupMatch(before, after, index, beforeKeys, afterKeys);
      ghost var wanted, rest := Matches(before, after), first[index..];
      if !found {
        PlacementsInsert(before, after, wanted, index, rest);
        ghost var tail := Placements(before, after, wanted, index + 1, rest);
        live := Add(after[index], first, index, |before|);
        StepInsert(path, index, after[index], tail);
        RegroupFour(old(out), [], [Patch(path, Insert(index, after[index]))], Under(path, tail));
      } else {
        var was := beforeKeys[key.value];
        PlacementsKeep(before, after, wanted, index, rest);
        ghost var at := IndexOf(rest, was);
        ghost var tail := Placements(before, after, wanted, index + 1, RemoveAt<nat>(rest, at));
        ghost var below := DiffNode(before[was], after[index]);
        live := Keep(before, after, first, index, was);
        StepMove(path, at, index, below, tail);
        RegroupFour(old(out), Under(path, MoveUp(at, index)), Under(path + [index], below), Under(path, tail));
      }
    }

    // Inserts a child no old child becomes; `mark` is no old index.
    method Add(child: Nodes.Node, first: seq<nat>, index: nat, mark: nat) returns (live: seq<nat>)
      requires index <= |first|
      modifies this
      ensures path == old(path)
      ensures index < |live| && live[index + 1..] == first[index..]
      ensures out == old(out) + [Patch(path, Insert(index, child))]
    {
      out := out + [Patch(path, Insert(index, child))];
      live := InsertAt<nat>(first, index, mark);
      InsertLive(first, index, mark);
    }

    // Brings a surviving child to `index` and edits it there.
    method Keep(before: seq<Nodes.Node>, after: seq<Nodes.Node>, first: seq<nat>, index: nat, was: nat)
      returns (live: seq<nat>)
      requires index < |after| && was < |before| && index <= |first| && was in first[index..]
      modifies this
      ensures path == old(path)
      ensures var at := IndexOf(first[index..], was);
        && index < |live| && live[index + 1..] == RemoveAt<nat>(first[index..], at)
        && out == old(out) + Under(path, MoveUp(at, index)) + Under(path + [index], DiffNode(before[was], after[index]))
      decreases before, 0, 0
    {
      hide *;
      live := first;
      var at := Position(live, index, was);
      MoveLive(live, index, at);
      UnderMove(path, at - index, index);
      if at != index {
        out := out + [Patch(path, Move(at, index))];
        live := InsertAt<nat>(RemoveAt<nat>(live, at), index, was);
      }
      ghost var here := path;
      path := path + [index];
      Node(before[was], after[index]);
      path := path[..|path| - 1];
      assert path == here;
    }
  }

  lemma RegroupFour<T>(a: seq<T>, b: seq<T>, c: seq<T>, d: seq<T>)
    ensures a + b + c + d == a + (b + c + d)
  {
  }

  lemma InsertLive(live: seq<nat>, index: nat, mark: nat)
    requires index <= |live|
    ensures InsertAt<nat>(live, index, mark)[index + 1..] == live[index..]
  {
  }

  lemma MoveLive(live: seq<nat>, index: nat, at: nat)
    requires index <= at < |live|
    ensures var moved := if at != index then InsertAt<nat>(RemoveAt<nat>(live, at), index, live[at]) else live;
            moved[index + 1..] == RemoveAt<nat>(live[index..], at - index)
  {
  }

  // The position of a surviving child among those not placed yet.
  method Position(live: seq<nat>, index: nat, w: nat) returns (at: nat)
    requires index <= |live| && w in live[index..]
    ensures index <= at < |live| && live[at] == w && at - index == IndexOf(live[index..], w)
  {
    at := index;
    while live[at] != w
      decreases |live| - at
      invariant index <= at < |live| && w !in live[index..at]
    {
      assert w in live[at + 1..];
      at := at + 1;
    }
    FirstIndex(live[index..], w, at - index);
  }

  lemma {:induction false} FirstIndex(rest: seq<nat>, w: nat, at: nat)
    requires at < |rest| && rest[at] == w && w !in rest[..at]
    ensures IndexOf(rest, w) == at
  {
    if at > 0 {
      assert rest[..at][0] == rest[0] && rest[..at][1..] == rest[1..][..at - 1];
      FirstIndex(rest[1..], w, at - 1);
    }
  }

  // What the index built so far says of one key: absent, at one place, or at several.
  ghost predicate Tallied(nodes: seq<Nodes.Node>, upto: nat, k: Texts.Text, tally: Option<nat>)
    requires upto <= |nodes|
  {
    match tally
    case None => forall i :: 0 <= i < upto ==> nodes[i].key != Some(k)
    case Some(at) =>
      if at < |nodes| then
        at < upto && nodes[at].key == Some(k) && forall i :: 0 <= i < upto && i != at ==> nodes[i].key != Some(k)
      else
        at == |nodes| && exists i, j :: 0 <= i < j < upto && nodes[i].key == Some(k) == nodes[j].key
  }

  ghost function Tally(seen: map<Texts.Text, nat>, k: Texts.Text): Option<nat> {
    if k in seen then Some(seen[k]) else None
  }

  // The keys one child alone carries, each with that child's index.
  ghost predicate Indexes(keys: map<Texts.Text, nat>, nodes: seq<Nodes.Node>) {
    forall k :: Tally(keys, k) == SoleIndex(nodes, Some(k))
  }

  lemma LookupSurvives(before: seq<Nodes.Node>, after: seq<Nodes.Node>, i: nat, beforeKeys: map<Texts.Text, nat>,
          afterKeys: map<Texts.Text, nat>)
    requires i < |before| && Indexes(beforeKeys, before) && Indexes(afterKeys, after)
    ensures var key := before[i].key;
            Survives(before, after, i) == (key.Some? && key.value in beforeKeys && key.value in afterKeys)
  {
    if before[i].key.Some? {
      var k := before[i].key.value;
      assert Tally(beforeKeys, k) == SoleIndex(before, Some(k)) && Tally(afterKeys, k) == SoleIndex(after, Some(k));
    }
  }

  lemma LookupMatch(before: seq<Nodes.Node>, after: seq<Nodes.Node>, j: nat, beforeKeys: map<Texts.Text, nat>,
          afterKeys: map<Texts.Text, nat>)
    requires j < |after| && Indexes(beforeKeys, before) && Indexes(afterKeys, after)
    ensures var key := after[j].key;
            Match(before, after, j) ==
              if key.Some? && key.value in afterKeys
                  && key.value in beforeKeys then Some(beforeKeys[key.value]) else None
  {
    if after[j].key.Some? {
      var k := after[j].key.value;
      assert Tally(beforeKeys, k) == SoleIndex(before, Some(k)) && Tally(afterKeys, k) == SoleIndex(after, Some(k));
    }
  }

  // The keys one child alone carries, each with that child's index.
  method Unique(nodes: seq<Nodes.Node>) returns (keys: map<Texts.Text, nat>)
    ensures Indexes(keys, nodes)
  {
    var many := |nodes|;  // the mark of a key seen twice: no index
    var seen: map<Texts.Text, nat> := map[];
    var index: nat := 0;
    while index < |nodes|
      invariant index <= |nodes|
      invariant forall k :: Tallied(nodes, index, k, Tally(seen, k))
    {
      ghost var was := seen;
      if nodes[index].key.Some? {
        var key := nodes[index].key.value;
        seen := seen[key := if key in seen then many else index];
      }
      forall k
        ensures Tallied(nodes, index + 1, k, Tally(seen, k))
      {
        assert Tallied(nodes, index, k, Tally(was, k));
        TallyStep(nodes, index, k, Tally(was, k));
      }
      index := index + 1;
    }
    keys := map k | k in seen && seen[k] != many :: seen[k];
    forall k
      ensures Tally(keys, k) == SoleIndex(nodes, Some(k))
    {
      assert Tallied(nodes, |nodes|, k, Tally(seen, k));
      TallyEnd(nodes, k, Tally(seen, k));
    }
  }

  lemma TallyStep(nodes: seq<Nodes.Node>, index: nat, k: Texts.Text, tally: Option<nat>)
    requires index < |nodes| && Tallied(nodes, index, k, tally)
    ensures Tallied(nodes, index + 1, k,
              if nodes[index].key != Some(k) then tally else if tally.Some? then Some(|nodes|) else Some(index))
  {
  }

  lemma TallyEnd(nodes: seq<Nodes.Node>, k: Texts.Text, tally: Option<nat>)
    requires Tallied(nodes, |nodes|, k, tally)
    ensures SoleIndex(nodes, Some(k)) == if tally.Some? && tally.value < |nodes| then tally else None
  {
    if tally.Some? && tally.value < |nodes| {
      assert SoleKey(nodes, tally.value);
    }
  }

  lemma UnderOne(here: seq<nat>, edit: Edit)
    ensures Under(here, [Patch([], edit)]) == [Patch(here, edit)]
  {
    assert here + [] == here;
  }

  lemma StepOut(here: seq<nat>, i: nat, below: seq<Patch>, tail: seq<Patch>)
    ensures Under(here, Under([i], below) + tail) == Under(here + [i], below) + Under(here, tail)
  {
    UnderConcat(here, Under([i], below), tail);
    UnderUnder(here, [i], below);
  }

  lemma UnderNode(here: seq<nat>, before: Nodes.Node, after: Nodes.Node)
    ensures Under(here, DiffNode(before, after))
         == if before == after then []
            else if before.kind != after.kind || !(HoldsList(after.kind) || |before.children| == |after.children|) then
              [Patch(here, Replace(after))]
            else
              (if Detached(before) == Detached(after) then [] else [Patch(here, Props(Detached(after)))])
              + if HoldsList(before.kind) then Under(here, DiffList(before.children, after.children))
                else
                  assert |before.children| == |after.children|;
                  Under(here, DiffInPlace(before.children, after.children, 0))
  {
    if before == after { return; }
    if before.kind != after.kind || !SameArity(before, after) {
      UnderOne(here, Replace(after));
      return;
    }
    if Detached(before) != Detached(after) { UnderOne(here, Props(Detached(after))); }
    UnderConcat(here, OwnFields(before, after),
      if HoldsList(before.kind) then DiffList(before.children, after.children)
      else DiffInPlace(before.children, after.children, 0));
  }

  lemma UnderInPlace(here: seq<nat>, before: seq<Nodes.Node>, after: seq<Nodes.Node>, i: nat)
    requires |before| == |after| && i <= |before|
    ensures Under(here, DiffInPlace(before, after, i))
         == if i == |before| then []
            else Under(here + [i], DiffNode(before[i], after[i])) + Under(here, DiffInPlace(before, after, i + 1))
  {
    if i < |before| {
      StepOut(here, i, DiffNode(before[i], after[i]), DiffInPlace(before, after, i + 1));
    }
  }

  lemma UnderMove(here: seq<nat>, at: nat, index: nat)
    ensures Under(here, MoveUp(at, index)) == if at == 0 then [] else [Patch(here, Move(index + at, index))]
  {
    if at != 0 { UnderOne(here, Move(index + at, index)); }
  }

  lemma RemovalsNone(stays: seq<bool>, here: seq<nat>)
    ensures Live(stays, 0) == [] && Under(here, Removals(stays, 0)) == []
  {
  }

  lemma UnderRemovals(stays: seq<bool>, i: nat, here: seq<nat>)
    requires i < |stays|
    ensures Under(here, Removals(stays, i + 1)) == Under(here, Removals(stays, i))
         + if stays[i] then [] else [Patch(here, Remove(|Live(stays, i)|))]
  {
    RemovalsNext(stays, i);
    if !stays[i] {
      UnderConcat(here, Removals(stays, i), [Patch([], Remove(|Live(stays, i)|))]);
      UnderOne(here, Remove(|Live(stays, i)|));
    }
  }

  lemma StepInsert(here: seq<nat>, index: nat, node: Nodes.Node, tail: seq<Patch>)
    ensures Under(here, [Patch([], Insert(index, node))] + tail) == [Patch(here, Insert(index, node))]
        + Under(here, tail)
  {
    UnderConcat(here, [Patch([], Insert(index, node))], tail);
    UnderOne(here, Insert(index, node));
  }

  lemma StepMove(here: seq<nat>, at: nat, index: nat, below: seq<Patch>, tail: seq<Patch>)
    ensures Under(here, MoveUp(at, index) + Under([index], below) + tail)
         == Under(here, MoveUp(at, index)) + Under(here + [index], below) + Under(here, tail)
  {
    var move := MoveUp(at, index);
    assert move + Under([index], below) + tail == move + (Under([index], below) + tail);
    UnderConcat(here, move, Under([index], below) + tail);
    StepOut(here, index, below, tail);
  }

  // `diff`: the patches that turn `before` into `after`.
  method Diff(before: Nodes.Node, after: Nodes.Node) returns (patches: seq<Patch>)
    ensures patches == DiffNode(before, after)
    ensures Replay(before, patches) == Outcome(after, Done)
    ensures |patches| < Count(before) + Count(after)
  {
    var differ := new Differ();
    differ.Node(before, after);
    patches := differ.out;
    UnderNothing(DiffNode(before, after));
    DiffReplays(before, after);
    DiffBound(before, after);
  }
}
