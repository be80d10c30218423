// What a diff spends. Which old child each place of a list holds is followed through the patches:
// a child whose key is the only one of its name on both sides is never removed and inserted afresh,
// exactly the others are removed, and children move exactly when the survivors change their order.
// Over whole trees, a diff is as long as the nodes it edits plus the removals and moves.
module DiffEconomy {
  import opened Wrappers
  import Texts
  import opened Nodes
  import opened Patches
  import opened Diffing
  import opened DiffReplay

  // ---- where every old child ends up ---------------------------------------------------------------

  // Which old child each place of the list holds, None for a node inserted on the way.
  type Places = seq<Option<nat>>

  function Follow(places: Places, p: Patch): Places {
    if p.path != [] then places
    else
      match p.edit
      case Insert(index, _) => if index <= |places| then InsertAt(places, index, None) else places
      case Remove(index) => if index < |places| then RemoveAt(places, index) else places
      case Move(from, to) =>
        if from < |places| && to < |places| then InsertAt(RemoveAt(places, from), to, places[from]) else places
      case _ => places
  }

  function FollowAll(places: Places, patches: seq<Patch>): Places
    decreases |patches|
  {
    if patches == [] then places else FollowAll(Follow(places, patches[0]), patches[1..])
  }

  function Known(indices: seq<nat>): Places {
    seq(|indices|, k requires 0 <= k < |indices| => Some(indices[k]))
  }

  function Upto(n: nat): seq<nat> {
    seq(n, k => k)
  }

  lemma {:induction false} FollowConcat(places: Places, a: seq<Patch>, b: seq<Patch>)
    ensures FollowAll(places, a + b) == FollowAll(FollowAll(places, a), b)
    decreases |a|
  {
    if a == [] {
      assert a + b == b;
    } else {
      assert (a + b)[1..] == a[1..] + b;
      FollowConcat(Follow(places, a[0]), a[1..], b);
    }
  }

  lemma {:induction false} FollowBelow(places: Places, i: nat, patches: seq<Patch>)
    ensures FollowAll(places, Under([i], patches)) == places
  {
    if patches != [] { FollowBelow(places, i, patches[1..]); }
  }

  lemma FollowOne(places: Places, p: Patch)
    ensures FollowAll(places, [p]) == Follow(places, p)
  {
    assert [p][1..] == [];
  }

  // After the whole diff of a list, every place holds exactly the old child the new child there is
  // matched with, and fresh nodes where there is none; lists matched by position stay as they are.
  lemma {:induction false} EveryChildIsFollowed(before: seq<Node>, after: seq<Node>)
    ensures FollowAll(Known(Upto(|before|)), DiffList(before, after))
         == if Positional(before, after) then Known(Upto(|before|)) else Matches(before, after)
  {
    hide Matches, Removals, Placements, Known, FollowAll, Survives;
    if Positional(before, after) {
      InPlaceFollowed(Known(Upto(|before|)), before, after, 0);
    } else {
      var stays, wanted := Survivors(before, after), Matches(before, after);
      var live := Live(stays, |before|);
      MatchingIsReady(before, after);
      LiveIs(stays, |before|);
      SurvivorsAreCovered(before, after);
      RemovalsFollowed(stays, |before|);
      FollowConcat(Known(Upto(|before|)), Removals(stays, |before|), Placements(before, after, wanted, 0, live));
      assert Known(live) + Known(Upto(|before|))[|before|..] == wanted[..0] + Known(live) by { KnownLength(before); }
      PlacementsFollowed(before, after, wanted, 0, live);
    }
  }

  lemma KnownLength(before: seq<Node>)
    ensures |Known(Upto(|before|))| == |before|
  {
  }

  // So the old children the patches take out are exactly those that do not survive.
  lemma RemovedAreTheGone(before: seq<Node>, after: seq<Node>, i: nat)
    requires i < |before|
    ensures Some(i) !in FollowAll(Known(Upto(|before|)), DiffList(before, after))
       <==> !Positional(before, after) && !Survives(before, after, i)
  {
    hide FollowAll, DiffList, Survives, Match;
    EveryChildIsFollowed(before, after);
    if Positional(before, after) {
      assert Known(Upto(|before|))[i] == Some(i);
    } else {
      if Survives(before, after, i) {
        var j := SurvivorIsMatched(before, after, i);
        assert Matches(before, after)[j] == Some(i);
      }
      if Some(i) in Matches(before, after) {
        var j: nat :| j < |after| && Matches(before, after)[j] == Some(i);
        MatchIs(before, after, j);
      }
    }
  }

  lemma SurvivorsAreCovered(before: seq<Node>, after: seq<Node>)
    ensures Covered(Matches(before, after), 0, Live(Survivors(before, after), |before|))
  {
    var stays := Survivors(before, after);
    LiveIs(stays, |before|);
    forall r | r in Live(stays, |before|)
      ensures exists j :: 0 <= j < |after| && Matches(before, after)[j] == Some(r)
    {
      var j := SurvivorIsMatched(before, after, r);
      assert Matches(before, after)[j] == Some(r);
    }
  }

  lemma {:induction false} InPlaceFollowed(places: Places, before: seq<Node>, after: seq<Node>, i: nat)
    requires |before| == |after| && i <= |before|
    ensures FollowAll(places, DiffInPlace(before, after, i)) == places
    decreases |before| - i
  {
    if i < |before| {
      FollowBelow(places, i, DiffNode(before[i], after[i]));
      InPlaceFollowed(places, before, after, i + 1);
      FollowConcat(places, Under([i], DiffNode(before[i], after[i])), DiffInPlace(before, after, i + 1));
    }
  }

  lemma {:induction false} RemovalsFollowed(stays: seq<bool>, upto: nat)
    requires upto <= |stays|
    ensures |Known(Upto(|stays|))| == |stays|
    ensures FollowAll(Known(Upto(|stays|)), Removals(stays, upto))
         == Known(Live(stays, upto)) + Known(Upto(|stays|))[upto..]
  {
    hide *;
    var all := Known(Upto(|stays|));
    if upto == 0 {
      RemovalsStart(stays);
    } else {
      RemovalsFollowed(stays, upto - 1);
      RemovalsNext(stays, upto - 1);
      var live := Live(stays, upto - 1);
      KnownMore(live, upto - 1, |stays|);
      if stays[upto - 1] {
        assert Known(live) + ([Some(upto - 1)] + all[upto..]) == Known(live) + [Some(upto - 1)] + all[upto..];
      } else {
        FollowConcat(all, Removals(stays, upto - 1), [Patch([], Remove(|live|))]);
        FollowOneRemove(Known(live), Some(upto - 1), all[upto..]);
      }
    }
  }

  lemma RemovalsStart(stays: seq<bool>)
    ensures |Known(Upto(|stays|))| == |stays|
    ensures FollowAll(Known(Upto(|stays|)), Removals(stays, 0))
         == Known(Live(stays, 0)) + Known(Upto(|stays|))[0..]
  {
    assert Known(Live(stays, 0)) + Known(Upto(|stays|))[0..] == Known(Upto(|stays|));
  }

  lemma KnownMore(live: seq<nat>, i: nat, n: nat)
    requires i < n
    ensures |Known(live)| == |live| && Known(live + [i]) == Known(live) + [Some(i)]
    ensures |Known(Upto(n))| == n && Known(Upto(n))[i..] == [Some(i)] + Known(Upto(n))[i + 1..]
  {
  }

  lemma {:induction false} PlacementsFollowed(before: seq<Node>, after: seq<Node>, wanted: Places, index: nat,
      rest: seq<nat>)
    requires index <= |after| == |wanted|
    requires Ready(wanted, |before|, index, rest) && Covered(wanted, index, rest) && Distinct(rest)
    ensures FollowAll(wanted[..index] + Known(rest), Placements(before, after, wanted, index, rest)) == wanted
    decreases |after| - index
  {
    hide Ready, Covered, Distinct, Known, FollowAll, IndexOf, Placements;
    var places := wanted[..index] + Known(rest);
    if index == |after| {
      NothingLeft(before, after, wanted, rest);
    } else if wanted[index].None? {
      var p := Patch([], Insert(index, after[index]));
      PlacementsInsert(before, after, wanted, index, rest);
      CoveredPast(wanted, index, rest);
      FollowConcat(places, [p], Placements(before, after, wanted, index + 1, rest));
      FollowOne(places, p);
      InsertMiddle(wanted[..index], None, Known(rest));
      assert wanted[..index + 1] == wanted[..index] + [None];
      PlacementsFollowed(before, after, wanted, index + 1, rest);
    } else {
      var w := wanted[index].value;
      PlacementsKeep(before, after, wanted, index, rest);
      CoveredAfter(wanted, index, rest);
      var at := IndexOf(rest, w);
      var left := RemoveAt<nat>(rest, at);
      var below := Under([index], DiffNode(before[w], after[index]));
      FollowConcat(places, MoveUp(at, index) + below, Placements(before, after, wanted, index + 1, left));
      FollowConcat(places, MoveUp(at, index), below);
      FollowMove(wanted[..index], rest, at);
      assert wanted[..index + 1] == wanted[..index] + [Some(w)];
      FollowBelow(wanted[..index + 1] + Known(left), index, DiffNode(before[w], after[index]));
      PlacementsFollowed(before, after, wanted, index + 1, left);
    }
  }

  lemma NothingLeft(before: seq<Node>, after: seq<Node>, wanted: Places, rest: seq<nat>)
    requires |after| == |wanted| && Ready(wanted, |before|, |after|, rest) && Covered(wanted, |after|, rest)
    ensures rest == [] && Placements(before, after, wanted, |after|, rest) == []
    ensures FollowAll(wanted[..|after|] + Known(rest), []) == wanted
  {
    if rest != [] { CoveredBySomeone(wanted, |after|, rest); }
  }

  lemma CoveredPast(wanted: Places, index: nat, rest: seq<nat>)
    requires index < |wanted| && wanted[index].None? && Covered(wanted, index, rest)
    ensures Covered(wanted, index + 1, rest)
  {
    forall r | r in rest
      ensures exists j :: index + 1 <= j < |wanted| && wanted[j] == Some(r)
    {
      var j :| index <= j < |wanted| && wanted[j] == Some(r);
      assert j != index;
    }
  }

  lemma FollowMove(placed: Places, rest: seq<nat>, at: nat)
    requires at < |rest|
    ensures FollowAll(placed + Known(rest), MoveUp(at, |placed|))
         == placed + [Some(rest[at])] + Known(RemoveAt<nat>(rest, at))
  {
    hide *;
    KnownWithout(rest, at);
    if at == 0 {
      FirstStays(placed, Known(rest), Some(rest[0]));
    } else {
      MoveMiddle(placed, Known(rest), at, Some(rest[at]));
    }
  }

  lemma FollowOneRemove(a: Places, x: Option<nat>, b: Places)
    ensures FollowAll(a + ([x] + b), [Patch([], Remove(|a|))]) == a + b
  {
    FollowOne(a + ([x] + b), Patch([], Remove(|a|)));
    assert RemoveAt(a + ([x] + b), |a|) == a + b;
  }

  lemma KnownWithout(rest: seq<nat>, at: nat)
    requires at < |rest|
    ensures |Known(rest)| == |rest| && Known(rest)[at] == Some(rest[at])
    ensures Known(RemoveAt<nat>(rest, at)) == RemoveAt(Known(rest), at)
  {
  }

  lemma FirstStays(a: Places, b: Places, x: Option<nat>)
    requires b != [] && b[0] == x
    ensures FollowAll(a + b, MoveUp(0, |a|)) == a + [x] + RemoveAt(b, 0)
  {
    assert a + b == a + [x] + RemoveAt(b, 0);
  }

  lemma MoveMiddle(a: Places, b: Places, at: nat, x: Option<nat>)
    requires 0 < at < |b| && b[at] == x
    ensures FollowAll(a + b, MoveUp(at, |a|)) == a + [x] + RemoveAt(b, at)
  {
    hide *;
    FollowUp(a + b, at, |a|, x);
    RemoveBehind(a, b, at);
    InsertMiddle(a, x, RemoveAt(b, at));
  }

  lemma FollowUp(places: Places, at: nat, index: nat, x: Option<nat>)
    requires 0 < at && index + at < |places| && places[index + at] == x
    ensures FollowAll(places, MoveUp(at, index)) == InsertAt(RemoveAt(places, index + at), index, x)
  {
    hide *;
    MoveUpIs(at, index);
    FollowOne(places, Patch([], Move(index + at, index)));
    FollowIsMove(places, index + at, index);
  }

  lemma MoveUpIs(at: nat, index: nat)
    requires at > 0
    ensures MoveUp(at, index) == [Patch([], Move(index + at, index))]
  {
  }

  lemma FollowIsMove(places: Places, from: nat, to: nat)
    requires to < from < |places|
    ensures Follow(places, Patch([], Move(from, to))) == InsertAt(RemoveAt(places, from), to, places[from])
  {
    hide InsertAt, RemoveAt;
  }

  lemma RemoveBehind(a: Places, b: Places, at: nat)
    requires at < |b|
    ensures RemoveAt(a + b, |a| + at) == a + RemoveAt(b, at)
  {
  }

  // ---- what a list inserts, removes and moves ------------------------------------------------------

  // The nodes inserted into the list at hand itself, in order.
  function Inserted(patches: seq<Patch>): seq<Node> {
    if patches == [] then []
    else
      (if patches[0].path == [] && patches[0].edit.Insert? then [patches[0].edit.node] else [])
      + Inserted(patches[1..])
  }

  // How many children of the list at hand itself are removed, and how many moved.
  function Removed(patches: seq<Patch>): nat {
    if patches == [] then 0
    else (if patches[0].path == [] && patches[0].edit.Remove? then 1 else 0) + Removed(patches[1..])
  }

  function Moved(patches: seq<Patch>): nat {
    if patches == [] then 0
    else (if patches[0].path == [] && patches[0].edit.Move? then 1 else 0) + Moved(patches[1..])
  }

  // The new children from `index` on that no old child becomes.
  function Fresh(before: seq<Node>, after: seq<Node>, index: nat): seq<Node>
    requires index <= |after|
    decreases |after| - index
  {
    if index == |after| then []
    else (if Match(before, after, index).None? then [after[index]] else []) + Fresh(before, after, index + 1)
  }

  function Gone(before: seq<Node>, after: seq<Node>, upto: nat): nat
    requires upto <= |before|
  {
    if upto == 0 then 0
    else Gone(before, after, upto - 1) + if Survives(before, after, upto - 1) then 0 else 1
  }

  // The old children the new list takes up from `index` on, in its order.
  function TakenUp(wanted: Places, index: nat): seq<nat>
    requires index <= |wanted|
    decreases |wanted| - index
  {
    if index == |wanted| then []
    else (if wanted[index].Some? then [wanted[index].value] else []) + TakenUp(wanted, index + 1)
  }

  lemma {:induction false} Concat(a: seq<Patch>, b: seq<Patch>)
    ensures Inserted(a + b) == Inserted(a) + Inserted(b)
    ensures Removed(a + b) == Removed(a) + Removed(b) && Moved(a + b) == Moved(a) + Moved(b)
  {
    if a == [] {
      assert a + b == b;
    } else {
      assert (a + b)[1..] == a[1..] + b;
      Concat(a[1..], b);
    }
  }

  lemma {:induction false} NothingBelow(i: nat, patches: seq<Patch>)
    ensures Inserted(Under([i], patches)) == []
    ensures Removed(Under([i], patches)) == 0 && Moved(Under([i], patches)) == 0
  {
    if patches != [] { NothingBelow(i, patches[1..]); }
  }

  lemma OnlyMoved(at: nat, index: nat)
    ensures Inserted(MoveUp(at, index)) == [] && Removed(MoveUp(at, index)) == 0
    ensures Moved(MoveUp(at, index)) == if at == 0 then 0 else 1
  {
    if at != 0 {
      assert MoveUp(at, index)[1..] == [];
    }
  }

  lemma OnlyInserted(index: nat, node: Node)
    ensures var one := [Patch([], Insert(index, node))]; Inserted(one) == [node] && Removed(one) == Moved(one) == 0
  {
    assert [Patch([], Insert(index, node))][1..] == [];
  }

  // The diff of two lists inserts exactly the children that are new, in order, removes exactly as
  // many as are gone, and moves none exactly when the survivors come in the order they had; lists
  // that match by position insert, remove and move nothing.
  lemma {:induction false} ListEconomy(before: seq<Node>, after: seq<Node>)
    ensures var positional := Positional(before, after);
            && Inserted(DiffList(before, after)) == (if positional then [] else Fresh(before, after, 0))
            && Removed(DiffList(before, after)) == if positional then 0 else Gone(before, after, |before|)
    ensures Moved(DiffList(before, after)) == 0
       <==> Positional(before, after)
            || TakenUp(Matches(before, after), 0) == Live(Survivors(before, after), |before|)
  {
    hide Matches, Removals, Placements, Inserted, Removed, Moved, Survives, Fresh, Gone, TakenUp;
    if Positional(before, after) {
      InPlaceEconomy(before, after, 0);
    } else {
      var stays, wanted := Survivors(before, after), Matches(before, after);
      MatchingIsReady(before, after);
      SurvivorsAreCovered(before, after);
      LiveIs(stays, |before|);
      RemovalsEconomy(before, after, |before|);
      PlacementsEconomy(before, after, 0, Live(stays, |before|));
      Concat(Removals(stays, |before|), Placements(before, after, wanted, 0, Live(stays, |before|)));
    }
  }

  lemma {:induction false} InPlaceEconomy(before: seq<Node>, after: seq<Node>, i: nat)
    requires |before| == |after| && i <= |before|
    ensures Inserted(DiffInPlace(before, after, i)) == []
    ensures Removed(DiffInPlace(before, after, i)) == 0 && Moved(DiffInPlace(before, after, i)) == 0
    decreases |before| - i
  {
    if i < |before| {
      NothingBelow(i, DiffNode(before[i], after[i]));
      InPlaceEconomy(before, after, i + 1);
      Concat(Under([i], DiffNode(before[i], after[i])), DiffInPlace(before, after, i + 1));
    }
  }

  lemma {:induction false} RemovalsEconomy(before: seq<Node>, after: seq<Node>, upto: nat)
    requires upto <= |before|
    ensures var removals := Removals(Survivors(before, after), upto);
            Inserted(removals) == [] && Removed(removals) == Gone(before, after, upto) && Moved(removals) == 0
  {
    hide *;
    var stays := Survivors(before, after);
    NothingSpent();
    GoneNext(before, after, upto);
    if upto == 0 {
      NoRemovals(stays);
    } else {
      RemovalsEconomy(before, after, upto - 1);
      RemovalsNext(stays, upto - 1);
      if !stays[upto - 1] {
        var at := |Live(stays, upto - 1)|;
        OnlyRemoved(at);
        Concat(Removals(stays, upto - 1), [Patch([], Remove(at))]);
      }
    }
  }

  lemma NoRemovals(stays: seq<bool>)
    ensures Removals(stays, 0) == []
  {
  }

  lemma GoneNext(before: seq<Node>, after: seq<Node>, upto: nat)
    requires upto <= |before|
    ensures Gone(before, after, upto)
         == if upto == 0 then 0
            else Gone(before, after, upto - 1) + if Survives(before, after, upto - 1) then 0 else 1
  {
  }

  lemma OnlyRemoved(at: nat)
    ensures var one := [Patch([], Remove(at))]; Inserted(one) == [] && Removed(one) == 1 && Moved(one) == 0
  {
    assert [Patch([], Remove(at))][1..] == [];
  }

  lemma {:induction false} PlacementsEconomy(before: seq<Node>, after: seq<Node>, index: nat, rest: seq<nat>)
    requires index <= |after| && Ready(Matches(before, after), |before|, index, rest)
    requires Covered(Matches(before, after), index, rest) && Distinct(rest)
    ensures var placements := Placements(before, after, Matches(before, after), index, rest);
            && Inserted(placements) == Fresh(before, after, index) && Removed(placements) == 0
            && (Moved(placements) == 0 <==> TakenUp(Matches(before, after), index) == rest)
    decreases |after| - index
  {
    hide *;
    var wanted := Matches(before, after);
    Upcoming(before, after, index);
    if index == |after| {
      NothingLeft(before, after, wanted, rest);
      NothingSpent();
    } else if wanted[index].None? {
      PlacementsInsert(before, after, wanted, index, rest);
      CoveredPast(wanted, index, rest);
      PlacementsEconomy(before, after, index + 1, rest);
      OnlyInserted(index, after[index]);
      Concat([Patch([], Insert(index, after[index]))], Placements(before, after, wanted, index + 1, rest));
    } else {
      var w := wanted[index].value;
      PlacementsKeep(before, after, wanted, index, rest);
      CoveredAfter(wanted, index, rest);
      var at := IndexOf(rest, w);
      var left := RemoveAt<nat>(rest, at);
      PlacementsEconomy(before, after, index + 1, left);
      var below := DiffNode(before[w], after[index]);
      var tail := Placements(before, after, wanted, index + 1, left);
      NothingBelow(index, below);
      OnlyMoved(at, index);
      Concat(MoveUp(at, index), Under([index], below));
      Concat(MoveUp(at, index) + Under([index], below), tail);
      NextInOrder(rest, at, TakenUp(wanted, index + 1));
    }
  }

  lemma NothingSpent()
    ensures Inserted([]) == [] && Removed([]) == 0 && Moved([]) == 0
  {
  }

  lemma Upcoming(before: seq<Node>, after: seq<Node>, index: nat)
    requires index <= |after|
    ensures var wanted := Matches(before, after);
            if index == |after| then Fresh(before, after, index) == [] && TakenUp(wanted, index) == []
            else if wanted[index].None? then
              && Fresh(before, after, index) == [after[index]] + Fresh(before, after, index + 1)
              && TakenUp(wanted, index) == TakenUp(wanted, index + 1)
            else
              && Fresh(before, after, index) == Fresh(before, after, index + 1)
              && TakenUp(wanted, index) == [wanted[index].value] + TakenUp(wanted, index + 1)
  {
    hide Match;
  }

  lemma NextInOrder(rest: seq<nat>, at: nat, later: seq<nat>)
    requires at < |rest| && rest[at] !in rest[..at]
    ensures [rest[at]] + later == rest <==> at == 0 && later == RemoveAt<nat>(rest, at)
  {
    if at == 0 {
      assert rest == [rest[0]] + rest[1..];
      assert ([rest[at]] + later)[1..] == later;
      assert RemoveAt<nat>(rest, 0) == rest[1..];
    } else {
      assert ([rest[at]] + later)[0] == rest[at] && rest[..at][0] == rest[0];
    }
  }

  // ---- how long a diff is exactly ------------------------------------------------------------------

  // How many patches, at any depth, take a child out of its list or move it within.
  function Shifts(patches: seq<Patch>): nat {
    if patches == [] then 0
    else (if patches[0].edit.Remove? || patches[0].edit.Move? then 1 else 0) + Shifts(patches[1..])
  }

  // How many nodes of the new tree no patch writes: all of them where the trees agree, all but the
  // root of a subtree put in whole, and otherwise those whose own fields stay.
  function Unwritten(before: Node, after: Node): nat
    decreases before, 2
  {
    if before == after then Count(after)
    else if before.kind != after.kind || !SameArity(before, after) then Count(after) - 1
    else
      (if Detached(before) == Detached(after) then 1 else 0)
      + if HoldsList(before.kind) then UnwrittenList(before.children, after.children)
        else UnwrittenInPlace(before.children, after.children, 0)
  }

  function UnwrittenInPlace(before: seq<Node>, after: seq<Node>, i: nat): nat
    requires |before| == |after| && i <= |before|
    decreases before, 0, |before| - i
  {
    if i == |before| then 0 else Unwritten(before[i], after[i]) + UnwrittenInPlace(before, after, i + 1)
  }

  function UnwrittenList(before: seq<Node>, after: seq<Node>): nat
    decreases before, 1
  {
    if Positional(before, after) then UnwrittenInPlace(before, after, 0) else UnwrittenFrom(before, after, 0)
  }

  function UnwrittenFrom(before: seq<Node>, after: seq<Node>, index: nat): nat
    requires index <= |after|
    decreases before, 0, |after| - index
  {
    if index == |after| then 0
    else
      (match Match(before, after, index)
       case None => Count(after[index]) - 1
       case Some(w) => Unwritten(before[w], after[index]))
      + UnwrittenFrom(before, after, index + 1)
  }

  // What a diff has to take out and move, told by the two trees: in every list the children that are
  // gone and the survivors met out of their order, and the same of every pair of children that meet.
  function Disturbed(before: Node, after: Node): nat
    decreases before, 2
  {
    if before == after || before.kind != after.kind || !SameArity(before, after) then 0
    else if HoldsList(before.kind) then DisturbedList(before.children, after.children)
    else DisturbedInPlace(before.children, after.children, 0)
  }

  function DisturbedInPlace(before: seq<Node>, after: seq<Node>, i: nat): nat
    requires |before| == |after| && i <= |before|
    decreases before, 0, |before| - i
  {
    if i == |before| then 0 else Disturbed(before[i], after[i]) + DisturbedInPlace(before, after, i + 1)
  }

  function DisturbedList(before: seq<Node>, after: seq<Node>): nat
    decreases before, 1
  {
    if Positional(before, after) then DisturbedInPlace(before, after, 0)
    else
      Gone(before, after, |before|)
      + OutOfOrder(Matches(before, after), 0, Live(Survivors(before, after), |before|))
      + DisturbedPairs(before, after, 0)
  }

  // How many of the children wanted from `index` on are not the first of those still waiting.
  function OutOfOrder(wanted: Places, index: nat, waiting: seq<nat>): nat
    requires index <= |wanted|
    decreases |wanted| - index
  {
    if index == |wanted| then 0
    else if wanted[index].None? || wanted[index].value !in waiting then OutOfOrder(wanted, index + 1, waiting)
    else
      var at := IndexOf(waiting, wanted[index].value);
      (if at == 0 then 0 else 1) + OutOfOrder(wanted, index + 1, RemoveAt(waiting, at))
  }

  function DisturbedPairs(before: seq<Node>, after: seq<Node>, index: nat): nat
    requires index <= |after|
    decreases before, 0, |after| - index
  {
    if index == |after| then 0
    else
      (match Match(before, after, index)
       case None => 0
       case Some(w) => Disturbed(before[w], after[index]))
      + DisturbedPairs(before, after, index + 1)
  }

  lemma {:induction false} ShiftsConcat(a: seq<Patch>, b: seq<Patch>)
    ensures Shifts(a + b) == Shifts(a) + Shifts(b)
  {
    if a == [] {
      assert a + b == b;
    } else {
      assert (a + b)[1..] == a[1..] + b;
      ShiftsConcat(a[1..], b);
    }
  }

  lemma {:induction false} ShiftsBelow(prefix: seq<nat>, patches: seq<Patch>)
    ensures Shifts(Under(prefix, patches)) == Shifts(patches)
  {
    if patches != [] { ShiftsBelow(prefix, patches[1..]); }
  }

  // The removals and moves of every diff, at every depth, are those the two trees call for.
  lemma {:induction false} ShiftsAreDisturbed(before: Node, after: Node)
    ensures Shifts(DiffNode(before, after)) == Disturbed(before, after)
    decreases before, 2
  {
    hide HoldsList, SameArity, Detached, Positional, Match;
    if before != after && before.kind == after.kind && SameArity(before, after) {
      if HoldsList(before.kind) {
        ListShifts(before.children, after.children);
        ShiftsConcat(OwnFields(before, after), DiffList(before.children, after.children));
      } else {
        assert |before.children| == |after.children| by { SlotsMatch(before, after); }
        InPlaceShifts(before.children, after.children, 0);
        ShiftsConcat(OwnFields(before, after), DiffInPlace(before.children, after.children, 0));
      }
    }
  }

  lemma {:induction false} InPlaceShifts(before: seq<Node>, after: seq<Node>, i: nat)
    requires |before| == |after| && i <= |before|
    ensures Shifts(DiffInPlace(before, after, i)) == DisturbedInPlace(before, after, i)
    decreases before, 0, |before| - i
  {
    hide DiffNode, Disturbed;
    if i < |before| {
      ShiftsAreDisturbed(before[i], after[i]);
      InPlaceShifts(before, after, i + 1);
      ShiftsBelow([i], DiffNode(before[i], after[i]));
      ShiftsConcat(Under([i], DiffNode(before[i], after[i])), DiffInPlace(before, after, i + 1));
    }
  }

  lemma {:induction false} ListShifts(before: seq<Node>, after: seq<Node>)
    ensures Shifts(DiffList(before, after)) == DisturbedList(before, after)
    decreases before, 1
  {
    hide Matches, Removals, Placements, Shifts, Survives, Match, Gone, Live;
    if Positional(before, after) {
      InPlaceShifts(before, after, 0);
    } else {
      var stays, wanted := Survivors(before, after), Matches(before, after);
      var live := Live(stays, |before|);
      MatchingIsReady(before, after);
      RemovalsShifts(before, after, |before|);
      PlacementsShifts(before, after, 0, live);
      ShiftsConcat(Removals(stays, |before|), Placements(before, after, wanted, 0, live));
    }
  }

  lemma {:induction false} RemovalsShifts(before: seq<Node>, after: seq<Node>, upto: nat)
    requires upto <= |before|
    ensures Shifts(Removals(Survivors(before, after), upto)) == Gone(before, after, upto)
  {
    hide *;
    var stays := Survivors(before, after);
    GoneNext(before, after, upto);
    if upto == 0 {
      NoRemovals(stays);
      NoShift();
    } else {
      RemovalsShifts(before, after, upto - 1);
      RemovalsNext(stays, upto - 1);
      if !stays[upto - 1] {
        var at := |Live(stays, upto - 1)|;
        OneShift(at);
        ShiftsConcat(Removals(stays, upto - 1), [Patch([], Remove(at))]);
      }
    }
  }

  lemma NoShift()
    ensures Shifts([]) == 0
  {
  }

  lemma OneShift(at: nat)
    ensures Shifts([Patch([], Remove(at))]) == 1
  {
    assert [Patch([], Remove(at))][1..] == [];
  }

  lemma {:induction false} PlacementsShifts(before: seq<Node>, after: seq<Node>, index: nat, rest: seq<nat>)
    requires index <= |after| && Ready(Matches(before, after), |before|, index, rest)
    ensures Shifts(Placements(before, after, Matches(before, after), index, rest))
         == OutOfOrder(Matches(before, after), index, rest) + DisturbedPairs(before, after, index)
    decreases before, 0, |after| - index
  {
    hide *;
    var wanted := Matches(before, after);
    DisturbedNext(before, after, index, rest);
    if index == |after| {
      NoPlacements(before, after, wanted, rest);
    } else if wanted[index].None? {
      PlacementsInsert(before, after, wanted, index, rest);
      PlacementsShifts(before, after, index + 1, rest);
      InsertLength(index, after[index]);
      ShiftsConcat([Patch([], Insert(index, after[index]))], Placements(before, after, wanted, index + 1, rest));
    } else {
      var w := wanted[index].value;
      PlacementsKeep(before, after, wanted, index, rest);
      var at := IndexOf(rest, w);
      var left := RemoveAt<nat>(rest, at);
      var below := DiffNode(before[w], after[index]);
      ShiftsAreDisturbed(before[w], after[index]);
      PlacementsShifts(before, after, index + 1, left);
      MoveLength(at, index);
      ShiftsBelow([index], below);
      ShiftsConcat(MoveUp(at, index), Under([index], below));
      ShiftsConcat(MoveUp(at, index) + Under([index], below), Placements(before, after, wanted, index + 1, left));
    }
  }

  lemma DisturbedNext(before: seq<Node>, after: seq<Node>, index: nat, rest: seq<nat>)
    requires index <= |after|
    ensures var wanted := Matches(before, after);
      if index == |after| then OutOfOrder(wanted, index, rest) == 0 && DisturbedPairs(before, after, index) == 0
      else if wanted[index].None? then
        && OutOfOrder(wanted, index, rest) == OutOfOrder(wanted, index + 1, rest)
        && DisturbedPairs(before, after, index) == DisturbedPairs(before, after, index + 1)
      else
        var w := wanted[index].value;
        && w < |before|
        && (w in rest ==>
              OutOfOrder(wanted, index, rest)
              == (if IndexOf(rest, w) == 0 then 0 else 1)
                 + OutOfOrder(wanted, index + 1, RemoveAt<nat>(rest, IndexOf(rest, w))))
        && DisturbedPairs(before, after, index)
           == Disturbed(before[w], after[index]) + DisturbedPairs(before, after, index + 1)
  {
    hide Disturbed, SoleIndex;
  }

  // The length of every diff, exactly: one patch for every node of the new tree that is written,
  // and one for every child taken out or met out of order.
  lemma DiffLength(before: Node, after: Node)
    ensures |DiffNode(before, after)| + Unwritten(before, after) == Count(after) + Disturbed(before, after)
  {
    WrittenAndShifted(before, after);
    ShiftsAreDisturbed(before, after);
  }

  lemma {:induction false} WrittenAndShifted(before: Node, after: Node)
    ensures |DiffNode(before, after)| + Unwritten(before, after) == Count(after) + Shifts(DiffNode(before, after))
    decreases before, 2
  {
    hide HoldsList, SameArity, Detached, Positional, Match;
    if before != after && before.kind == after.kind && SameArity(before, after) {
      if HoldsList(before.kind) {
        ListLength(before.children, after.children);
        ShiftsConcat(OwnFields(before, after), DiffList(before.children, after.children));
      } else {
        assert |before.children| == |after.children| by { SlotsMatch(before, after); }
        InPlaceLength(before.children, after.children, 0);
        assert after.children[0..] == after.children;
        ShiftsConcat(OwnFields(before, after), DiffInPlace(before.children, after.children, 0));
      }
    }
  }

  lemma SlotsMatch(before: Node, after: Node)
    requires before.kind == after.kind && SameArity(before, after) && !HoldsList(before.kind)
    ensures |before.children| == |after.children|
  {
  }

  lemma {:induction false} InPlaceLength(before: seq<Node>, after: seq<Node>, i: nat)
    requires |before| == |after| && i <= |before|
    ensures |DiffInPlace(before, after, i)| + UnwrittenInPlace(before, after, i)
         == CountAll(after[i..]) + Shifts(DiffInPlace(before, after, i))
    decreases before, 0, |before| - i
  {
    hide DiffNode, Unwritten;
    if i < |before| {
      WrittenAndShifted(before[i], after[i]);
      InPlaceLength(before, after, i + 1);
      assert after[i..][1..] == after[i + 1..];
      ShiftsBelow([i], DiffNode(before[i], after[i]));
      ShiftsConcat(Under([i], DiffNode(before[i], after[i])), DiffInPlace(before, after, i + 1));
    }
  }

  lemma {:induction false} ListLength(before: seq<Node>, after: seq<Node>)
    ensures |DiffList(before, after)| + UnwrittenList(before, after)
         == CountAll(after) + Shifts(DiffList(before, after))
    decreases before, 1
  {
    hide Matches, Removals, Placements, Shifts, Survives, Match;
    assert after[0..] == after;
    if Positional(before, after) {
      InPlaceLength(before, after, 0);
    } else {
      var stays, wanted := Survivors(before, after), Matches(before, after);
      var live := Live(stays, |before|);
      MatchingIsReady(before, after);
      RemovalsLength(stays, |before|);
      PlacementsLength(before, after, 0, live);
      ShiftsConcat(Removals(stays, |before|), Placements(before, after, wanted, 0, live));
    }
  }

  lemma {:induction false} RemovalsLength(stays: seq<bool>, upto: nat)
    requires upto <= |stays|
    ensures Shifts(Removals(stays, upto)) == |Removals(stays, upto)|
  {
    hide Live;
    if upto > 0 {
      RemovalsLength(stays, upto - 1);
      var last := if stays[upto - 1] then [] else [Patch([], Remove(|Live(stays, upto - 1)|))];
      ShiftsConcat(Removals(stays, upto - 1), last);
    }
  }

  lemma {:induction false} PlacementsLength(before: seq<Node>, after: seq<Node>, index: nat, rest: seq<nat>)
    requires index <= |after| && Ready(Matches(before, after), |before|, index, rest)
    ensures var placements := Placements(before, after, Matches(before, after), index, rest);
            |placements| + UnwrittenFrom(before, after, index) == CountAll(after[index..]) + Shifts(placements)
    decreases before, 0, |after| - index
  {
    hide *;
    var wanted := Matches(before, after);
    UnwrittenNext(before, after, index);
    if index == |after| {
      NoPlacements(before, after, wanted, rest);
    } else if wanted[index].None? {
      PlacementsInsert(before, after, wanted, index, rest);
      PlacementsLength(before, after, index + 1, rest);
      InsertLength(index, after[index]);
      ShiftsConcat([Patch([], Insert(index, after[index]))], Placements(before, after, wanted, index + 1, rest));
    } else {
      var w := wanted[index].value;
      PlacementsKeep(before, after, wanted, index, rest);
      var at := IndexOf(rest, w);
      var left := RemoveAt<nat>(rest, at);
      var below := DiffNode(before[w], after[index]);
      WrittenAndShifted(before[w], after[index]);
      PlacementsLength(before, after, index + 1, left);
      MoveLength(at, index);
      ShiftsBelow([index], below);
      ShiftsConcat(MoveUp(at, index), Under([index], below));
      ShiftsConcat(MoveUp(at, index) + Under([index], below), Placements(before, after, wanted, index + 1, left));
    }
  }

  lemma UnwrittenNext(before: seq<Node>, after: seq<Node>, index: nat)
    requires index <= |after|
    ensures index == |after| ==> CountAll(after[index..]) == 0 && UnwrittenFrom(before, after, index) == 0
    ensures index < |after| ==> CountAll(after[index..]) == Count(after[index]) + CountAll(after[index + 1..])
    ensures index < |after| && Matches(before, after)[index].None?
        ==> UnwrittenFrom(before, after, index) == Count(after[index]) - 1 + UnwrittenFrom(before, after, index + 1)
    ensures index < |after| && Matches(before, after)[index].Some?
        ==> var w := Matches(before, after)[index].value;
            && w < |before|
            && UnwrittenFrom(before, after, index)
               == Unwritten(before[w], after[index]) + UnwrittenFrom(before, after, index + 1)
  {
    hide Unwritten, Count, SoleIndex;
    if index < |after| { assert after[index..][1..] == after[index + 1..]; }
  }

  lemma NoPlacements(before: seq<Node>, after: seq<Node>, wanted: Places, rest: seq<nat>)
    requires |after| == |wanted| && Ready(wanted, |before|, |after|, rest)
    ensures Placements(before, after, wanted, |after|, rest) == [] && Shifts([]) == 0
  {
  }

  lemma InsertLength(index: nat, node: Node)
    ensures Shifts([Patch([], Insert(index, node))]) == 0
  {
    assert [Patch([], Insert(index, node))][1..] == [];
  }

  lemma MoveLength(at: nat, index: nat)
    ensures Shifts(MoveUp(at, index)) == |MoveUp(at, index)| == if at == 0 then 0 else 1
  {
    if at != 0 { assert MoveUp(at, index)[1..] == []; }
  }

  // A diff has at most one patch per node of the new tree exactly when no more children are gone or
  // out of order, by the two trees, than nodes keep their own fields; without any it always has.
  lemma AtMostOnePatchPerNode(before: Node, after: Node)
    ensures |DiffNode(before, after)| <= Count(after) <==> Disturbed(before, after) <= Unwritten(before, after)
    ensures |DiffNode(before, after)| <= Count(after) + Disturbed(before, after)
  {
    DiffLength(before, after);
  }

  // Only equal trees need no patch.
  lemma NoPatchMeansEqual(before: Node, after: Node)
    ensures DiffNode(before, after) == [] <==> before == after
  {
    DiffReplays(before, after);
  }

  // A diff can need more patches than the new tree has nodes: a row of two children that swap
  // places while every node changes its own fields takes a move and three property patches.
  lemma MorePatchesThanNodes() returns (before: Node, after: Node)
    ensures |DiffNode(before, after)| == Count(after) + 1 && Count(before) == Count(after)
  {
    hide *;
    var a, b := Leaf([97], 1), Leaf([98], 1);
    var a', b' := Leaf([97], 2), Leaf([98], 2);
    before := Row(1, [a, b]);
    after := Row(2, [b', a']);
    LeafDiff([97]);
    LeafDiff([98]);
    SwapTakesThree([a, b], [b', a']);
    CountTwo([97], [98], 1);
    CountTwo([98], [97], 2);
    RowDiff([a, b], [b', a']);
  }

  function Row(other: nat, children: seq<Node>): Node {
    Node(Linear, Some([114]), Fields([], false, Settings(other, other)), children)
  }

  function Leaf(key: Texts.Text, other: nat): Node {
    Node(Text, Some(key), Fields([], false, Settings(other, other)), [])
  }

  lemma LeafDiff(key: Texts.Text)
    ensures |DiffNode(Leaf(key, 1), Leaf(key, 2))| == 1
    ensures Leaf(key, 1).key == Leaf(key, 2).key == Some(key)
  {
    assert Positional([], []);
  }

  lemma CountTwo(a: Texts.Text, b: Texts.Text, other: nat)
    ensures CountAll([Leaf(a, other), Leaf(b, other)]) == 2
  {
    assert [Leaf(a, other), Leaf(b, other)][1..] == [Leaf(b, other)];
    assert Count(Leaf(a, other)) == Count(Leaf(b, other)) == 1;
    assert CountAll([Leaf(b, other)]) == 1;
  }

  lemma RowDiff(before: seq<Node>, after: seq<Node>)
    ensures |DiffNode(Row(1, before), Row(2, after))| == 1 + |DiffList(before, after)|
    ensures Count(Row(1, before)) == 1 + CountAll(before) && Count(Row(2, after)) == 1 + CountAll(after)
  {
    hide DiffList;
  }

  lemma SwapTakesThree(before: seq<Node>, after: seq<Node>)
    requires |before| == |after| == 2 && before[0].key != before[1].key && before[0].key.Some? && before[1].key.Some?
    requires after[0].key == before[1].key && after[1].key == before[0].key
    requires forall i :: 0 <= i < 2 ==> |DiffNode(before[i], after[1 - i])| == 1
    ensures |DiffList(before, after)| == 3
  {
    hide DiffNode, Match, Survives, Placements;
    var j := SurvivorIs(before, after, 0, 1);
    j := SurvivorIs(before, after, 1, 0);
    assert Survivors(before, after) == [true, true];
    assert Matches(before, after) == [Some(1), Some(0)];
    MatchingIsReady(before, after);
    BothStay();
    SwapPlacements(before, after, [Some(1), Some(0)]);
  }

  lemma BothStay()
    ensures Live([true, true], 2) == [0, 1] && Removals([true, true], 2) == []
  {
    assert Live([true, true], 1) == [0] && Removals([true, true], 1) == [];
  }

  lemma SwapPlacements(before: seq<Node>, after: seq<Node>, wanted: seq<Option<nat>>)
    requires |before| == |after| == 2 && wanted == [Some(1), Some(0)] && Ready(wanted, 2, 0, [0, 1])
    requires |DiffNode(before[0], after[1])| == 1 && |DiffNode(before[1], after[0])| == 1
    ensures |Placements(before, after, wanted, 0, [0, 1])| == 3
  {
    ReadyAfter(wanted, 2, 0, [0, 1]);
    assert IndexOf([0, 1], 1) == 1 && RemoveAt<nat>([0, 1], 1) == [0];
    ReadyAfter(wanted, 2, 1, [0]);
    assert IndexOf([0], 0) == 0 && RemoveAt<nat>([0], 0) == [];
    assert |Placements(before, after, wanted, 1, [0])| == 1;
  }

  lemma SurvivorIs(before: seq<Node>, after: seq<Node>, i: nat, j: nat) returns (found: nat)
    requires i < |before| && j < |after| && SoleKey(before, i) && SoleKey(after, j) && before[i].key == after[j].key
    ensures Survives(before, after, i) && Match(before, after, j) == Some(i) && found == j
  {
    found := j;
  }
}
