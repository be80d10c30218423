// How many nodes a sanitized tree has exactly (crates/view-wire/src/lib.rs:939-1617): every node and
// every span or tracked character kept is paid for, but the empty nodes put into places past the
// budget are not.
module SanitizerCounts {
  import opened Wrappers
  import opened Texts
  import opened Nodes
  import opened Sanitizing
  import opened SanitizerLaws

  // What a walk leaves of the budget, how many places it fills unpaid, and what it takes for spans
  // and characters. Keys cost nothing.
  datatype Toll = Toll(left: Budget, standIns: nat, charges: nat)

  function TollOf(node: Node, depth: nat, maxDepth: nat, budget: Budget): (t: Toll)
    requires budget.nodes >= 1
    decreases node, 1
  {
    var left := budget.(nodes := budget.nodes - 1);
    if depth >= maxDepth then Toll(left, 0, 0)
    else
      var spent := OwnFields(node.kind, node.fields, left).1;
      OwnFieldsFit(node.kind, node.fields, left);
      var kids := TollOfAll(Considered(node), DropsRest(node.kind), depth + 1, maxDepth, spent);
      Toll(kids.left, kids.standIns, left.nodes - spent.nodes + kids.charges)
  }

  function TollOfAll(nodes: seq<Node>, drops: bool, depth: nat, maxDepth: nat, budget: Budget): (t: Toll)
    decreases nodes, 0
  {
    if nodes == [] || (budget.nodes == 0 && drops) then Toll(budget, 0, 0)
    else if budget.nodes == 0 then
      var rest := TollOfAll(nodes[1..], drops, depth, maxDepth, budget);
      Toll(rest.left, 1 + rest.standIns, rest.charges)
    else
      var first := TollOf(nodes[0], depth, maxDepth, budget);
      var rest := TollOfAll(nodes[1..], drops, depth, maxDepth, first.left);
      Toll(rest.left, first.standIns + rest.standIns, first.charges + rest.charges)
  }

  // The spans and tracked characters of a tree.
  function Extras(node: Node): nat
    decreases node, 1
  {
    Extra(node) + ExtrasOfAll(node.children)
  }

  function ExtrasOfAll(nodes: seq<Node>): nat
    decreases nodes, 0
  {
    if nodes == [] then 0 else Extras(nodes[0]) + ExtrasOfAll(nodes[1..])
  }

  // The account of a walk, whatever tree and budget: what is kept and what is left is what there was
  // and the places filled unpaid.
  ghost predicate Balanced(count: nat, extras: nat, left: Budget, budget: Budget, t: Toll) {
    left == t.left && extras == t.charges && count + left.nodes + t.charges == budget.nodes + t.standIns
  }

  lemma OwnFieldsCharge(key: Option<Text>, kind: Kind, fields: Fields, children: seq<Node>, budget: Budget)
    ensures var (after, left) := OwnFields(kind, fields, budget);
      left.nodes + Extra(Nodes.Node(kind, key, after, children)) == budget.nodes
  {
    hide Spend, FirstChars, Chars;
  }

  lemma ExtrasOfMore(first: Node, rest: seq<Node>)
    ensures ExtrasOfAll([first] + rest) == Extras(first) + ExtrasOfAll(rest)
  {
    hide Extras;
    assert ([first] + rest)[1..] == rest;
  }

  lemma StandInCosts()
    ensures Count(EMPTY) == 1 && Extras(EMPTY) == 0 && CountAll([]) == 0 && ExtrasOfAll([]) == 0
  {
  }

  lemma OneNode(key: Option<Text>, kind: Kind, fields: Fields, children: seq<Node>)
    ensures var node := Nodes.Node(kind, key, fields, children);
      Count(node) == 1 + CountAll(children) && Extras(node) == Extra(node) + ExtrasOfAll(children)
  {
    hide Extra, CountAll, ExtrasOfAll;
  }

  lemma {:induction false} NodeIsAccounted(node: Node, depth: nat, maxDepth: nat, budget: Budget, taken: Taken)
    requires budget.nodes >= 1
    ensures var w := SanitizeNode(node, depth, maxDepth, budget, taken);
      Balanced(Count(w.node), Extras(w.node), w.budget, budget, TollOf(node, depth, maxDepth, budget))
    decreases node, 1
  {
    hide ClaimOf, OwnFields, Count, Extras, Extra, SanitizeAll, TollOfAll;
    StandInCosts();
    if depth < maxDepth {
      var left := budget.(nodes := budget.nodes - 1);
      var (key, claimed) := ClaimOf(node.key, taken);
      var (fields, spent) := OwnFields(node.kind, node.fields, left);
      var kids := SanitizeAll(Considered(node), DropsRest(node.kind), depth + 1, maxDepth, spent, claimed);
      OwnFieldsFit(node.kind, node.fields, left);
      OwnFieldsCharge(key, node.kind, node.fields, kids.nodes, left);
      OneNode(key, node.kind, fields, kids.nodes);
      AllAreAccounted(Considered(node), DropsRest(node.kind), depth + 1, maxDepth, spent, claimed);
    }
  }

  lemma {:induction false} AllAreAccounted(nodes: seq<Node>, drops: bool, depth: nat, maxDepth: nat, budget: Budget,
      taken: Taken)
    ensures var w := SanitizeAll(nodes, drops, depth, maxDepth, budget, taken);
      Balanced(CountAll(w.nodes), ExtrasOfAll(w.nodes), w.budget, budget,
               TollOfAll(nodes, drops, depth, maxDepth, budget))
    decreases nodes, 0
  {
    hide SanitizeNode, TollOf, Count, Extras;
    StandInCosts();
    if nodes != [] && budget.nodes == 0 && !drops {
      AllAreAccounted(nodes[1..], drops, depth, maxDepth, budget, taken);
      var rest := SanitizeAll(nodes[1..], drops, depth, maxDepth, budget, taken).nodes;
      CountOfMore(EMPTY, rest);
      ExtrasOfMore(EMPTY, rest);
    } else if nodes != [] && budget.nodes > 0 {
      var first := SanitizeNode(nodes[0], depth, maxDepth, budget, taken);
      NodeIsAccounted(nodes[0], depth, maxDepth, budget, taken);
      AllAreAccounted(nodes[1..], drops, depth, maxDepth, first.budget, first.taken);
      var rest := SanitizeAll(nodes[1..], drops, depth, maxDepth, first.budget, first.taken).nodes;
      CountOfMore(first.node, rest);
      ExtrasOfMore(first.node, rest);
    }
  }

  // ---- the frame -----------------------------------------------------------------------------------

  function FrameToll(root: Node): Toll {
    TollOf(root, 0, MAX_DEPTH, Budget(MAX_NODES, MAX_TEXT_BYTES_PER_FRAME))
  }

  // A sanitized tree is within the node budget exactly if no more places are filled unpaid than nodes
  // are left over or go to spans and characters; what it is over by is the difference.
  lemma WithinBudgetExactly(root: Node)
    ensures var t := FrameToll(root);
      && Count(Sanitized(root)) + t.left.nodes + t.charges == MAX_NODES + t.standIns
      && t.charges == Extras(Sanitized(root))
      && (Count(Sanitized(root)) <= MAX_NODES <==> t.standIns <= t.left.nodes + t.charges)
  {
    hide SanitizeNode, TollOf, Count, Extras;
    NodeIsAccounted(root, 0, MAX_DEPTH, Budget(MAX_NODES, MAX_TEXT_BYTES_PER_FRAME), map[]);
  }

  // ---- a tree that comes out over budget -----------------------------------------------------------

  const LINE_COUNT: nat := MAX_NODES - 2
  const LINE := Nodes.Node(Rule, None, Fields([], false, Settings(0, 0)), [])
  const TIP := Nodes.Node(Hover, None, Fields([], false, Settings(0, 0)), [LINE, LINE])

  function Lines(n: nat): seq<Node> {
    seq(n, _ => LINE)
  }

  // So many lines that the tip behind them takes the last node there is.
  function FullFrame(): Node {
    Nodes.Node(Linear, None, Fields([], false, Settings(0, 0)), Lines(LINE_COUNT) + [TIP])
  }

  lemma PlainFieldsCostNothing(kind: Kind, budget: Budget)
    requires kind != Kind.RichText
    ensures OwnFields(kind, Fields([], false, Settings(0, 0)), budget)
         == (Fields([], false, Settings(0, 0)), budget)
  {
  }

  lemma LineToll(depth: nat, maxDepth: nat, budget: Budget)
    requires budget.nodes >= 1 && depth < maxDepth
    ensures TollOf(LINE, depth, maxDepth, budget) == Toll(budget.(nodes := budget.nodes - 1), 0, 0)
  {
    hide OwnFields;
    PlainFieldsCostNothing(Rule, budget.(nodes := budget.nodes - 1));
    assert TollOfAll([], DropsRest(Rule), depth + 1, maxDepth, budget.(nodes := budget.nodes - 1))
        == Toll(budget.(nodes := budget.nodes - 1), 0, 0);
  }

  lemma {:induction false} LinesToll(n: nat, rest: seq<Node>, depth: nat, maxDepth: nat, budget: Budget)
    requires budget.nodes >= n && depth < maxDepth
    ensures TollOfAll(Lines(n) + rest, true, depth, maxDepth, budget)
         == TollOfAll(rest, true, depth, maxDepth, budget.(nodes := budget.nodes - n))
    decreases n
  {
    hide TollOf;
    if n == 0 {
      assert Lines(0) + rest == rest;
    } else {
      assert (Lines(n) + rest)[0] == LINE && (Lines(n) + rest)[1..] == Lines(n - 1) + rest;
      LineToll(depth, maxDepth, budget);
      LinesToll(n - 1, rest, depth, maxDepth, budget.(nodes := budget.nodes - 1));
    }
  }

  // With one node left the tip takes it, and both its places are filled unpaid.
  lemma TipToll(depth: nat, maxDepth: nat, text: nat)
    requires depth < maxDepth
    ensures TollOfAll([TIP], true, depth, maxDepth, Budget(1, text)) == Toll(Budget(0, text), 2, 0)
  {
    hide OwnFields;
    PlainFieldsCostNothing(Hover, Budget(0, text));
    var kids := [LINE, LINE];
    assert kids[1..] == [LINE] && [LINE][1..] == [] && [TIP][1..] == [];
    assert Considered(TIP) == kids && !DropsRest(Hover);
    assert TollOfAll([LINE], false, depth + 1, maxDepth, Budget(0, text)) == Toll(Budget(0, text), 1, 0);
    assert TollOfAll(kids, false, depth + 1, maxDepth, Budget(0, text)) == Toll(Budget(0, text), 2, 0);
    assert TollOf(TIP, depth, maxDepth, Budget(1, text)) == Toll(Budget(0, text), 2, 0);
  }

  lemma FullToll()
    ensures FrameToll(FullFrame()) == Toll(Budget(0, MAX_TEXT_BYTES_PER_FRAME), 2, 0)
  {
    hide OwnFields, TollOfAll;
    var text := MAX_TEXT_BYTES_PER_FRAME;
    PlainFieldsCostNothing(Linear, Budget(MAX_NODES - 1, text));
    LinesToll(LINE_COUNT, [TIP], 1, MAX_DEPTH, Budget(MAX_NODES - 1, text));
    TipToll(1, MAX_DEPTH, text);
    assert Considered(FullFrame()) == Lines(LINE_COUNT) + [TIP] && DropsRest(Linear);
  }

  lemma {:induction false} LinesAreShaped(n: nat, rest: seq<Node>)
    requires ShapedAll(rest)
    ensures ShapedAll(Lines(n) + rest)
    decreases n
  {
    if n == 0 {
      assert Lines(0) + rest == rest;
    } else {
      assert (Lines(n) + rest)[0] == LINE && (Lines(n) + rest)[1..] == Lines(n - 1) + rest;
      assert Shaped(LINE);
      LinesAreShaped(n - 1, rest);
    }
  }

  lemma TipIsShaped()
    ensures ShapedAll([TIP])
  {
    assert [LINE, LINE][1..] == [LINE] && [LINE][1..] == [] && [TIP][1..] == [];
    assert Shaped(LINE) && ShapedAll([LINE]) && ShapedAll([LINE, LINE]) && Shaped(TIP);
  }

  // A frame of the right shapes that comes out with two nodes more than the budget.
  lemma StandInsAreOverBudget() returns (root: Node)
    ensures Shaped(root) && Count(Sanitized(root)) == MAX_NODES + 2
  {
    hide *;
    root := FullFrame();
    TipIsShaped();
    LinesAreShaped(LINE_COUNT, [TIP]);
    RowIsShaped();
    FullToll();
    WithinBudgetExactly(root);
  }

  lemma RowIsShaped()
    requires ShapedAll(Lines(LINE_COUNT) + [TIP])
    ensures Shaped(FullFrame())
  {
    hide ShapedAll;
  }
}
