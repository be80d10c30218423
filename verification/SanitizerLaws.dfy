// What the sanitizer promises (crates/view-wire/src/lib.rs:656-1660) of every tree, and that it
// leaves a tree within bounds alone.
module SanitizerLaws {
  import opened Wrappers
  import opened Texts
  import opened Nodes
  import opened Sanitizing

  // ---- keys ----------------------------------------------------------------------------------------

  function OneKey(key: Option<Text>): seq<Text> {
    if key.Some? then [key.value] else []
  }

  // Every key of a tree, in the order the walk meets them.
  function Keys(node: Node): seq<Text>
    decreases node, 1
  {
    OneKey(node.key) + KeysOfAll(node.children)
  }

  function KeysOfAll(nodes: seq<Node>): seq<Text>
    decreases nodes, 0
  {
    if nodes == [] then [] else Keys(nodes[0]) + KeysOfAll(nodes[1..])
  }

  predicate AllDiffer(keys: seq<Text>) {
    forall i, j :: 0 <= i < j < |keys| ==> keys[i] != keys[j]
  }

  ghost function Members(keys: seq<Text>): set<Text> {
    set k | k in keys
  }

  // Keys that differ from each other, were not claimed before and are all claimed now.
  ghost predicate Claimed(keys: seq<Text>, before: Taken, after: Taken) {
    && AllDiffer(keys) && Members(keys) !! before.Keys && after.Keys == before.Keys + Members(keys)
    && Remembered(after) && FromTwo(after)
  }

  lemma ClaimedTogether(a: seq<Text>, b: seq<Text>, before: Taken, mid: Taken, after: Taken)
    requires Claimed(a, before, mid) && Claimed(b, mid, after)
    ensures Claimed(a + b, before, after)
  {
    hide Remembered, FromTwo;
    var both := a + b;
    assert Members(both) == Members(a) + Members(b);
    forall i, j | 0 <= i < j < |both|
      ensures both[i] != both[j]
    {
      if i < |a| <= j { assert a[i] in Members(a) && b[j - |a|] in Members(b); }
    }
  }

  lemma ClaimedNothing(taken: Taken)
    requires Remembered(taken) && FromTwo(taken)
    ensures Claimed([], taken, taken)
  {
    assert Members([]) == {};
  }

  lemma KeysUnfold(key: Option<Text>, kind: Kind, fields: Fields, children: seq<Node>)
    ensures Keys(Nodes.Node(kind, key, fields, children)) == OneKey(key) + KeysOfAll(children)
  {
  }

  lemma ClaimOfClaims(key: Option<Text>, taken: Taken)
    requires Remembered(taken) && FromTwo(taken)
    ensures var (claimed, after) := ClaimOf(key, taken); Claimed(OneKey(claimed), taken, after)
  {
    hide Remembered, FromTwo, Claim;
    if key.Some? {
      ClaimIsFresh(key.value, taken);
      var (claimed, after) := Claim(key.value, taken);
      assert Members([claimed]) == {claimed};
    } else {
      ClaimedNothing(taken);
    }
  }

  lemma ClaimedIsSound(keys: seq<Text>, before: Taken, after: Taken)
    requires Claimed(keys, before, after)
    ensures Remembered(after) && FromTwo(after)
  {
  }

  // What an empty stand-in amounts to.
  lemma EmptyNode()
    ensures Keys(EMPTY) == [] && KeysOfAll([]) == [] && Height(EMPTY) == 1 && TextIn(EMPTY) == 0 && Count(EMPTY) == 1
  {
  }

  // The keys of a sanitized tree are pairwise distinct, and none was taken before.
  lemma {:induction false} NodeKeysAreClaimed(node: Node, depth: nat, maxDepth: nat, budget: Budget, taken: Taken)
    requires budget.nodes >= 1 && Remembered(taken) && FromTwo(taken)
    ensures var w := SanitizeNode(node, depth, maxDepth, budget, taken); Claimed(Keys(w.node), taken, w.taken)
    decreases node, 1
  {
    hide Claimed, Remembered, FromTwo, ClaimOf, OwnFields, Keys, KeysOfAll;
    EmptyNode();
    if depth >= maxDepth {
      ClaimedNothing(taken);
    } else {
      var left := budget.(nodes := budget.nodes - 1);
      var (key, claimed) := ClaimOf(node.key, taken);
      ClaimOfClaims(node.key, taken);
      ClaimedIsSound(OneKey(key), taken, claimed);
      var (fields, spent) := OwnFields(node.kind, node.fields, left);
      AllKeysAreClaimed(Considered(node), DropsRest(node.kind), depth + 1, maxDepth, spent, claimed);
      var kids := SanitizeAll(Considered(node), DropsRest(node.kind), depth + 1, maxDepth, spent, claimed);
      ClaimedTogether(OneKey(key), KeysOfAll(kids.nodes), taken, claimed, kids.taken);
      KeysUnfold(key, node.kind, fields, kids.nodes);
    }
  }

  lemma {:induction false} AllKeysAreClaimed(nodes: seq<Node>, drops: bool, depth: nat, maxDepth: nat, budget: Budget,
          taken: Taken)
    requires Remembered(taken) && FromTwo(taken)
    ensures var w := SanitizeAll(nodes, drops, depth, maxDepth, budget, taken);
        Claimed(KeysOfAll(w.nodes), taken, w.taken)
    decreases nodes, 0
  {
    hide Claimed, Remembered, FromTwo, SanitizeNode, Keys, KeysOfAll;
    EmptyNode();
    if nodes == [] || (budget.nodes == 0 && drops) {
      ClaimedNothing(taken);
    } else if budget.nodes == 0 {
      AllKeysAreClaimed(nodes[1..], drops, depth, maxDepth, budget, taken);
      var rest := SanitizeAll(nodes[1..], drops, depth, maxDepth, budget, taken).nodes;
      KeysOfMore(EMPTY, rest);
      assert [] + KeysOfAll(rest) == KeysOfAll(rest);
    } else {
      var first := SanitizeNode(nodes[0], depth, maxDepth, budget, taken);
      NodeKeysAreClaimed(nodes[0], depth, maxDepth, budget, taken);
      ClaimedIsSound(Keys(first.node), taken, first.taken);
      AllKeysAreClaimed(nodes[1..], drops, depth, maxDepth, first.budget, first.taken);
      var rest := SanitizeAll(nodes[1..], drops, depth, maxDepth, first.budget, first.taken);
      ClaimedTogether(Keys(first.node), KeysOfAll(rest.nodes), taken, first.taken, rest.taken);
      KeysOfMore(first.node, rest.nodes);
    }
  }

  lemma KeysOfMore(first: Node, rest: seq<Node>)
    ensures KeysOfAll([first] + rest) == Keys(first) + KeysOfAll(rest)
  {
    hide Keys;
    assert ([first] + rest)[1..] == rest;
  }

  // ---- depth ---------------------------------------------------------------------------------------

  function Height(node: Node): (h: nat)
    ensures h >= 1
    decreases node, 1
  {
    1 + HeightOfAll(node.children)
  }

  function HeightOfAll(nodes: seq<Node>): nat
    decreases nodes, 0
  {
    if nodes == [] then 0
    else if Height(nodes[0]) >= HeightOfAll(nodes[1..]) then Height(nodes[0])
    else HeightOfAll(nodes[1..])
  }

  lemma HeightOfMore(first: Node, rest: seq<Node>)
    ensures HeightOfAll([first] + rest) == if Height(first) >= HeightOfAll(rest) then Height(first)
        else HeightOfAll(rest)
  {
    hide Height;
    assert ([first] + rest)[1..] == rest;
  }

  lemma {:induction false} NodeIsShallow(node: Node, depth: nat, maxDepth: nat, budget: Budget, taken: Taken)
    requires budget.nodes >= 1 && depth <= maxDepth
    ensures depth + Height(SanitizeNode(node, depth, maxDepth, budget, taken).node) <= maxDepth + 1
    decreases node, 1
  {
    hide ClaimOf, OwnFields;
    if depth < maxDepth {
      var (key, claimed) := ClaimOf(node.key, taken);
      var (fields, spent) := OwnFields(node.kind, node.fields, budget.(nodes := budget.nodes - 1));
      AllAreShallow(Considered(node), DropsRest(node.kind), depth + 1, maxDepth, spent, claimed);
    }
  }

  lemma {:induction false} AllAreShallow(nodes: seq<Node>, drops: bool, depth: nat, maxDepth: nat, budget: Budget,
          taken: Taken)
    requires depth <= maxDepth
    ensures depth + HeightOfAll(SanitizeAll(nodes, drops, depth, maxDepth, budget, taken).nodes) <= maxDepth + 1
    decreases nodes, 0
  {
    hide SanitizeNode, Height;
    if nodes != [] {
      if budget.nodes == 0 {
        AllAreShallow(nodes[1..], drops, depth, maxDepth, budget, taken);
        HeightOfMore(EMPTY, SanitizeAll(nodes[1..], drops, depth, maxDepth, budget, taken).nodes);
        EmptyNode();
      } else {
        var first := SanitizeNode(nodes[0], depth, maxDepth, budget, taken);
        NodeIsShallow(nodes[0], depth, maxDepth, budget, taken);
        AllAreShallow(nodes[1..], drops, depth, maxDepth, first.budget, first.taken);
        HeightOfMore(first.node, SanitizeAll(nodes[1..], drops, depth, maxDepth, first.budget, first.taken).nodes);
      }
    }
  }

  // ---- text ----------------------------------------------------------------------------------------

  function TextIn(node: Node): nat
    decreases node, 1
  {
    TotalOf(node.fields.texts) + TextInAll(node.children)
  }

  function TextInAll(nodes: seq<Node>): nat
    decreases nodes, 0
  {
    if nodes == [] then 0 else TextIn(nodes[0]) + TextInAll(nodes[1..])
  }

  lemma TextInMore(first: Node, rest: seq<Node>)
    ensures TextInAll([first] + rest) == TextIn(first) + TextInAll(rest)
  {
    hide TextIn;
    assert ([first] + rest)[1..] == rest;
  }

  // What a walk keeps and what it leaves of the budget never add up to more than it was given.
  lemma {:induction false} NodeTextFits(node: Node, depth: nat, maxDepth: nat, budget: Budget, taken: Taken)
    requires budget.nodes >= 1
    ensures var w := SanitizeNode(node, depth, maxDepth, budget, taken); TextIn(w.node) + w.budget.text <= budget.text
    decreases node, 1
  {
    hide ClaimOf, OwnFields;
    if depth < maxDepth {
      var left := budget.(nodes := budget.nodes - 1);
      var (key, claimed) := ClaimOf(node.key, taken);
      OwnFieldsFit(node.kind, node.fields, left);
      var (fields, spent) := OwnFields(node.kind, node.fields, left);
      AllTextFits(Considered(node), DropsRest(node.kind), depth + 1, maxDepth, spent, claimed);
    }
  }

  lemma {:induction false} AllTextFits(nodes: seq<Node>, drops: bool, depth: nat, maxDepth: nat, budget: Budget,
          taken: Taken)
    ensures var w := SanitizeAll(nodes, drops, depth, maxDepth, budget, taken);
        TextInAll(w.nodes) + w.budget.text <= budget.text
    decreases nodes, 0
  {
    hide SanitizeNode, TextIn;
    if nodes != [] {
      if budget.nodes == 0 {
        AllTextFits(nodes[1..], drops, depth, maxDepth, budget, taken);
        TextInMore(EMPTY, SanitizeAll(nodes[1..], drops, depth, maxDepth, budget, taken).nodes);
        EmptyNode();
      } else {
        var first := SanitizeNode(nodes[0], depth, maxDepth, budget, taken);
        NodeTextFits(nodes[0], depth, maxDepth, budget, taken);
        AllTextFits(nodes[1..], drops, depth, maxDepth, first.budget, first.taken);
        TextInMore(first.node, SanitizeAll(nodes[1..], drops, depth, maxDepth, first.budget, first.taken).nodes);
      }
    }
  }

  // ---- nodes ---------------------------------------------------------------------------------------

  // Only the list variants hold more than one child, as their shapes say.
  predicate Shaped(node: Node)
    decreases node, 1
  {
    (!HoldsList(node.kind) ==> |node.children| <= 1) && ShapedAll(node.children)
  }

  predicate ShapedAll(nodes: seq<Node>)
    decreases nodes, 0
  {
    nodes == [] || (Shaped(nodes[0]) && ShapedAll(nodes[1..]))
  }

  lemma CountOfMore(first: Node, rest: seq<Node>)
    ensures CountAll([first] + rest) == Count(first) + CountAll(rest)
  {
    hide Count;
    assert ([first] + rest)[1..] == rest;
  }

  lemma ConsideredIsShaped(node: Node)
    requires Shaped(node)
    ensures ShapedAll(Considered(node)) && (!DropsRest(node.kind) ==> |Considered(node)| <= 2)
  {
    if |node.children| > 2 {
      var two := node.children[..2];
      assert two[0] == node.children[0] && two[1..][0] == node.children[1..][0] && two[1..][1..] == [];
      assert Shaped(node.children[0]) && ShapedAll(node.children[1..]) && Shaped(node.children[1..][0]);
      assert ShapedAll(two[1..]) && ShapedAll(two);
    }
  }

  // Nodes a walk keeps past its budget: none where budget is left, and otherwise at most one per
  // level down to the depth limit and one more.
  function Spare(depth: nat, maxDepth: nat, left: nat): nat {
    if left > 0 || depth >= maxDepth then 0 else maxDepth - depth + 1
  }

  lemma {:induction false} NodeCountFits(node: Node, depth: nat, maxDepth: nat, budget: Budget, taken: Taken)
    requires budget.nodes >= 1 && Shaped(node)
    ensures var w := SanitizeNode(node, depth, maxDepth, budget, taken);
      Count(w.node) + w.budget.nodes <= budget.nodes + Spare(depth, maxDepth, w.budget.nodes)
    decreases node, 1
  {
    hide ClaimOf, OwnFields, Shaped;
    if depth < maxDepth {
      var left := budget.(nodes := budget.nodes - 1);
      var (key, claimed) := ClaimOf(node.key, taken);
      OwnFieldsFit(node.kind, node.fields, left);
      ConsideredIsShaped(node);
      var (fields, spent) := OwnFields(node.kind, node.fields, left);
      var kids := SanitizeAll(Considered(node), DropsRest(node.kind), depth + 1, maxDepth, spent, claimed);
      if DropsRest(node.kind) {
        ListCountFits(Considered(node), depth + 1, maxDepth, spent, claimed);
      } else {
        SlotsCountFit(Considered(node), depth + 1, maxDepth, spent, claimed);
      }
      assert Count(Nodes.Node(node.kind, key, fields, kids.nodes)) == 1 + CountAll(kids.nodes);
    } else {
      assert Count(EMPTY) == 1;
    }
  }

  // A list is cut where the budget ends, so only its last node can have gone over.
  lemma {:induction false} ListCountFits(nodes: seq<Node>, depth: nat, maxDepth: nat, budget: Budget, taken: Taken)
    requires ShapedAll(nodes)
    ensures var w := SanitizeAll(nodes, true, depth, maxDepth, budget, taken);
      CountAll(w.nodes) + w.budget.nodes <= budget.nodes + Spare(depth, maxDepth, w.budget.nodes)
    decreases nodes, 0
  {
    hide SanitizeNode, Shaped, Count;
    if nodes != [] && budget.nodes > 0 {
      var first := SanitizeNode(nodes[0], depth, maxDepth, budget, taken);
      NodeCountFits(nodes[0], depth, maxDepth, budget, taken);
      ListCountFits(nodes[1..], depth, maxDepth, first.budget, first.taken);
      var rest := SanitizeAll(nodes[1..], true, depth, maxDepth, first.budget, first.taken);
      CountOfMore(first.node, rest.nodes);
      if first.budget.nodes == 0 { assert rest == WalkedAll([], first.budget, first.taken); }
    }
  }

  // Two places: the second may need a stand-in after the first has used the budget up.
  lemma {:induction false} SlotsCountFit(nodes: seq<Node>, depth: nat, maxDepth: nat, budget: Budget, taken: Taken)
    requires ShapedAll(nodes) && |nodes| <= 2 && 1 <= depth <= maxDepth
    ensures var w := SanitizeAll(nodes, false, depth, maxDepth, budget, taken);
      CountAll(w.nodes) + w.budget.nodes <= budget.nodes + (if w.budget.nodes > 0 then 0 else maxDepth - depth + 2)
    ensures var w := SanitizeAll(nodes, false, depth, maxDepth, budget, taken);
      |nodes| <= 1 ==>
        CountAll(w.nodes) + w.budget.nodes
          <= budget.nodes + (if w.budget.nodes > 0 then 0 else maxDepth - depth + 1)
    ensures budget.nodes == 0 ==>
      var w := SanitizeAll(nodes, false, depth, maxDepth, budget, taken);
          CountAll(w.nodes) <= |nodes| && w.budget.nodes == 0
    decreases nodes, 0
  {
    hide SanitizeNode, Shaped, Count;
    if nodes != [] {
      if budget.nodes == 0 {
        SlotsCountFit(nodes[1..], depth, maxDepth, budget, taken);
        CountOfMore(EMPTY, SanitizeAll(nodes[1..], false, depth, maxDepth, budget, taken).nodes);
        EmptyNode();
      } else {
        var first := SanitizeNode(nodes[0], depth, maxDepth, budget, taken);
        NodeCountFits(nodes[0], depth, maxDepth, budget, taken);
        SlotsCountFit(nodes[1..], depth, maxDepth, first.budget, first.taken);
        CountOfMore(first.node, SanitizeAll(nodes[1..], false, depth, maxDepth, first.budget, first.taken).nodes);
      }
    }
  }

  // ---- every other field ---------------------------------------------------------------------------

  predicate Settled(node: Node)
    decreases node, 1
  {
    InBounds(node.fields.other) && SettledAll(node.children)
  }

  predicate SettledAll(nodes: seq<Node>)
    decreases nodes, 0
  {
    nodes == [] || (Settled(nodes[0]) && SettledAll(nodes[1..]))
  }

  lemma SettledMore(first: Node, rest: seq<Node>)
    requires Settled(first) && SettledAll(rest)
    ensures SettledAll([first] + rest)
  {
    assert ([first] + rest)[1..] == rest;
  }

  lemma {:induction false} NodeIsSettled(node: Node, depth: nat, maxDepth: nat, budget: Budget, taken: Taken)
    requires budget.nodes >= 1
    ensures Settled(SanitizeNode(node, depth, maxDepth, budget, taken).node)
    decreases node, 1
  {
    hide ClaimOf, OwnFields;
    if depth < maxDepth {
      var (key, claimed) := ClaimOf(node.key, taken);
      OwnFieldsFit(node.kind, node.fields, budget.(nodes := budget.nodes - 1));
      var (fields, spent) := OwnFields(node.kind, node.fields, budget.(nodes := budget.nodes - 1));
      AllAreSettled(Considered(node), DropsRest(node.kind), depth + 1, maxDepth, spent, claimed);
    }
  }

  lemma {:induction false} AllAreSettled(nodes: seq<Node>, drops: bool, depth: nat, maxDepth: nat, budget: Budget,
      taken: Taken)
    ensures SettledAll(SanitizeAll(nodes, drops, depth, maxDepth, budget, taken).nodes)
    decreases nodes, 0
  {
    hide SanitizeNode, Settled;
    assert Settled(EMPTY) by { EmptyIsSettled(); }
    if nodes != [] {
      if budget.nodes == 0 {
        AllAreSettled(nodes[1..], drops, depth, maxDepth, budget, taken);
        SettledMore(EMPTY, SanitizeAll(nodes[1..], drops, depth, maxDepth, budget, taken).nodes);
      } else {
        var first := SanitizeNode(nodes[0], depth, maxDepth, budget, taken);
        NodeIsSettled(nodes[0], depth, maxDepth, budget, taken);
        AllAreSettled(nodes[1..], drops, depth, maxDepth, first.budget, first.taken);
        SettledMore(first.node, SanitizeAll(nodes[1..], drops, depth, maxDepth, first.budget, first.taken).nodes);
      }
    }
  }

  lemma EmptyIsSettled()
    ensures Settled(EMPTY)
  {
  }

  // ---- a tree within bounds ------------------------------------------------------------------------

  // What a node costs the frame's node budget: itself, and its spans or tracked characters.
  function Extra(node: Node): nat {
    if node.kind == RichText then |node.fields.texts|
    else if node.kind == Kind.Text && node.fields.tracked
        && node.fields.texts != [] then Chars(node.fields.texts[|node.fields.texts| - 1])
    else 0
  }

  function Charge(node: Node): (c: nat)
    ensures c >= 1
    decreases node, 1
  {
    1 + Extra(node) + ChargeAll(node.children)
  }

  function ChargeAll(nodes: seq<Node>): nat
    decreases nodes, 0
  {
    if nodes == [] then 0 else Charge(nodes[0]) + ChargeAll(nodes[1..])
  }

  // Every string within its cap, every other field within its bounds, and no more than two children
  // where only two are kept.
  predicate Modest(node: Node)
    decreases node, 1
  {
    && (node.key.Some? ==> |node.key.value| <= MAX_STRING_BYTES)
    && (forall i :: 0 <= i < |node.fields.texts| ==> |node.fields.texts[i]| <= MAX_STRING_BYTES)
    && InBounds(node.fields.other) && Considered(node) == node.children && ModestAll(node.children)
  }

  predicate ModestAll(nodes: seq<Node>)
    decreases nodes, 0
  {
    nodes == [] || (Modest(nodes[0]) && ModestAll(nodes[1..]))
  }

  // The walk left these nodes alone, charged what they cost, and claimed their keys as they are.
  ghost predicate Untouched(charge: nat, text: nat, keys: seq<Text>, budget: Budget, taken: Taken, left: Budget,
          after: Taken) {
    left.nodes + charge == budget.nodes && left.text + text == budget.text && after.Keys == taken.Keys + Members(keys)
  }

  lemma {:induction false} SpendAll(texts: seq<Text>, left: nat)
    requires TotalOf(texts) <= left && forall i :: 0 <= i < |texts| ==> |texts[i]| <= MAX_STRING_BYTES
    ensures Spend(texts, left) == (texts, left - TotalOf(texts))
  {
    if texts != [] {
      SpendAll(texts[1..], left - |texts[0]|);
      assert texts == [texts[0]] + texts[1..];
    }
  }

  lemma OwnFieldsUntouched(node: Node, budget: Budget)
    requires Extra(node) <= budget.nodes && TotalOf(node.fields.texts) <= budget.text
    requires InBounds(node.fields.other)
    requires forall i :: 0 <= i < |node.fields.texts| ==> |node.fields.texts[i]| <= MAX_STRING_BYTES
    ensures OwnFields(node.kind, node.fields, budget)
        == (node.fields, Budget(budget.nodes - Extra(node), budget.text - TotalOf(node.fields.texts)))
  {
    hide Chars, FirstChars, TotalOf, Spend;
    var texts := node.fields.texts;
    SpendAll(texts, budget.text);
    assert texts[..|texts|] == texts;
    if texts != [] { assert texts[|texts| - 1 := texts[|texts| - 1]] == texts; }
  }

  lemma {:induction false} NodeUntouched(node: Node, depth: nat, maxDepth: nat, budget: Budget, taken: Taken)
    requires Modest(node) && depth + Height(node) <= maxDepth && Charge(node) <= budget.nodes
        && TextIn(node) <= budget.text
    requires AllDiffer(Keys(node)) && Members(Keys(node)) !! taken.Keys && Remembered(taken) && FromTwo(taken)
    ensures var w := SanitizeNode(node, depth, maxDepth, budget, taken);
      w.node == node && Untouched(Charge(node), TextIn(node), Keys(node), budget, taken, w.budget, w.taken)
    decreases node, 1
  {
    hide OwnFields, Claim, Remembered, FromTwo, Extra, KeysOfAll, ChargeAll, TextInAll, HeightOfAll, ModestAll, TotalOf;
    var left := budget.(nodes := budget.nodes - 1);
    KeysSplit(OneKey(node.key), KeysOfAll(node.children), taken);
    KeyUntouched(node.key, taken);
    var (key, claimed) := ClaimOf(node.key, taken);
    OwnFieldsUntouched(node, left);
    var spent := OwnFields(node.kind, node.fields, left).1;
    AllUntouched(node.children, DropsRest(node.kind), depth + 1, maxDepth, spent, claimed);
    assert Members(Keys(node)) == Members(OneKey(node.key)) + Members(KeysOfAll(node.children));
  }

  lemma KeyUntouched(key: Option<Text>, taken: Taken)
    requires (key.Some? ==> |key.value| <= MAX_STRING_BYTES) && Members(OneKey(key)) !! taken.Keys
    requires Remembered(taken) && FromTwo(taken)
    ensures var (claimed, after) := ClaimOf(key, taken);
      claimed == key && after.Keys == taken.Keys + Members(OneKey(key)) && Remembered(after) && FromTwo(after)
  {
    hide Remembered, FromTwo, Claim;
    if key.Some? {
      assert key.value in Members(OneKey(key));
      ClaimIsFresh(key.value, taken);
      assert Members([key.value]) == {key.value};
    }
  }

  // Distinct keys stay distinct in parts, and the parts keep clear of each other and of what is taken.
  lemma KeysSplit(a: seq<Text>, b: seq<Text>, taken: Taken)
    requires AllDiffer(a + b) && Members(a + b) !! taken.Keys
    ensures AllDiffer(a) && AllDiffer(b) && Members(a) !! taken.Keys && Members(b) !! taken.Keys
        && Members(a) !! Members(b)
    ensures Members(a + b) == Members(a) + Members(b)
  {
    var both := a + b;
    assert forall i :: 0 <= i < |a| ==> both[i] == a[i];
    assert forall i :: 0 <= i < |b| ==> both[|a| + i] == b[i];
    assert Members(both) == Members(a) + Members(b);
  }

  lemma {:induction false} AllUntouched(nodes: seq<Node>, drops: bool, depth: nat, maxDepth: nat, budget: Budget,
          taken: Taken)
    requires ModestAll(nodes) && depth + HeightOfAll(nodes) <= maxDepth && ChargeAll(nodes) <= budget.nodes
        && TextInAll(nodes) <= budget.text
    requires AllDiffer(KeysOfAll(nodes)) && Members(KeysOfAll(nodes)) !! taken.Keys && Remembered(taken)
        && FromTwo(taken)
    ensures var w := SanitizeAll(nodes, drops, depth, maxDepth, budget, taken);
      w.nodes == nodes && Untouched(ChargeAll(nodes), TextInAll(nodes), KeysOfAll(nodes), budget, taken, w.budget,
          w.taken)
    decreases nodes, 0
  {
    hide SanitizeNode, Keys, Charge, TextIn, Height, Modest, Remembered, FromTwo;
    if nodes == [] {
      assert Members([]) == {};
    } else {
      KeysSplit(Keys(nodes[0]), KeysOfAll(nodes[1..]), taken);
      NodeUntouched(nodes[0], depth, maxDepth, budget, taken);
      NodeKeysAreClaimed(nodes[0], depth, maxDepth, budget, taken);
      var first := SanitizeNode(nodes[0], depth, maxDepth, budget, taken);
      AllUntouched(nodes[1..], drops, depth, maxDepth, first.budget, first.taken);
    }
  }

  // ---- the theorems --------------------------------------------------------------------------------

  lemma FreshKeysAreSound()
    ensures Remembered(map[]) && FromTwo(map[])
  {
  }

  // Of any tree with the shapes its variants allow: keys pairwise distinct, nothing below the depth
  // limit, text within the frame's budget, every other field within its bounds, and at most the node
  // budget and one empty node per level and one more.
  lemma SanitizedIsBounded(root: Node)
    requires Shaped(root)
    ensures var tree := Sanitized(root);
      && AllDiffer(Keys(tree)) && Height(tree) <= MAX_DEPTH + 1 && TextIn(tree) <= MAX_TEXT_BYTES_PER_FRAME
      && Count(tree) <= MAX_NODES + MAX_DEPTH + 1 && Settled(tree)
  {
    hide SanitizeNode, Shaped, Keys, Height, TextIn, Count, Remembered, FromTwo, Settled;
    var budget := Budget(MAX_NODES, MAX_TEXT_BYTES_PER_FRAME);
    FreshKeysAreSound();
    NodeKeysAreClaimed(root, 0, MAX_DEPTH, budget, map[]);
    NodeIsShallow(root, 0, MAX_DEPTH, budget, map[]);
    NodeTextFits(root, 0, MAX_DEPTH, budget, map[]);
    NodeCountFits(root, 0, MAX_DEPTH, budget, map[]);
    NodeIsSettled(root, 0, MAX_DEPTH, budget, map[]);
  }

  // A tree that keeps within every bound.
  predicate WithinBounds(root: Node) {
    && Modest(root) && Height(root) <= MAX_DEPTH && Charge(root) <= MAX_NODES
      && TextIn(root) <= MAX_TEXT_BYTES_PER_FRAME
    && AllDiffer(Keys(root))
  }

  lemma WellBehavedIsUnchanged(root: Node)
    requires WithinBounds(root)
    ensures Sanitized(root) == root
  {
    hide SanitizeNode, Modest, Keys, Height, TextIn, Charge, Remembered, FromTwo;
    FreshKeysAreSound();
    NodeUntouched(root, 0, MAX_DEPTH, Budget(MAX_NODES, MAX_TEXT_BYTES_PER_FRAME), map[]);
  }
}
