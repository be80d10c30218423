// What the sanitizer keeps (crates/view-wire/src/lib.rs:922-1617): a tree comes out with its own nodes
// where they stood, its strings lose nothing but their ends, and nothing is dropped while the budget
// lasts.
module SanitizerKeeps {
  import opened Wrappers
  import opened Texts
  import opened Nodes
  import opened Sanitizing
  import opened SanitizerCounts

  // ---- one node's own fields -----------------------------------------------------------------------

  // Strings cut one after another, each to its own cap and what the ones before it left.
  ghost predicate CutInOrder(sent: seq<Text>, cut: seq<Text>, left: nat) {
    |sent| == |cut| && (sent == [] ||
      (KeepsHead(sent[0], cut[0], Least(left, MAX_STRING_BYTES)) && CutInOrder(sent[1..], cut[1..], left - |cut[0]|)))
  }

  lemma {:induction false} SpendCuts(texts: seq<Text>, left: nat)
    ensures CutInOrder(texts, Spend(texts, left).0, left)
  {
    hide Cut, KeepsHead;
    if texts != [] {
      var first := Cut(texts[0], Least(left, MAX_STRING_BYTES));
      SpendCuts(texts[1..], left - |first|);
      var rest := Spend(texts[1..], left - |first|).0;
      assert ([first] + rest)[1..] == rest;
    }
  }

  lemma {:induction false} CutFits(sent: seq<Text>, cut: seq<Text>, left: nat)
    requires CutInOrder(sent, cut, left)
    ensures TotalOf(cut) <= left
  {
    if sent != [] { CutFits(sent[1..], cut[1..], left - |cut[0]|); }
  }

  lemma {:induction false} CutFurther(a: seq<Text>, b: seq<Text>, c: seq<Text>, d: seq<Text>, left: nat)
    requires CutInOrder(a, b, left) && TotalOf(b) <= left && CutInOrder(c, d, left - TotalOf(b))
    ensures CutInOrder(a + c, b + d, left) && TotalOf(b + d) == TotalOf(b) + TotalOf(d)
  {
    hide KeepsHead;
    if a == [] {
      assert a + c == c && b + d == d;
    } else {
      CutFurther(a[1..], b[1..], c, d, left - |b[0]|);
      assert (a + c)[1..] == a[1..] + c && (b + d)[1..] == b[1..] + d;
    }
  }

  // The content of a tracked text is its last string; it may also have lost whole characters.
  predicate Tracks(kind: Kind, fields: Fields) {
    kind == Kind.Text && fields.tracked && fields.texts != []
  }

  // What became of a cut string.
  predicate Stays(cut: Text, kept: Text, tracked: bool) {
    kept <= cut && (if tracked then CharBoundary(cut, |kept|) else kept == cut)
  }

  predicate AllStay(cut: seq<Text>, kept: seq<Text>, tracked: seq<bool>) {
    |cut| == |kept| == |tracked| && forall i :: 0 <= i < |cut| ==> Stays(cut[i], kept[i], tracked[i])
  }

  function Flags(kind: Kind, fields: Fields): (flags: seq<bool>)
    ensures |flags| == |fields.texts|
  {
    seq(|fields.texts|, i => Tracks(kind, fields) && i == |fields.texts| - 1)
  }

  function Front(texts: seq<Text>, count: nat): seq<Text> {
    texts[..Least(count, |texts|)]
  }

  // One walk's strings: cut in order from what there was, leaving so much.
  ghost predicate Spent(sent: seq<Text>, cut: seq<Text>, kept: seq<Text>, flags: seq<bool>, text: nat, left: nat) {
    CutInOrder(sent, cut, text) && AllStay(cut, kept, flags) && left + TotalOf(cut) == text
  }

  // The strings of one node, and what is paid for them: all strings but the spans of a rich text that
  // are past the budget, cut in order; the content of a tracked text then keeps as many characters as
  // there are nodes left, and every other string all of them.
  lemma OwnFieldsKeep(kind: Kind, fields: Fields, budget: Budget) returns (cut: seq<Text>)
    ensures var (after, left) := OwnFields(kind, fields, budget);
      var count := if kind == RichText then Least(budget.nodes, |fields.texts|) else |fields.texts|;
      && |after.texts| == count && after.tracked == fields.tracked && after.other == Bounded(fields.other)
      && Spent(Front(fields.texts, count), cut, after.texts, Flags(kind, after), budget.text, left.text)
      && left.nodes == budget.nodes - (
          if kind == RichText then count
          else if Tracks(kind, after) then Least(Chars(cut[count - 1]), budget.nodes)
          else 0)
      && (Tracks(kind, after) ==> Chars(after.texts[count - 1]) == Least(Chars(cut[count - 1]), budget.nodes))
  {
    hide Spend, FirstChars, Chars, CutInOrder, TotalOf;
    var texts := if kind == RichText then fields.texts[..Least(budget.nodes, |fields.texts|)] else fields.texts;
    assert Front(fields.texts, |texts|) == texts;
    cut := Spend(texts, budget.text).0;
    SpendCuts(texts, budget.text);
    SpendIsExact(texts, budget.text);
    if Tracks(kind, fields) { FirstCharsFit(cut[|cut| - 1], budget.nodes); }
  }

  // ---- the tree ------------------------------------------------------------------------------------

  // Every string of a tree, in the order of the walk.
  function StringsOf(node: Node): seq<Text>
    decreases node, 1
  {
    node.fields.texts + StringsOfAll(node.children)
  }

  function StringsOfAll(nodes: seq<Node>): seq<Text>
    decreases nodes, 0
  {
    if nodes == [] then [] else StringsOf(nodes[0]) + StringsOfAll(nodes[1..])
  }

  function FlagsOf(node: Node): seq<bool>
    decreases node, 1
  {
    Flags(node.kind, node.fields) + FlagsOfAll(node.children)
  }

  function FlagsOfAll(nodes: seq<Node>): seq<bool>
    decreases nodes, 0
  {
    if nodes == [] then [] else FlagsOf(nodes[0]) + FlagsOfAll(nodes[1..])
  }

  // The strings that were sent at the places of the strings kept.
  function SentAt(node: Node, kept: Node): seq<Text>
    decreases kept, 1
  {
    Front(node.fields.texts, |kept.fields.texts|) + SentAtAll(Considered(node), kept.children)
  }

  function SentAtAll(nodes: seq<Node>, kept: seq<Node>): seq<Text>
    decreases kept, 0
  {
    if nodes == [] || kept == [] then [] else SentAt(nodes[0], kept[0]) + SentAtAll(nodes[1..], kept[1..])
  }

  lemma SpentFurther(s1: seq<Text>, c1: seq<Text>, k1: seq<Text>, f1: seq<bool>, text: nat, middle: nat,
                     s2: seq<Text>, c2: seq<Text>, k2: seq<Text>, f2: seq<bool>, left: nat)
    requires Spent(s1, c1, k1, f1, text, middle) && Spent(s2, c2, k2, f2, middle, left)
    ensures Spent(s1 + s2, c1 + c2, k1 + k2, f1 + f2, text, left)
  {
    hide CutInOrder, TotalOf, Stays;
    CutFurther(s1, c1, s2, c2, text);
  }

  lemma NothingSpent(text: nat)
    ensures Spent([], [], [], [], text, text)
  {
  }

  lemma EmptyHasNoStrings(node: Node)
    ensures StringsOf(EMPTY) == [] && FlagsOf(EMPTY) == [] && SentAt(node, EMPTY) == []
  {
  }

  lemma StringsSplit(node: Node, kept: Node)
    ensures StringsOf(kept) == kept.fields.texts + StringsOfAll(kept.children)
    ensures FlagsOf(kept) == Flags(kept.kind, kept.fields) + FlagsOfAll(kept.children)
    ensures SentAt(node, kept)
         == Front(node.fields.texts, |kept.fields.texts|) + SentAtAll(Considered(node), kept.children)
  {
    hide StringsOfAll, FlagsOfAll, SentAtAll, Flags, Front, Considered;
  }

  lemma StringsOfMore(nodes: seq<Node>, first: Node, rest: seq<Node>)
    requires nodes != []
    ensures StringsOfAll([first] + rest) == StringsOf(first) + StringsOfAll(rest)
    ensures FlagsOfAll([first] + rest) == FlagsOf(first) + FlagsOfAll(rest)
    ensures SentAtAll(nodes, [first] + rest) == SentAt(nodes[0], first) + SentAtAll(nodes[1..], rest)
  {
    hide StringsOf, FlagsOf, SentAt;
    assert ([first] + rest)[1..] == rest;
  }

  lemma {:induction false} NodeKeepsHeads(node: Node, depth: nat, maxDepth: nat, budget: Budget, taken: Taken)
    returns (cut: seq<Text>)
    requires budget.nodes >= 1
    ensures var w := SanitizeNode(node, depth, maxDepth, budget, taken);
      Spent(SentAt(node, w.node), cut, StringsOf(w.node), FlagsOf(w.node), budget.text, w.budget.text)
    decreases node, 1
  {
    hide ClaimOf, OwnFields, StringsOf, FlagsOf, SentAt, SanitizeAll, CutInOrder, AllStay, Flags, Front, TotalOf,
      Spent, DropsRest;
    if depth >= maxDepth {
      EmptyHasNoStrings(node);
      NothingSpent(budget.text);
      cut := [];
    } else {
      var left := budget.(nodes := budget.nodes - 1);
      var (key, claimed) := ClaimOf(node.key, taken);
      var (fields, spent) := OwnFields(node.kind, node.fields, left);
      var kids := SanitizeAll(Considered(node), DropsRest(node.kind), depth + 1, maxDepth, spent, claimed);
      var kept := Nodes.Node(node.kind, key, fields, kids.nodes);
      var own := OwnFieldsKeep(node.kind, node.fields, left);
      var below := AllKeepHeads(Considered(node), DropsRest(node.kind), depth + 1, maxDepth, spent, claimed);
      StringsSplit(node, kept);
      SpentFurther(Front(node.fields.texts, |fields.texts|), own, fields.texts, Flags(node.kind, fields), budget.text,
                   spent.text, SentAtAll(Considered(node), kids.nodes), below, StringsOfAll(kids.nodes),
                   FlagsOfAll(kids.nodes), kids.budget.text);
      cut := own + below;
    }
  }

  lemma {:induction false} AllKeepHeads(nodes: seq<Node>, drops: bool, depth: nat, maxDepth: nat, budget: Budget,
      taken: Taken)
    returns (cut: seq<Text>)
    ensures var w := SanitizeAll(nodes, drops, depth, maxDepth, budget, taken);
      Spent(SentAtAll(nodes, w.nodes), cut, StringsOfAll(w.nodes), FlagsOfAll(w.nodes), budget.text, w.budget.text)
    decreases nodes, 0
  {
    hide SanitizeNode, StringsOf, FlagsOf, SentAt, Spent;
    cut := [];
    if nodes == [] || (budget.nodes == 0 && drops) {
      NothingSpent(budget.text);
    } else if budget.nodes == 0 {
      cut := AllKeepHeads(nodes[1..], drops, depth, maxDepth, budget, taken);
      var rest := SanitizeAll(nodes[1..], drops, depth, maxDepth, budget, taken);
      EmptyHasNoStrings(nodes[0]);
      StringsOfMore(nodes, EMPTY, rest.nodes);
      assert [] + SentAtAll(nodes[1..], rest.nodes) == SentAtAll(nodes[1..], rest.nodes);
      assert [] + StringsOfAll(rest.nodes) == StringsOfAll(rest.nodes);
      assert [] + FlagsOfAll(rest.nodes) == FlagsOfAll(rest.nodes);
    } else {
      var first := SanitizeNode(nodes[0], depth, maxDepth, budget, taken);
      var rest := SanitizeAll(nodes[1..], drops, depth, maxDepth, first.budget, first.taken);
      var own := NodeKeepsHeads(nodes[0], depth, maxDepth, budget, taken);
      var more := AllKeepHeads(nodes[1..], drops, depth, maxDepth, first.budget, first.taken);
      StringsOfMore(nodes, first.node, rest.nodes);
      SpentFurther(SentAt(nodes[0], first.node), own, StringsOf(first.node), FlagsOf(first.node), budget.text,
                   first.budget.text, SentAtAll(nodes[1..], rest.nodes), more, StringsOfAll(rest.nodes),
                   FlagsOfAll(rest.nodes), rest.budget.text);
      cut := own + more;
    }
  }

  // Every string of a sanitized tree is what was sent at its place, cut in the order of the walk: each
  // to the last character boundary its own cap and the frame's remaining bytes allow, whole where they
  // allow all of it. Only the content of a tracked text may have lost further characters.
  lemma StringsKeepTheirHeads(root: Node) returns (cut: seq<Text>)
    ensures var kept := Sanitized(root);
      && CutInOrder(SentAt(root, kept), cut, MAX_TEXT_BYTES_PER_FRAME)
      && AllStay(cut, StringsOf(kept), FlagsOf(kept))
  {
    hide SanitizeNode, CutInOrder, AllStay, SentAt, StringsOf, FlagsOf, TotalOf;
    cut := NodeKeepsHeads(root, 0, MAX_DEPTH, Budget(MAX_NODES, MAX_TEXT_BYTES_PER_FRAME), map[]);
  }

  // ---- the shape -----------------------------------------------------------------------------------

  // The same node, brought within its bounds: its kind and flags, a key where it had one, its first
  // strings and its first children.
  predicate Mirrors(node: Node, kept: Node, depth: nat)
    decreases kept, 1
  {
    if depth >= MAX_DEPTH then kept == EMPTY
    else
      && kept.kind == node.kind && kept.fields.tracked == node.fields.tracked
      && kept.fields.other == Bounded(node.fields.other) && kept.key.Some? == node.key.Some?
      && |kept.fields.texts| <= |node.fields.texts| && (node.kind != RichText ==>
            |kept.fields.texts| == |node.fields.texts|)
      && |kept.children| <= |Considered(node)| && (!DropsRest(node.kind) ==>
            |kept.children| == |Considered(node)|)
      && MirrorsAll(Considered(node), kept.children, DropsRest(node.kind), depth + 1)
  }

  // Which children count: the first two where there is room for two, and otherwise all; and where a list
  // ends with the budget instead of keeping its places.
  lemma PlacesExactly(node: Node)
    ensures |Considered(node)| <= |node.children| && Considered(node) == node.children[..|Considered(node)|]
    ensures |Considered(node)| < |node.children| <==>
      |node.children| > 2 && (node.kind == Hover || node.kind == Tooltip || node.kind == Overlay)
    ensures |Considered(node)| < |node.children| ==> |Considered(node)| == 2
    ensures DropsRest(node.kind) <==>
      || node.kind == Linear || node.kind == Grid || node.kind == Stack
      || node.kind == KeyedColumn || node.kind == Flex || node.kind == When
  {
    assert node.children[..|node.children|] == node.children;
  }

  // Each in its place, or an empty node where only places are left.
  predicate MirrorsAll(nodes: seq<Node>, kept: seq<Node>, drops: bool, depth: nat)
    decreases kept, 0
  {
    nodes == [] || kept == [] ||
      ((Mirrors(nodes[0], kept[0], depth) || (!drops && kept[0] == EMPTY))
       && MirrorsAll(nodes[1..], kept[1..], drops, depth))
  }

  // Nothing dropped: every child in its place and every span kept.
  predicate Whole(node: Node, kept: Node, depth: nat)
    decreases kept, 1
  {
    depth >= MAX_DEPTH ||
      (|kept.fields.texts| == |node.fields.texts| && |kept.children| == |Considered(node)|
       && WholeAll(Considered(node), kept.children, depth + 1))
  }

  predicate WholeAll(nodes: seq<Node>, kept: seq<Node>, depth: nat)
    decreases kept, 0
  {
    nodes == [] || kept == [] ||
      (Mirrors(nodes[0], kept[0], depth) && Whole(nodes[0], kept[0], depth) && WholeAll(nodes[1..], kept[1..], depth))
  }

  lemma {:induction false} NodeMirrors(node: Node, depth: nat, budget: Budget, taken: Taken)
    requires budget.nodes >= 1
    ensures var w := SanitizeNode(node, depth, MAX_DEPTH, budget, taken);
      && Mirrors(node, w.node, depth) && w.budget.nodes < budget.nodes
      && (w.budget.nodes > 0 ==> Whole(node, w.node, depth))
    decreases node, 1
  {
    hide ClaimOf, OwnFields, SanitizeAll, DropsRest, MirrorsAll, WholeAll;
    if depth < MAX_DEPTH {
      var left := budget.(nodes := budget.nodes - 1);
      var (key, claimed) := ClaimOf(node.key, taken);
      var (fields, spent) := OwnFields(node.kind, node.fields, left);
      KeyStays(node.key, taken);
      FieldsStay(node.kind, node.fields, left);
      AllMirror(Considered(node), DropsRest(node.kind), depth + 1, spent, claimed);
    }
  }

  lemma KeyStays(key: Option<Text>, taken: Taken)
    ensures ClaimOf(key, taken).0.Some? == key.Some?
  {
    hide Claim;
  }

  lemma FieldsStay(kind: Kind, fields: Fields, budget: Budget)
    ensures var (after, left) := OwnFields(kind, fields, budget);
      && after.tracked == fields.tracked && after.other == Bounded(fields.other) && left.nodes <= budget.nodes
      && |after.texts| <= |fields.texts| && (kind != RichText || left.nodes > 0 ==> |after.texts| == |fields.texts|)
  {
    hide OwnFields, CutInOrder, AllStay, TotalOf, Chars, Front;
    var cut := OwnFieldsKeep(kind, fields, budget);
  }

  lemma {:induction false} AllMirror(nodes: seq<Node>, drops: bool, depth: nat, budget: Budget, taken: Taken)
    ensures var w := SanitizeAll(nodes, drops, depth, MAX_DEPTH, budget, taken);
      && MirrorsAll(nodes, w.nodes, drops, depth) && w.budget.nodes <= budget.nodes
      && |w.nodes| <= |nodes| && (!drops || w.budget.nodes > 0 ==> |w.nodes| == |nodes|)
      && (w.budget.nodes > 0 ==> WholeAll(nodes, w.nodes, depth))
    decreases nodes, 0
  {
    hide SanitizeNode, Mirrors, Whole;
    if nodes == [] || (budget.nodes == 0 && drops) {
    } else if budget.nodes == 0 {
      AllMirror(nodes[1..], drops, depth, budget, taken);
      MirrorsMore(nodes, EMPTY, SanitizeAll(nodes[1..], drops, depth, MAX_DEPTH, budget, taken).nodes, drops, depth);
    } else {
      var first := SanitizeNode(nodes[0], depth, MAX_DEPTH, budget, taken);
      NodeMirrors(nodes[0], depth, budget, taken);
      AllMirror(nodes[1..], drops, depth, first.budget, first.taken);
      MirrorsMore(nodes, first.node, SanitizeAll(nodes[1..], drops, depth, MAX_DEPTH, first.budget, first.taken).nodes,
                  drops, depth);
    }
  }

  lemma MirrorsMore(nodes: seq<Node>, first: Node, rest: seq<Node>, drops: bool, depth: nat)
    requires nodes != [] && MirrorsAll(nodes[1..], rest, drops, depth)
    requires Mirrors(nodes[0], first, depth) || (!drops && first == EMPTY)
    ensures MirrorsAll(nodes, [first] + rest, drops, depth)
    ensures Mirrors(nodes[0], first, depth) && Whole(nodes[0], first, depth) && WholeAll(nodes[1..], rest, depth)
        ==> WholeAll(nodes, [first] + rest, depth)
  {
    hide Mirrors, Whole;
    assert ([first] + rest)[1..] == rest;
  }

  // A sanitized tree is the tree that was sent: its nodes in their places, brought within bounds, and an
  // empty node below the depth limit or in a place that must be filled. While nodes of the budget are
  // left over, no child, span or place was given up at all.
  lemma SanitizedMirrors(root: Node)
    ensures Mirrors(root, Sanitized(root), 0)
    ensures FrameToll(root).left.nodes > 0 ==> Whole(root, Sanitized(root), 0)
  {
    hide SanitizeNode, Mirrors, Whole, TollOf, Count, Extras;
    NodeMirrors(root, 0, Budget(MAX_NODES, MAX_TEXT_BYTES_PER_FRAME), map[]);
    NodeIsAccounted(root, 0, MAX_DEPTH, Budget(MAX_NODES, MAX_TEXT_BYTES_PER_FRAME), map[]);
  }
}
