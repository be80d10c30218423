// The sanitizer as it runs (crates/view-wire/src/lib.rs:870-937, 939-1617): one walk that spends the
// frame's budgets and claims its keys as it goes.
module Sanitizers {
  import opened Wrappers
  import opened Texts
  import opened Nodes
  import opened Sanitizing

  class Sanitizer {
    const maxDepth: nat
    var nodes: nat
    var text: nat
    var taken: Taken

    constructor (maxDepth: nat, nodes: nat, text: nat)
      ensures this.maxDepth == maxDepth && Left() == Budget(nodes, text) && taken == map[]
    {
      this.maxDepth, this.nodes, this.text := maxDepth, nodes, text;
      taken := map[];
    }

    function Left(): Budget
      reads this
    {
      Budget(nodes, text)
    }

    // A key already used gets the first free suffix; the count moves past it for good.
    method ClaimKey(key: Text) returns (claimed: Text)
      modifies this`taken
      ensures (claimed, taken) == Claim(key, old(taken))
    {
      hide Suffixed;
      var cut := Cut(key, MAX_STRING_BYTES);
      if cut !in taken {
        taken := taken[cut := 2];
        return cut;
      }
      var nth := taken[cut];
      var unique := Suffixed(cut, nth);
      while unique in taken
        invariant taken == old(taken) && cut in taken
        invariant unique == Suffixed(cut, nth) && FreeFrom(cut, nth, taken) == FreeFrom(cut, taken[cut], taken)
        decreases Ahead(cut, nth, taken)
      {
        AheadShrinks(cut, nth, taken);
        nth := nth + 1;
        unique := Suffixed(cut, nth);
      }
      taken := taken[cut := nth + 1];
      taken := taken[unique := 2];
      claimed := unique;
    }

    method SpendText(content: Text) returns (cut: Text)
      modifies this`text
      ensures cut == Cut(content, Least(old(text), MAX_STRING_BYTES)) && text == old(text) - |cut|
    {
      cut := TruncateTo(content, Least(text, MAX_STRING_BYTES));
      text := text - |cut|;
    }

    method SpendTexts(texts: seq<Text>) returns (spent: seq<Text>)
      modifies this`text
      ensures (spent, text) == Spend(texts, old(text))
    {
      hide *;
      spent := [];
      var index := 0;
      ghost var goal, left := Spend(texts, text).0, Spend(texts, text).1;
      assert texts[0..] == texts && [] + goal == goal;
      while index < |texts|
        invariant index <= |texts| && spent + Spend(texts[index..], text).0 == goal
            && Spend(texts[index..], text).1 == left
      {
        SpendNext(texts, index, text);
        var cut := SpendText(texts[index]);
        Regroup(spent, [cut], Spend(texts[index + 1..], text).0);
        spent := spent + [cut];
        index := index + 1;
      }
      assert texts[index..] == [];
      SpendNothing(text);
      assert spent + [] == spent;
    }

    method SanitizeFields(kind: Kind, fields: Fields) returns (after: Fields)
      modifies this`nodes, this`text
      ensures (after, Left()) == OwnFields(kind, fields, old(Left()))
    {
      hide Spend, Chars;
      if kind == RichText {
        var kept := fields.texts[..Least(nodes, |fields.texts|)];
        nodes := nodes - |kept|;
        var texts := SpendTexts(kept);
        return fields.(texts := texts, other := Bounded(fields.other));
      }
      var texts := SpendTexts(fields.texts);
      if kind == Kind.Text && fields.tracked && texts != [] {
        var content := FirstChars(texts[|texts| - 1], nodes);
        FirstCharsFit(texts[|texts| - 1], nodes);
        nodes := nodes - Chars(content);
        texts := texts[|texts| - 1 := content];
      }
      after := fields.(texts := texts, other := Bounded(fields.other));
    }

    method Walk(node: Node, depth: nat) returns (after: Node)
      requires nodes >= 1
      modifies this
      ensures Walked(after, Left(), taken) == SanitizeNode(node, depth, maxDepth, old(Left()), old(taken))
      decreases node, 1
    {
      hide OwnFields, Claim;
      nodes := nodes - 1;
      if depth >= maxDepth {
        return EMPTY;
      }
      var key := node.key;
      if key.Some? {
        var claimed := ClaimKey(key.value);
        key := Some(claimed);
      }
      var fields := SanitizeFields(node.kind, node.fields);
      var kids := WalkAll(Considered(node), DropsRest(node.kind), depth + 1);
      after := Nodes.Node(node.kind, key, fields, kids);
    }

    // A list stops where the budget ends; a slot past it gets an empty node.
    method WalkAll(children: seq<Node>, drops: bool, depth: nat) returns (kept: seq<Node>)
      modifies this
      ensures WalkedAll(kept, Left(), taken) == SanitizeAll(children, drops, depth, maxDepth, old(Left()), old(taken))
      decreases children, 0
    {
      hide SanitizeNode;
      kept := [];
      var index := 0;
      ghost var goal := SanitizeAll(children, drops, depth, maxDepth, Left(), taken);
      assert children[0..] == children;
      while index < |children|
        invariant index <= |children|
        invariant var rest := SanitizeAll(children[index..], drops, depth, maxDepth, Left(), taken);
          goal == WalkedAll(kept + rest.nodes, rest.budget, rest.taken)
      {
        ghost var rest := children[index..];
        assert rest[0] == children[index] && rest[1..] == children[index + 1..];
        if nodes == 0 && drops {
          assert kept + [] == kept;
          return;
        }
        var child := EMPTY;
        if nodes != 0 {
          child := Walk(children[index], depth);
        }
        Regroup(kept, [child], SanitizeAll(children[index + 1..], drops, depth, maxDepth, Left(), taken).nodes);
        kept := kept + [child];
        index := index + 1;
      }
      assert children[index..] == [] && kept + [] == kept;
    }
  }

  lemma SpendNothing(left: nat)
    ensures Spend([], left) == ([], left)
  {
  }

  lemma SpendNext(texts: seq<Text>, index: nat, left: nat)
    requires index < |texts|
    ensures var cut := Cut(texts[index], Least(left, MAX_STRING_BYTES));
      |cut| <= left
      && Spend(texts[index..], left)
        == ([cut] + Spend(texts[index + 1..], left - |cut|).0, Spend(texts[index + 1..], left - |cut|).1)
  {
    hide Cut, KeepsHead, TotalOf;
    assert texts[index..][0] == texts[index] && texts[index..][1..] == texts[index + 1..];
  }

  // `truncate_to`: back from the limit to a character boundary.
  method TruncateTo(text: Text, limit: nat) returns (cut: Text)
    ensures cut == Cut(text, limit) && KeepsHead(text, cut, limit)
  {
    if |text| <= limit {
      return text;
    }
    var end: nat := limit;
    while !CharBoundary(text, end)
      invariant end <= limit && CutAt(text, end) == CutAt(text, limit)
      decreases end
    {
      end := end - 1;
    }
    cut := text[..end];
  }

  method SanitizeTree(root: Node) returns (tree: Node)
    ensures tree == Sanitized(root)
  {
    var sanitizer := new Sanitizer(MAX_DEPTH, MAX_NODES, MAX_TEXT_BYTES_PER_FRAME);
    tree := sanitizer.Walk(root, 0);
  }
}
