// The sanitizer (crates/view-wire/src/lib.rs:656-1660): what is left of an untrusted tree once its
// depth, its nodes, its text and its keys are brought within bounds.
module Sanitizing {
  import opened Wrappers
  import opened Texts
  import opened Nodes

  const MAX_DEPTH: nat := 64
  const MAX_NODES: nat := 8_192
  const MAX_STRING_BYTES: nat := 65_536
  const MAX_TEXT_BYTES_PER_FRAME: nat := MAX_STRING_BYTES

  // ---- strings -------------------------------------------------------------------------------------

  // The last character boundary at or before a limit.
  function CutAt(text: Text, limit: nat): (at: nat)
    requires limit <= |text|
    ensures at <= limit && CharBoundary(text, at)
    ensures forall b :: at < b <= limit ==> !CharBoundary(text, b)
  {
    if CharBoundary(text, limit) then limit else CutAt(text, limit - 1)
  }

  // As much of a string as a limit takes: all of it, or its bytes up to the last character boundary
  // at or before the limit.
  ghost predicate KeepsHead(text: Text, cut: Text, limit: nat) {
    && cut <= text && |cut| <= limit
    && if |text| <= limit then cut == text
       else CharBoundary(text, |cut|) && forall b :: |cut| < b <= limit ==> !CharBoundary(text, b)
  }

  // `truncate_to`.
  function Cut(text: Text, limit: nat): (cut: Text)
    ensures |cut| <= limit && cut <= text && (|text| <= limit ==> cut == text)
    ensures KeepsHead(text, cut, limit)
  {
    if |text| <= limit then text else text[..CutAt(text, limit)]
  }

  // How many characters a string holds: its bytes that do not continue one.
  function Chars(text: Text): (n: nat)
    ensures n <= |text|
  {
    if text == [] then 0 else (if 0x80 <= text[0] < 0xC0 then 0 else 1) + Chars(text[1..])
  }

  // The first so many characters.
  function FirstChars(text: Text, count: nat): (cut: Text)
    ensures cut <= text && CharBoundary(text, |cut|) && (Chars(text) <= count ==> cut == text)
  {
    if text == [] then []
    else
      var starts := !(0x80 <= text[0] < 0xC0);
      if starts && count == 0 then []
      else
        var rest := FirstChars(text[1..], if starts then count - 1 else count);
        [text[0]] + rest
  }

  lemma {:induction false} FirstCharsFit(text: Text, count: nat)
    ensures Chars(FirstChars(text, count)) == Least(Chars(text), count)
  {
    if text != [] {
      var starts := !(0x80 <= text[0] < 0xC0);
      if !(starts && count == 0) {
        var rest := FirstChars(text[1..], if starts then count - 1 else count);
        FirstCharsFit(text[1..], if starts then count - 1 else count);
        assert ([text[0]] + rest)[1..] == rest;
      }
    }
  }

  // ---- keys ----------------------------------------------------------------------------------------

  // Every key claimed, with the suffix its next duplicate will try.
  type Taken = map<Text, nat>

  function Digits(n: nat): Text {
    if n < 10 then ['0' as int + n] else Digits(n / 10) + ['0' as int + n % 10]
  }

  function Suffixed(key: Text, n: nat): Text {
    key + ['#' as int] + Digits(n)
  }

  // What a row of digits is worth, read from the left.
  function Worth(digits: Text): int {
    if digits == [] then 0 else 10 * Worth(digits[..|digits| - 1]) + digits[|digits| - 1] - 48
  }

  // A number is written in decimal, without leading zeros.
  lemma {:induction false} DigitsAreDecimal(n: nat)
    ensures Worth(Digits(n)) == n && (n > 0 ==> Digits(n)[0] != 48) && (n == 0 ==> Digits(n) == [48])
    ensures forall i :: 0 <= i < |Digits(n)| ==> 48 <= Digits(n)[i] < 58
  {
    var digits := Digits(n);
    if n >= 10 {
      DigitsAreDecimal(n / 10);
      assert digits[..|digits| - 1] == Digits(n / 10);
    } else {
      assert digits[..0] == [];
    }
  }

  lemma {:induction false} DigitsDiffer(m: nat, n: nat)
    requires Digits(m) == Digits(n)
    ensures m == n
  {
    var a, b := Digits(m), Digits(n);
    assert a[|a| - 1] == '0' as int + m % 10 && b[|b| - 1] == '0' as int + n % 10;
    if m >= 10 && n >= 10 {
      assert a[..|a| - 1] == Digits(m / 10) && b[..|b| - 1] == Digits(n / 10);
      DigitsDiffer(m / 10, n / 10);
    } else {
      DigitsLong(m);
      DigitsLong(n);
    }
  }

  lemma DigitsLong(n: nat)
    ensures |Digits(n)| >= 1 && (n >= 10 ==> |Digits(n)| >= 2)
  {
  }

  lemma SuffixesDiffer(key: Text, m: nat, n: nat)
    ensures Suffixed(key, m) == Suffixed(key, n) ==> m == n
    ensures Suffixed(key, m) != key
  {
    var front := key + ['#' as int];
    assert Suffixed(key, m)[|front|..] == Digits(m) && Suffixed(key, n)[|front|..] == Digits(n);
    if Suffixed(key, m) == Suffixed(key, n) { DigitsDiffer(m, n); }
    assert |Suffixed(key, m)| > |key|;
  }

  // The claimed keys no suffix below `n` accounts for: what a search from `n` may still run into.
  function Unreached(key: Text, n: nat, taken: Taken): set<Text> {
    set k | k in taken && forall i :: 0 <= i < n ==> k != Suffixed(key, i)
  }

  ghost function Ahead(key: Text, n: nat, taken: Taken): nat {
    |Unreached(key, n, taken)|
  }

  lemma AheadShrinks(key: Text, n: nat, taken: Taken)
    requires Suffixed(key, n) in taken
    ensures Ahead(key, n + 1, taken) < Ahead(key, n, taken)
  {
    hide Suffixed;
    forall i | 0 <= i < n
      ensures Suffixed(key, n) != Suffixed(key, i)
    {
      SuffixesDiffer(key, n, i);
    }
    assert Unreached(key, n, taken) == Unreached(key, n + 1, taken) + {Suffixed(key, n)};
  }

  // The first free suffix from `n` on.
  function FreeFrom(key: Text, n: nat, taken: Taken): (first: nat)
    ensures first >= n && Suffixed(key, first) !in taken
    ensures forall m :: n <= m < first ==> Suffixed(key, m) in taken
    decreases Ahead(key, n, taken)
  {
    if Suffixed(key, n) !in taken then n
    else
      AheadShrinks(key, n, taken);
      FreeFrom(key, n + 1, taken)
  }

  function Claim(key: Text, taken: Taken): (Text, Taken) {
    var cut := Cut(key, MAX_STRING_BYTES);
    if cut !in taken then (cut, taken[cut := 2])
    else
      var n := FreeFrom(cut, taken[cut], taken);
      (Suffixed(cut, n), taken[cut := n + 1][Suffixed(cut, n) := 2])
  }

  // The suffixes below the one a key would try next are all gone, so no search goes over ground an
  // earlier one covered.
  predicate Remembered(taken: Taken) {
    forall key, n :: key in taken && 2 <= n < taken[key] ==> Suffixed(key, n) in taken
  }

  predicate FromTwo(taken: Taken) {
    forall key :: key in taken ==> taken[key] >= 2
  }

  lemma SuffixIs(key: Text)
    ensures forall n :: Suffixed(key, n) == key + [35] + Digits(n)
  {
  }

  // A claimed key is new, is claimed from then on, and is the key itself unless that was taken: then
  // it is the key, a `#` and the first number from 2 on that makes it new, and the next search for that
  // key starts past it.
  lemma ClaimIsFresh(key: Text, taken: Taken)
    requires Remembered(taken) && FromTwo(taken)
    ensures var (claimed, after) := Claim(key, taken);
      && claimed !in taken && after.Keys == taken.Keys + {claimed}
      && Remembered(after) && FromTwo(after)
      && (|key| <= MAX_STRING_BYTES && key !in taken ==> claimed == key)
    ensures var (cut, claimed, after) := (Cut(key, MAX_STRING_BYTES), Claim(key, taken).0, Claim(key, taken).1);
      if cut !in taken then claimed == cut && after[cut] == 2
      else exists n :: (n >= 2 && claimed == cut + [35] + Digits(n) && after[cut] == n + 1
        && forall m :: 2 <= m < n ==> cut + [35] + Digits(m) in taken)
  {
    var cut := Cut(key, MAX_STRING_BYTES);
    SuffixIs(cut);
    hide Suffixed, Cut;
    if cut in taken {
      var n := FreeFrom(cut, taken[cut], taken);
      SuffixesDiffer(cut, n, n);
    }
  }

  // ---- one node's own fields -----------------------------------------------------------------------

  // What is left of the frame's budgets.
  datatype Budget = Budget(nodes: nat, text: nat)

  function Least(a: nat, b: nat): nat {
    if a < b then a else b
  }

  // Each string takes what it can of what is left, in order.
  function Spend(texts: seq<Text>, left: nat): (spent: (seq<Text>, nat))
    ensures |spent.0| == |texts| && spent.1 <= left
  {
    if texts == [] then ([], left)
    else
      var first := Cut(texts[0], Least(left, MAX_STRING_BYTES));
      var (rest, after) := Spend(texts[1..], left - |first|);
      ([first] + rest, after)
  }

  // What is kept and what is left make up what there was.
  lemma {:induction false} SpendIsExact(texts: seq<Text>, left: nat)
    ensures TotalOf(Spend(texts, left).0) + Spend(texts, left).1 == left
  {
    hide Cut;
    if texts != [] {
      var first := Cut(texts[0], Least(left, MAX_STRING_BYTES));
      SpendIsExact(texts[1..], left - |first|);
      var rest := Spend(texts[1..], left - |first|).0;
      assert ([first] + rest)[1..] == rest;
    }
  }

  function TotalOf(texts: seq<Text>): nat {
    if texts == [] then 0 else |texts[0]| + TotalOf(texts[1..])
  }

  // A rich text pays a node per span. A tracked text pays one per character, and keeps no more
  // characters than it can pay for.
  function OwnFields(kind: Kind, fields: Fields, budget: Budget): (Fields, Budget) {
    if kind == RichText then
      var kept := fields.texts[..Least(budget.nodes, |fields.texts|)];
      var (texts, left) := Spend(kept, budget.text);
      (fields.(texts := texts, other := Bounded(fields.other)), Budget(budget.nodes - |kept|, left))
    else
      var (texts, left) := Spend(fields.texts, budget.text);
      if kind == Kind.Text && fields.tracked && texts != [] then
        var content := FirstChars(texts[|texts| - 1], budget.nodes);
        FirstCharsFit(texts[|texts| - 1], budget.nodes);
        (fields.(texts := texts[|texts| - 1 := content], other := Bounded(fields.other)),
         Budget(budget.nodes - Chars(content), left))
      else
        (fields.(texts := texts, other := Bounded(fields.other)), Budget(budget.nodes, left))
  }

  lemma {:induction false} TotalUpdate(texts: seq<Text>, i: nat, text: Text)
    requires i < |texts| && |text| <= |texts[i]|
    ensures TotalOf(texts[i := text]) <= TotalOf(texts)
  {
    if i > 0 {
      assert texts[i := text][1..] == texts[1..][i - 1 := text];
      TotalUpdate(texts[1..], i - 1, text);
    } else {
      assert texts[0 := text][1..] == texts[1..];
    }
  }

  lemma OwnFieldsFit(kind: Kind, fields: Fields, budget: Budget)
    ensures var (after, left) := OwnFields(kind, fields, budget);
      && left.nodes <= budget.nodes && TotalOf(after.texts) + left.text <= budget.text
      && InBounds(after.other)
  {
    hide FirstChars, Chars, TotalOf, Spend;
    SpendIsExact(fields.texts[..Least(budget.nodes, |fields.texts|)], budget.text);
    SpendIsExact(fields.texts, budget.text);
    if kind == Kind.Text && fields.tracked {
      var (texts, left) := Spend(fields.texts, budget.text);
      if texts != [] { TotalUpdate(texts, |texts| - 1, FirstChars(texts[|texts| - 1], budget.nodes)); }
    }
  }

  // ---- the walk ------------------------------------------------------------------------------------

  // The variants whose list is cut short where the budget ends; every other child keeps its place
  // and an empty node stands in for it.
  predicate DropsRest(kind: Kind) {
    kind in {Linear, Grid, Stack, KeyedColumn, Flex, When}
  }

  function Considered(node: Node): seq<Node> {
    if node.kind in {Hover, Tooltip, Overlay} && |node.children| > 2 then node.children[..2] else node.children
  }

  datatype Walked = Walked(node: Node, budget: Budget, taken: Taken)

  datatype WalkedAll = WalkedAll(nodes: seq<Node>, budget: Budget, taken: Taken)

  function ClaimOf(key: Option<Text>, taken: Taken): (Option<Text>, Taken) {
    if key.None? then (None, taken)
    else
      var (claimed, after) := Claim(key.value, taken);
      (Some(claimed), after)
  }

  function SanitizeNode(node: Node, depth: nat, maxDepth: nat, budget: Budget, taken: Taken): (w: Walked)
    requires budget.nodes >= 1
    decreases node, 1
  {
    var left := budget.(nodes := budget.nodes - 1);
    if depth >= maxDepth then Walked(EMPTY, left, taken)
    else
      var (key, claimed) := ClaimOf(node.key, taken);
      var (fields, spent) := OwnFields(node.kind, node.fields, left);
      var kids := SanitizeAll(Considered(node), DropsRest(node.kind), depth + 1, maxDepth, spent, claimed);
      Walked(Nodes.Node(node.kind, key, fields, kids.nodes), kids.budget, kids.taken)
  }

  function SanitizeAll(nodes: seq<Node>, drops: bool, depth: nat, maxDepth: nat, budget: Budget,
          taken: Taken): (w: WalkedAll)
    decreases nodes, 0
  {
    if nodes == [] then WalkedAll([], budget, taken)
    else if budget.nodes == 0 then
      if drops then WalkedAll([], budget, taken)
      else
        var rest := SanitizeAll(nodes[1..], drops, depth, maxDepth, budget, taken);
        WalkedAll([EMPTY] + rest.nodes, rest.budget, rest.taken)
    else
      var first := SanitizeNode(nodes[0], depth, maxDepth, budget, taken);
      var rest := SanitizeAll(nodes[1..], drops, depth, maxDepth, first.budget, first.taken);
      WalkedAll([first.node] + rest.nodes, rest.budget, rest.taken)
  }

  function Sanitized(root: Node): Node {
    SanitizeNode(root, 0, MAX_DEPTH, Budget(MAX_NODES, MAX_TEXT_BYTES_PER_FRAME), map[]).node
  }
}
