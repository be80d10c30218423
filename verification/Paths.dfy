// Full paths as the read side compares them (crates/duckfs/core/src/queries.rs:777-830).
module Paths {
  import opened Wrappers
  import opened Texts
  import opened Order

  const SLASH: Byte := 47

  function Join(base: Text, name: Text): Text {
    base + [SLASH] + name
  }

  // `path.split('/')`.
  function Split(path: Text): (segments: seq<Text>)
    ensures |segments| >= 1
  {
    if path == [] then [[]]
    else
      var rest := Split(path[1..]);
      if path[0] == SLASH then [[]] + rest else [[path[0]] + rest[0]] + rest[1..]
  }

  predicate StartsWith(path: Text, prefix: Text) {
    |prefix| <= |path| && path[..|prefix|] == prefix
  }

  predicate SubtreeMayMatch(child: Text, prefix: Text) {
    StartsWith(child, prefix) || StartsWith(prefix, child)
  }

  predicate PathAfter(path: Text, cursor: Option<Text>) {
    cursor.None? || PathBelow(Split(cursor.value), Split(path))
  }

  predicate SubtreeAfter(child: Text, cursor: Option<Text>) {
    cursor.None? || ZipAfter(Split(child), Split(cursor.value))
  }

  // The first pair of differing segments decides; running out of either keeps the subtree.
  predicate ZipAfter(child: seq<Text>, cursor: seq<Text>) {
    child == [] || cursor == [] || Below(cursor[0], child[0])
    || (!Below(child[0], cursor[0]) && ZipAfter(child[1..], cursor[1..]))
  }

  lemma {:induction false} SplitJoin(base: Text, name: Text)
    requires SLASH !in name
    ensures Split(Join(base, name)) == Split(base) + [name]
  {
    if base == [] {
      assert Join(base, name)[1..] == name;
      SplitName(name);
    } else {
      assert Join(base, name)[1..] == Join(base[1..], name);
      SplitJoin(base[1..], name);
    }
  }

  lemma {:induction false} SplitName(name: Text)
    requires SLASH !in name
    ensures Split(name) == [name]
  {
    if name != [] {
      SplitName(name[1..]);
      assert [name[0]] + name[1..] == name;
    }
  }

  // A subtree the prefix test prunes holds no path the prefix matches.
  lemma PrefixPruneLosesNothing(child: Text, more: Text, prefix: Text)
    ensures StartsWith(child + more, prefix) ==> SubtreeMayMatch(child, prefix)
  {
    var path := child + more;
    if StartsWith(path, prefix) {
      if |prefix| <= |child| {
        assert child[..|prefix|] == path[..|prefix|];
      } else {
        assert prefix[..|child|] == path[..|prefix|][..|child|] == child;
      }
    }
  }

  // A subtree the cursor test prunes lies entirely at or before the cursor.
  lemma {:induction false} CursorPruneLosesNothing(child: seq<Text>, more: seq<Text>, cursor: seq<Text>)
    requires !ZipAfter(child, cursor)
    ensures !PathBelow(cursor, child + more)
  {
    assert (child + more)[0] == child[0] && (child + more)[1..] == child[1..] + more;
    BelowTotal(child[0], cursor[0]);
    if child[0] == cursor[0] {
      CursorPruneLosesNothing(child[1..], more, cursor[1..]);
    }
  }
}
