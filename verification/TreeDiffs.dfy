// The diff of two committed trees (crates/duckfs/core/src/queries.rs:613-775): a walk in merged
// name order that skips every subtree both sides share.
module TreeDiffs {
  import opened Wrappers
  import opened Texts
  import opened Kinds
  import opened Order
  import opened Paths
  import opened Trees

  const MAX_DIFF_ENTRIES := 4096

  datatype DiffKind = Added | Removed | Modified

  // A change at a path relative to the directory at hand.
  datatype Change = Change(segments: seq<Text>, kind: DiffKind)

  // ---- what each path of the two trees calls for ----------------------------------------------

  function Get(children: seq<Child>, name: Text): Option<Entry> {
    if children == [] then None
    else if children[0].name == name then Some(children[0].entry)
    else Get(children[1..], name)
  }

  // The directory entries below an entry; a leaf, a missing entry and an unreadable one have none.
  function Under(entry: Option<Entry>): seq<Child> {
    if entry.Some? && entry.value.kind == Dir && entry.value.below.Listed? then entry.value.below.children else []
  }

  // The entry at a path below `entry`.
  function At(entry: Option<Entry>, segments: seq<Text>): Option<Entry>
    decreases |segments|
  {
    if segments == [] then entry else At(Get(Under(entry), segments[0]), segments[1..])
  }

  // A stored entry: its kind, object id, executable bit and size.
  predicate SameEntry(f: Entry, t: Entry) {
    f.kind == t.kind && f.id == t.id && f.exec == t.exec && f.size == t.size
  }

  // The change a path calls for, from the two entries there alone.
  function Expected(f: Option<Entry>, t: Option<Entry>): Option<DiffKind> {
    match (f, t)
    case (None, None) => None
    case (Some(_), None) => Some(Removed)
    case (None, Some(_)) => Some(Added)
    case (Some(x), Some(y)) =>
      if SameEntry(x, y) || (x.kind == Dir && y.kind == Dir) then None else Some(Modified)
  }

  // Added where only the second tree has an entry, removed where only the first has one, and modified
  // where both have one, not both a directory, that differ in kind, object, executable bit or size.
  lemma ExpectedExactly(f: Option<Entry>, t: Option<Entry>, kind: DiffKind)
    ensures Expected(f, t) == Some(kind) <==> match kind
      case Added => f.None? && t.Some?
      case Removed => f.Some? && t.None?
      case Modified =>
        && f.Some? && t.Some? && !(f.value.kind == t.value.kind == Dir)
        && (f.value.kind, f.value.id, f.value.exec, f.value.size)
           != (t.value.kind, t.value.id, t.value.exec, t.value.size)
  {
  }

  // ---- the walk without prefix, cap or sharing -------------------------------------------------

  function Size(children: seq<Child>): nat
    decreases children, 1
  {
    if children == [] then 0 else EntrySize(children[0].entry) + Size(children[1..])
  }

  function EntrySize(entry: Entry): nat
    decreases entry, 0
  {
    1 + if entry.below.Listed? then Size(entry.below.children) else 0
  }

  function SizeOf(entry: Option<Entry>): nat {
    if entry.None? then 0 else EntrySize(entry.value)
  }

  lemma {:induction false} GetSize(children: seq<Child>, name: Text)
    ensures SizeOf(Get(children, name)) <= Size(children)
  {
    if children != [] { GetSize(children[1..], name); }
  }

  // The names of both directories, merged: ascending, each once.
  function Names(a: seq<Child>, b: seq<Child>): seq<Text> {
    if a == [] && b == [] then []
    else if b == [] || (a != [] && Below(a[0].name, b[0].name)) then [a[0].name] + Names(a[1..], b)
    else if a == [] || Below(b[0].name, a[0].name) then [b[0].name] + Names(a, b[1..])
    else [a[0].name] + Names(a[1..], b[1..])
  }

  function Compare(f: Option<Entry>, t: Option<Entry>): seq<Change>
    decreases SizeOf(f) + SizeOf(t), 0, 0
  {
    if f == t == None then []
    else Own(f, t) + CompareNames(Names(Under(f), Under(t)), Under(f), Under(t))
  }

  function Own(f: Option<Entry>, t: Option<Entry>): seq<Change> {
    if Expected(f, t).Some? then [Change([], Expected(f, t).value)] else []
  }

  function CompareNames(names: seq<Text>, a: seq<Child>, b: seq<Child>): seq<Change>
    decreases Size(a) + Size(b), 1, |names|
  {
    if names == [] then []
    else
      GetSize(a, names[0]);
      GetSize(b, names[0]);
      Nested(names[0], Compare(Get(a, names[0]), Get(b, names[0]))) + CompareNames(names[1..], a, b)
  }

  // The same changes, addressed from the parent.
  function Nested(name: Text, changes: seq<Change>): (r: seq<Change>)
    ensures |r| == |changes|
    ensures forall i :: 0 <= i < |r| ==> r[i] == Change([name] + changes[i].segments, changes[i].kind)
  {
    if changes == [] then [] else [Change([name] + changes[0].segments, changes[0].kind)] + Nested(name, changes[1..])
  }

  // ---- it lists exactly the changes called for, each once, in path order ------------------------

  // A path is listed exactly when the two entries there call for it, and as what they call for.
  lemma {:induction false} CompareMeans(f: Option<Entry>, t: Option<Entry>, c: Change)
    ensures c in Compare(f, t) <==> Expected(At(f, c.segments), At(t, c.segments)) == Some(c.kind)
    decreases SizeOf(f) + SizeOf(t), 0, 0
  {
    if f == t == None {
      NothingBelowNothing(c.segments);
    } else {
      var names := Names(Under(f), Under(t));
      NamesAre(Under(f), Under(t));
      CompareNamesMeans(names, Under(f), Under(t), c);
      if c.segments != [] {
        var name, rest := c.segments[0], c.segments[1..];
        if name !in names { NothingBelowNothing(rest); }
      }
    }
  }

  lemma {:induction false} NothingBelowNothing(segments: seq<Text>)
    ensures At(None, segments) == None
  {
    if segments != [] { NothingBelowNothing(segments[1..]); }
  }

  lemma {:induction false} CompareNamesMeans(names: seq<Text>, a: seq<Child>, b: seq<Child>, c: Change)
    ensures c in CompareNames(names, a, b) <==>
              c.segments != [] && c.segments[0] in names
              && Expected(At(Get(a, c.segments[0]), c.segments[1..]), At(Get(b, c.segments[0]), c.segments[1..]))
                == Some(c.kind)
    decreases Size(a) + Size(b), 1, |names|
  {
    if names != [] {
      var name := names[0];
      GetSize(a, name);
      GetSize(b, name);
      var inner := Compare(Get(a, name), Get(b, name));
      CompareNamesMeans(names[1..], a, b, c);
      NestedMember(name, inner, c);
      if c.segments != [] { CompareMeans(Get(a, name), Get(b, name), Change(c.segments[1..], c.kind)); }
    }
  }

  lemma NestedMember(name: Text, changes: seq<Change>, c: Change)
    ensures c in Nested(name, changes) <==>
              c.segments != [] && c.segments[0] == name && Change(c.segments[1..], c.kind) in changes
  {
    if c.segments != [] && c.segments[0] == name && Change(c.segments[1..], c.kind) in changes {
      var i :| 0 <= i < |changes| && changes[i] == Change(c.segments[1..], c.kind);
      assert [name] + c.segments[1..] == c.segments;
      assert Nested(name, changes)[i] == c;
    }
    if c in Nested(name, changes) {
      var i :| 0 <= i < |changes| && Nested(name, changes)[i] == c;
      assert c.segments[1..] == changes[i].segments;
    }
  }

  lemma {:induction false} NamesAre(a: seq<Child>, b: seq<Child>)
    ensures forall n :: n in Names(a, b) <==> Get(a, n).Some? || Get(b, n).Some?
  {
    if a == [] && b == [] {
    } else if b == [] || (a != [] && Below(a[0].name, b[0].name)) {
      NamesAre(a[1..], b);
    } else if a == [] || Below(b[0].name, a[0].name) {
      NamesAre(a, b[1..]);
    } else {
      BelowTotal(a[0].name, b[0].name);
      NamesAre(a[1..], b[1..]);
    }
  }

  ghost predicate AscendingNames(names: seq<Text>) {
    forall i, j :: 0 <= i < j < |names| ==> Below(names[i], names[j])
  }

  ghost predicate AscendingChanges(changes: seq<Change>) {
    forall i, j :: 0 <= i < j < |changes| ==> PathBelow(changes[i].segments, changes[j].segments)
  }

  lemma {:induction false} NamesAscend(a: seq<Child>, b: seq<Child>)
    requires Ascending(a) && Ascending(b)
    ensures AscendingNames(Names(a, b))
    ensures forall n :: n in Names(a, b) ==>
              (a != [] && (n == a[0].name || Below(a[0].name, n)))
                  || (b != [] && (n == b[0].name || Below(b[0].name, n)))
  {
    if a == [] && b == [] {
    } else if b == [] || (a != [] && Below(a[0].name, b[0].name)) {
      NamesAscend(a[1..], b);
      FirstIsLeast(a[0].name, Names(a[1..], b), a[1..], b);
    } else if a == [] || Below(b[0].name, a[0].name) {
      NamesAscend(a, b[1..]);
      FirstIsLeast(b[0].name, Names(a, b[1..]), a, b[1..]);
    } else {
      BelowTotal(a[0].name, b[0].name);
      NamesAscend(a[1..], b[1..]);
      FirstIsLeast(a[0].name, Names(a[1..], b[1..]), a[1..], b[1..]);
    }
  }

  lemma FirstIsLeast(first: Text, names: seq<Text>, a: seq<Child>, b: seq<Child>)
    requires AscendingNames(names)
    requires a != [] ==> Below(first, a[0].name)
    requires b != [] ==> Below(first, b[0].name)
    requires forall n :: n in names ==>
               (a != [] && (n == a[0].name || Below(a[0].name, n)))
                   || (b != [] && (n == b[0].name || Below(b[0].name, n)))
    ensures AscendingNames([first] + names) && forall n :: n in names ==> Below(first, n)
  {
    forall n | n in names
      ensures Below(first, n)
    {
      if a != [] && Below(a[0].name, n) { BelowTransitive(first, a[0].name, n); }
      if b != [] && Below(b[0].name, n) { BelowTransitive(first, b[0].name, n); }
    }
  }

  ghost predicate SortedEntry(entry: Option<Entry>) {
    entry.Some? && entry.value.kind == Dir ==> Sorted(entry.value.below)
  }

  lemma {:induction false} GetSorted(children: seq<Child>, name: Text)
    requires SortedAll(children)
    ensures SortedEntry(Get(children, name))
  {
    if children != [] && children[0].name != name { GetSorted(children[1..], name); }
  }

  // Changes come in path order, so no path is listed twice.
  lemma {:induction false} CompareAscends(f: Option<Entry>, t: Option<Entry>)
    requires SortedEntry(f) && SortedEntry(t)
    ensures AscendingChanges(Compare(f, t))
    decreases SizeOf(f) + SizeOf(t), 0, 0
  {
    if !(f == t == None) {
      var a, b := Under(f), Under(t);
      assert SortedAll(a) && SortedAll(b);
      NamesAscend(a, b);
      CompareNamesAscends(Names(a, b), a, b);
      hide CompareNames, Names, SortedAll;
      forall c | c in CompareNames(Names(a, b), a, b)
        ensures PathBelow([], c.segments)
      {
        CompareNamesMeans(Names(a, b), a, b, c);
      }
      AscendTogether(Own(f, t), CompareNames(Names(a, b), a, b));
    }
  }

  lemma NestedBeforeLater(name: Text, inner: seq<Change>, names: seq<Text>, a: seq<Child>, b: seq<Child>, c: Change,
                          d: Change)
    requires c in Nested(name, inner) && d in CompareNames(names, a, b)
    requires forall n :: n in names ==> Below(name, n)
    ensures PathBelow(c.segments, d.segments)
  {
    hide Nested, CompareNames, Below;
    NestedMember(name, inner, c);
    CompareNamesMeans(names, a, b, d);
  }

  lemma NestedAscends(name: Text, inner: seq<Change>)
    requires AscendingChanges(inner)
    ensures AscendingChanges(Nested(name, inner))
  {
    hide Nested;
    BelowTotal(name, name);
    forall i, j | 0 <= i < j < |inner|
      ensures PathBelow(Nested(name, inner)[i].segments, Nested(name, inner)[j].segments)
    {
      assert ([name] + inner[i].segments)[1..] == inner[i].segments
          && ([name] + inner[j].segments)[1..] == inner[j].segments;
    }
  }

  lemma AscendTogether(a: seq<Change>, b: seq<Change>)
    requires AscendingChanges(a) && AscendingChanges(b)
    requires forall c, d :: c in a && d in b ==> PathBelow(c.segments, d.segments)
    ensures AscendingChanges(a + b)
  {
    hide PathBelow;
  }

  lemma CompareNamesNext(names: seq<Text>, a: seq<Child>, b: seq<Child>)
    requires names != []
    ensures CompareNames(names, a, b)
         == Nested(names[0], Compare(Get(a, names[0]), Get(b, names[0]))) + CompareNames(names[1..], a, b)
  {
  }

  lemma {:induction false} CompareNamesAscends(names: seq<Text>, a: seq<Child>, b: seq<Child>)
    requires SortedAll(a) && SortedAll(b) && AscendingNames(names)
    ensures AscendingChanges(CompareNames(names, a, b))
    decreases Size(a) + Size(b), 1, |names|
  {
    if names != [] {
      var name := names[0];
      GetSize(a, name);
      GetSize(b, name);
      GetSorted(a, name);
      GetSorted(b, name);
      var inner := Compare(Get(a, name), Get(b, name));
      CompareAscends(Get(a, name), Get(b, name));
      CompareNamesAscends(names[1..], a, b);
      var later := CompareNames(names[1..], a, b);
      forall c, d | c in Nested(name, inner) && d in later
        ensures PathBelow(c.segments, d.segments)
      {
        NestedBeforeLater(name, inner, names[1..], a, b, c, d);
      }
      NestedAscends(name, inner);
      hide *;
      AscendTogether(Nested(name, inner), later);
      CompareNamesNext(names, a, b);
    }
  }

  // ---- sharing ---------------------------------------------------------------------------------

  // Object ids address contents: every directory's entries are those its id names.
  predicate Addressed(odb: Id -> Listing, entry: Entry)
    decreases entry, 1
  {
    entry.kind == Dir ==>
      entry.below == odb(entry.id) && (entry.below.Listed? ==> AddressedAll(odb, entry.below.children))
  }

  predicate AddressedAll(odb: Id -> Listing, children: seq<Child>)
    decreases children, 0
  {
    forall i :: 0 <= i < |children| ==> Addressed(odb, children[i].entry)
  }

  lemma {:induction false} GetAddressed(odb: Id -> Listing, children: seq<Child>, name: Text)
    requires AddressedAll(odb, children) && Get(children, name).Some?
    ensures Addressed(odb, Get(children, name).value)
  {
    if children[0].name != name {
      GetAddressed(odb, children[1..], name);
    }
  }

  lemma {:induction false} SameHasNoChanges(entry: Option<Entry>)
    ensures Compare(entry, entry) == []
    decreases SizeOf(entry), 1, 0
  {
    if entry.Some? { SameNamesNoChanges(Names(Under(entry), Under(entry)), Under(entry)); }
  }

  lemma {:induction false} SameNamesNoChanges(names: seq<Text>, a: seq<Child>)
    ensures CompareNames(names, a, a) == []
    decreases Size(a), 2, |names|
  {
    if names != [] {
      GetSize(a, names[0]);
      SameHasNoChanges(Get(a, names[0]));
      SameNamesNoChanges(names[1..], a);
    }
  }

  // Two directories under one id hold no changes, so skipping them unread loses nothing.
  lemma SharedHasNoChanges(odb: Id -> Listing, f: Entry, t: Entry)
    requires Addressed(odb, f) && Addressed(odb, t) && f.kind == t.kind && f.id == t.id
    requires f.kind == Dir || SameEntry(f, t)
    ensures Compare(Some(f), Some(t)) == []
  {
    if f.kind == Dir {
      SameNamesNoChanges(Names(Under(Some(f)), Under(Some(f))), Under(Some(f)));
    } else {
      assert Names([], []) == [];
    }
  }

  // ---- full paths under a prefix ----------------------------------------------------------------

  function PathOf(base: Text, segments: seq<Text>): Text
    decreases |segments|
  {
    if segments == [] then base else PathOf(Join(base, segments[0]), segments[1..])
  }

  // The changes below `base` whose full path starts with the prefix.
  function Shown(prefix: Text, base: Text, changes: seq<Change>): seq<Found<DiffKind>> {
    if changes == [] then [] else ShownOne(prefix, base, changes[0]) + Shown(prefix, base, changes[1..])
  }

  function ShownOne(prefix: Text, base: Text, change: Change): seq<Found<DiffKind>> {
    var path := PathOf(base, change.segments);
    if StartsWith(path, prefix) then [Found(path, change.kind)] else []
  }

  lemma {:induction false} ShownConcat(prefix: Text, base: Text, a: seq<Change>, b: seq<Change>)
    ensures Shown(prefix, base, a + b) == Shown(prefix, base, a) + Shown(prefix, base, b)
  {
    if a == [] {
      assert a + b == b;
    } else {
      hide ShownOne;
      assert (a + b)[1..] == a[1..] + b && (a + b)[0] == a[0];
      ShownConcat(prefix, base, a[1..], b);
      var x, y, z := ShownOne(prefix, base, a[0]), Shown(prefix, base, a[1..]), Shown(prefix, base, b);
      assert x + y + z == x + (y + z);
    }
  }

  lemma {:induction false} ShownNested(prefix: Text, base: Text, name: Text, changes: seq<Change>)
    ensures Shown(prefix, base, Nested(name, changes)) == Shown(prefix, Join(base, name), changes)
  {
    if changes != [] {
      assert ([name] + changes[0].segments)[1..] == changes[0].segments;
      ShownNested(prefix, base, name, changes[1..]);
    }
  }

  lemma {:induction false} PathExtends(base: Text, segments: seq<Text>)
    ensures |PathOf(base, segments)| >= |base| && PathOf(base, segments)[..|base|] == base
    decreases |segments|
  {
    if segments != [] {
      var child := Join(base, segments[0]);
      PathExtends(child, segments[1..]);
      assert PathOf(base, segments)[..|child|][..|base|] == PathOf(base, segments)[..|base|];
      assert child[..|base|] == base;
    }
  }

  lemma {:induction false} PrunedShowsNothing(prefix: Text, child: Text, changes: seq<Change>)
    requires !SubtreeMayMatch(child, prefix)
    ensures Shown(prefix, child, changes) == []
  {
    if changes != [] {
      var path := PathOf(child, changes[0].segments);
      PathExtends(child, changes[0].segments);
      assert path == child + path[|child|..];
      PrefixPruneLosesNothing(child, path[|child|..], prefix);
      PrunedShowsNothing(prefix, child, changes[1..]);
    }
  }

  // ---- what a reply says --------------------------------------------------------------------

  predicate SlashFree(segments: seq<Text>) {
    forall i :: 0 <= i < |segments| ==> SLASH !in segments[i]
  }

  lemma {:induction false} SplitPath(base: Text, segments: seq<Text>)
    requires SlashFree(segments)
    ensures Split(PathOf(base, segments)) == Split(base) + segments
    decreases |segments|
  {
    if segments != [] {
      SplitJoin(base, segments[0]);
      SplitPath(Join(base, segments[0]), segments[1..]);
    }
  }

  lemma {:induction false} AtSlashFree(entry: Option<Entry>, segments: seq<Text>)
    requires SortedEntry(entry) && At(entry, segments).Some?
    ensures SlashFree(segments)
    decreases |segments|
  {
    if segments != [] {
      var a := Under(entry);
      if Get(a, segments[0]).None? { NothingBelowNothing(segments[1..]); }
      GetName(a, segments[0]);
      GetSorted(a, segments[0]);
      AtSlashFree(Get(a, segments[0]), segments[1..]);
    }
  }

  lemma {:induction false} GetName(children: seq<Child>, name: Text)
    requires SortedAll(children) && Get(children, name).Some?
    ensures SLASH !in name
  {
    if children[0].name != name { GetName(children[1..], name); }
  }

  lemma CompareSlashFree(f: Option<Entry>, t: Option<Entry>, c: Change)
    requires SortedEntry(f) && SortedEntry(t) && c in Compare(f, t)
    ensures SlashFree(c.segments)
  {
    CompareMeans(f, t, c);
    if At(f, c.segments).Some? { AtSlashFree(f, c.segments); } else { AtSlashFree(t, c.segments); }
  }

  lemma {:induction false} ShownMember(prefix: Text, base: Text, changes: seq<Change>, x: Found<DiffKind>)
    ensures x in Shown(prefix, base, changes) <==>
              StartsWith(x.path, prefix) && exists c :: c in changes && x == Found(PathOf(base, c.segments), c.kind)
  {
    if changes != [] {
      ShownMember(prefix, base, changes[1..], x);
      assert forall c :: c in changes <==> c == changes[0] || c in changes[1..];
      assert changes[0] in changes;
    }
  }

  // A full path is in the reply exactly when it starts with the prefix and its two entries call
  // for a change, and then as that change.
  lemma DiffIsExact(f: Entry, t: Entry, prefix: Text, segments: seq<Text>, kind: DiffKind)
    requires SortedEntry(Some(f)) && SortedEntry(Some(t)) && SlashFree(segments)
    ensures Found(PathOf([], segments), kind) in Shown(prefix, [], Compare(Some(f), Some(t))) <==>
              StartsWith(PathOf([], segments), prefix)
              && Expected(At(Some(f), segments), At(Some(t), segments)) == Some(kind)
  {
    var all, x := Compare(Some(f), Some(t)), Found(PathOf([], segments), kind);
    ShownMember(prefix, [], all, x);
    CompareMeans(Some(f), Some(t), Change(segments, kind));
    forall c | c in all && x == Found(PathOf([], c.segments), c.kind)
      ensures c == Change(segments, kind)
    {
      CompareSlashFree(Some(f), Some(t), c);
      SplitPath([], segments);
      SplitPath([], c.segments);
      assert (Split([]) + segments)[1..] == segments && (Split([]) + c.segments)[1..] == c.segments;
    }
  }

  // The reply is in path order, so no path appears twice.
  lemma DiffInPathOrder(f: Entry, t: Entry, prefix: Text)
    requires SortedEntry(Some(f)) && SortedEntry(Some(t))
    ensures InOrder(Shown(prefix, [], Compare(Some(f), Some(t))))
  {
    var all := Compare(Some(f), Some(t));
    CompareAscends(Some(f), Some(t));
    forall c | c in all
      ensures SlashFree(c.segments)
    {
      CompareSlashFree(Some(f), Some(t), c);
    }
    ShownAscends(prefix, [], all);
  }

  lemma {:induction false} ShownAscends(prefix: Text, base: Text, changes: seq<Change>)
    requires AscendingChanges(changes) && forall c :: c in changes ==> SlashFree(c.segments)
    ensures InOrder(Shown(prefix, base, changes))
  {
    if changes != [] {
      var first, rest := changes[0], changes[1..];
      assert forall i :: 0 <= i < |rest| ==> rest[i] == changes[i + 1];
      ShownAscends(prefix, base, rest);
      SplitPath(base, first.segments);
      forall x | x in Shown(prefix, base, rest)
        ensures PathBelow(Split(PathOf(base, first.segments)), Split(x.path))
      {
        ShownMember(prefix, base, rest, x);
        var c :| c in rest && x == Found(PathOf(base, c.segments), c.kind);
        SplitPath(base, c.segments);
        PathBelowShifted(Split(base), first.segments, c.segments);
      }
    }
  }

  lemma {:induction false} PathBelowShifted(base: seq<Text>, a: seq<Text>, b: seq<Text>)
    requires PathBelow(a, b)
    ensures PathBelow(base + a, base + b)
  {
    if base == [] {
      assert base + a == a && base + b == b;
    } else {
      assert (base + a)[1..] == base[1..] + a && (base + b)[1..] == base[1..] + b;
      PathBelowShifted(base[1..], a, b);
    }
  }

  // ---- the walk ------------------------------------------------------------------------------

  class Differ {
    const prefix: Text
    ghost const odb: Id -> Listing
    var out: seq<Found<DiffKind>>

    constructor (prefix: Text, ghost odb: Id -> Listing)
      ensures this.prefix == prefix && this.odb == odb && out == []
    {
      this.prefix, this.odb, out := prefix, odb, [];
    }

    // Records a change under the prefix; the entry past the cap refuses the whole reply.
    method Push(path: Text, kind: DiffKind) returns (ok: bool)
      modifies this
      ensures out == old(out) + if StartsWith(path, prefix) then [Found(path, kind)] else []
      ensures ok == (out == old(out) || |out| <= MAX_DIFF_ENTRIES)
    {
      if !StartsWith(path, prefix) { return true; }
      out := out + [Found(path, kind)];
      return |out| <= MAX_DIFF_ENTRIES;
    }

    // A whole entry present on one side only.
    method EmitSide(path: Text, entry: Entry, kind: DiffKind) returns (ok: bool)
      requires kind != Modified && SortedEntry(Some(entry)) && |out| <= MAX_DIFF_ENTRIES
      modifies this
      ensures ok ==> out == old(out) + Shown(prefix, path, Side(entry, kind)) && |out| <= MAX_DIFF_ENTRIES
      ensures HealthyEntry(entry) && |old(out) + Shown(prefix, path, Side(entry, kind))| <= MAX_DIFF_ENTRIES ==> ok
      decreases entry, 1
    {
      hide *;
      SideIs(prefix, path, entry, kind);
      ok := Push(path, kind);
      if !ok { return false; }
      ghost var sofar := out;
      if entry.kind == Dir {
        ok := EmitChildren(path, entry, kind);
        assert ok ==> out == old(out) + (sofar[|old(out)|..] + out[|sofar|..]);
      }
    }

    method EmitChildren(base: Text, dir: Entry, kind: DiffKind) returns (ok: bool)
      requires kind != Modified && dir.kind == Dir && SortedEntry(Some(dir)) && |out| <= MAX_DIFF_ENTRIES
      modifies this
      ensures ok ==> out == old(out) + Shown(prefix, base, SideBelow(dir, kind)) && |out| <= MAX_DIFF_ENTRIES
      ensures HealthyEntry(dir) && |old(out) + Shown(prefix, base, SideBelow(dir, kind))| <= MAX_DIFF_ENTRIES ==> ok
      decreases dir, 0
    {
      hide *;
      UnfoldDir(dir);
      if dir.below.Unreadable? { return false; }
      var entries := dir.below.children;
      ghost var all := Shown(prefix, base, SideBelow(dir, kind));
      ghost var done := [];
      SideNone(prefix, base, dir, kind);
      var i := 0;
      while i < |entries|
        invariant i <= |entries| && |out| <= MAX_DIFF_ENTRIES
        invariant out == old(out) + done && all == done + Shown(prefix, base, SideFrom(dir, i, kind))
      {
        var child := Join(base, entries[i].name);
        SideStep(prefix, base, dir, i, kind);
        ghost var here := Shown(prefix, child, Side(entries[i].entry, kind));
        ghost var rest := Shown(prefix, base, SideFrom(dir, i + 1, kind));
        assert all == done + here + rest;
        if SubtreeMayMatch(child, prefix) {
          ok := EmitSide(child, entries[i].entry, kind);
          if !ok {
            assert |old(out) + all| >= |old(out) + done + here|;
            return false;
          }
        } else {
          PrunedShowsNothing(prefix, child, Side(entries[i].entry, kind));
        }
        assert out == old(out) + (done + here);
        done := done + here;
        i := i + 1;
      }
      return true;
    }

    // Both sides are directories: their entries in merged name order.
    method WalkDirs(f: Entry, t: Entry, base: Text) returns (ok: bool)
      requires f.kind == Dir && t.kind == Dir && SortedEntry(Some(f)) && SortedEntry(Some(t))
      requires Addressed(odb, f) && Addressed(odb, t) && |out| <= MAX_DIFF_ENTRIES
      modifies this
      ensures ok ==> out == old(out) + Shown(prefix, base, Compare(Some(f), Some(t))) && |out| <= MAX_DIFF_ENTRIES
      ensures
        && HealthyEntry(f) && HealthyEntry(t)
        && |old(out) + Shown(prefix, base, Compare(Some(f), Some(t)))| <= MAX_DIFF_ENTRIES
        ==> ok
      decreases EntrySize(f) + EntrySize(t), 0
    {
      hide *;
      UnfoldDir(f);
      UnfoldDir(t);
      if f.id == t.id {
        SharedShowsNothing(prefix, base, odb, f, t);
        return true;
      }
      if f.below.Unreadable? || t.below.Unreadable? { return false; }
      var names := Names(f.below.children, t.below.children);
      ghost var all := Shown(prefix, base, Compare(Some(f), Some(t)));
      ghost var done := [];
      PairStart(prefix, base, f, t);
      var i := 0;
      while i < |names|
        invariant i <= |names| && |out| <= MAX_DIFF_ENTRIES
        invariant out == old(out) + done && all == done + Shown(prefix, base, PairFrom(f, t, i))
      {
        var child := Join(base, names[i]);
        var from, to := Get(f.below.children, names[i]), Get(t.below.children, names[i]);
        PairStep(prefix, base, f, t, i, odb);
        ghost var here := Shown(prefix, child, Compare(from, to));
        ghost var rest := Shown(prefix, base, PairFrom(f, t, i + 1));
        assert all == done + here + rest;
        if SubtreeMayMatch(child, prefix) {
          ok := Pair(child, from, to);
          if !ok {
            assert |old(out) + all| >= |old(out) + done + here|;
            return false;
          }
        } else {
          PrunedShowsNothing(prefix, child, Compare(from, to));
        }
        assert out == old(out) + (done + here);
        done := done + here;
        i := i + 1;
      }
      return true;
    }

    // One name, present on at least one side.
    method Pair(child: Text, from: Option<Entry>, to: Option<Entry>) returns (ok: bool)
      requires from.Some? || to.Some?
      requires SortedEntry(from) && SortedEntry(to) && |out| <= MAX_DIFF_ENTRIES
      requires (from.Some? ==> Addressed(odb, from.value)) && (to.Some? ==> Addressed(odb, to.value))
      modifies this
      ensures ok ==> out == old(out) + Shown(prefix, child, Compare(from, to)) && |out| <= MAX_DIFF_ENTRIES
      ensures
        && HealthySide(from) && HealthySide(to)
        && |old(out) + Shown(prefix, child, Compare(from, to))| <= MAX_DIFF_ENTRIES
        ==> ok
      decreases SizeOf(from) + SizeOf(to), 1
    {
      hide *;
      match (from, to)
      case (Some(f), None) =>
        PairOneSided(f);
        ok := EmitSide(child, f, Removed);
      case (None, Some(t)) =>
        PairOneSided(t);
        ok := EmitSide(child, t, Added);
      case (Some(f), Some(t)) =>
        PairSides(f, t);
        if SameEntry(f, t) {
          SameShowsNothing(prefix, child, odb, f, t);
          ok := true;
        } else if f.kind == Dir && t.kind == Dir {
          ok := WalkDirs(f, t, child);
        } else {
          ok := Flip(child, f, t);
        }
    }

    // A leaf changed, or the kind flipped: the path is modified, and a directory on either side
    // takes its descendants with it.
    method Flip(child: Text, f: Entry, t: Entry) returns (ok: bool)
      requires !SameEntry(f, t) && !(f.kind == Dir && t.kind == Dir)
      requires SortedEntry(Some(f)) && SortedEntry(Some(t)) && |out| <= MAX_DIFF_ENTRIES
      modifies this
      ensures ok ==> out == old(out) + Shown(prefix, child, Compare(Some(f), Some(t))) && |out| <= MAX_DIFF_ENTRIES
      ensures
        && HealthyEntry(f) && HealthyEntry(t)
        && |old(out) + Shown(prefix, child, Compare(Some(f), Some(t)))| <= MAX_DIFF_ENTRIES
        ==> ok
    {
      hide *;
      FlipIs(prefix, child, f, t);
      ghost var own := if StartsWith(child, prefix) then [Found(child, Modified)] else [];
      ok := Push(child, Modified);
      if !ok { return false; }
      if f.kind == Dir {
        ok := EmitChildren(child, f, Removed);
        if !ok { return false; }
        assert out == old(out) + (own + Shown(prefix, child, SideBelow(f, Removed)));
      }
      if t.kind == Dir {
        ok := EmitChildren(child, t, Added);
        if !ok { return false; }
        assert out == old(out) + (own + Shown(prefix, child, SideBelow(t, Added)));
      }
    }
  }

  // Everything an entry on one side only amounts to: the entry itself, then all below it.
  function Side(entry: Entry, kind: DiffKind): seq<Change>
    requires kind != Modified
  {
    if kind == Removed then Compare(Some(entry), None) else Compare(None, Some(entry))
  }

  function SideBelow(dir: Entry, kind: DiffKind): seq<Change> {
    SideFrom(dir, 0, kind)
  }

  // ... from its `i`th directory entry on.
  function SideFrom(dir: Entry, i: nat, kind: DiffKind): seq<Change> {
    var children := Under(Some(dir));
    if i > |children| then []
    else if kind == Removed then CompareNames(NamesOf(children[i..]), children, [])
    else CompareNames(NamesOf(children[i..]), [], children)
  }

  function NamesOf(children: seq<Child>): seq<Text> {
    if children == [] then [] else [children[0].name] + NamesOf(children[1..])
  }

  predicate HealthyEntry(entry: Entry) {
    entry.kind == Dir ==> Healthy(entry.below)
  }

  lemma {:induction false} NamesOfOne(children: seq<Child>)
    ensures Names(children, []) == NamesOf(children) == Names([], children)
  {
    if children != [] { NamesOfOne(children[1..]); }
  }

  lemma SideIs(prefix: Text, path: Text, entry: Entry, kind: DiffKind)
    requires kind != Modified
    ensures Shown(prefix, path, Side(entry, kind))
         == (if StartsWith(path, prefix) then [Found(path, kind)] else [])
            + if entry.kind == Dir then Shown(prefix, path, SideBelow(entry, kind)) else []
  {
    var children := Under(Some(entry));
    NamesOfOne(children);
    assert children[0..] == children;
    var own := Change([], kind);
    assert Side(entry, kind) == [own] + SideBelow(entry, kind);
    ShownConcat(prefix, path, [own], SideBelow(entry, kind));
    assert [own][1..] == [];
  }

  lemma SideNone(prefix: Text, base: Text, dir: Entry, kind: DiffKind)
    ensures Shown(prefix, base, SideFrom(dir, |Under(Some(dir))|, kind)) == []
    ensures SideBelow(dir, kind) == SideFrom(dir, 0, kind)
  {
  }

  lemma UnfoldDir(dir: Entry)
    requires dir.kind == Dir
    ensures HealthyEntry(dir) ==> dir.below.Listed?
    ensures dir.below.Listed? ==> Under(Some(dir)) == dir.below.children
    ensures Under(None) == []
  {
  }

  lemma SideStep(prefix: Text, base: Text, dir: Entry, i: nat, kind: DiffKind)
    requires kind != Modified && dir.kind == Dir && dir.below.Listed? && SortedEntry(Some(dir))
        && i < |dir.below.children|
    ensures var child := dir.below.children[i];
      && Shown(prefix, base, SideFrom(dir, i, kind))
         == Shown(prefix, Join(base, child.name), Side(child.entry, kind))
             + Shown(prefix, base, SideFrom(dir, i + 1, kind))
      && SortedEntry(Some(child.entry))
      && (HealthyEntry(dir) ==> HealthyEntry(child.entry))
  {
    var children := dir.below.children;
    var child := children[i];
    assert SortedAll(children);
    if HealthyEntry(dir) { assert HealthyAll(children); }
    assert children[i..][0] == child && children[i..][1..] == children[i + 1..];
    GetOwn(children, i);
    assert Get([], child.name) == None;
    ShownConcat(prefix, base, Nested(child.name, Side(child.entry, kind)), SideFrom(dir, i + 1, kind));
    ShownNested(prefix, base, child.name, Side(child.entry, kind));
  }

  lemma {:induction false} GetOwn(children: seq<Child>, i: nat)
    requires Ascending(children) && i < |children|
    ensures Get(children, children[i].name) == Some(children[i].entry)
  {
    if i > 0 {
      BelowTotal(children[0].name, children[i].name);
      assert children[1..][i - 1] == children[i];
      GetOwn(children[1..], i - 1);
    }
  }

  // The changes from the `i`th merged name of two directories on.
  function PairFrom(f: Entry, t: Entry, i: nat): seq<Change> {
    var a, b := Under(Some(f)), Under(Some(t));
    if i > |Names(a, b)| then [] else CompareNames(Names(a, b)[i..], a, b)
  }

  predicate HealthySide(entry: Option<Entry>) {
    entry.Some? ==> HealthyEntry(entry.value)
  }

  lemma PairStart(prefix: Text, base: Text, f: Entry, t: Entry)
    requires f.kind == Dir && t.kind == Dir
    ensures Shown(prefix, base, Compare(Some(f), Some(t))) == Shown(prefix, base, PairFrom(f, t, 0))
    ensures Shown(prefix, base, PairFrom(f, t, |Names(Under(Some(f)), Under(Some(t)))|)) == []
  {
    var names := Names(Under(Some(f)), Under(Some(t)));
    assert names[0..] == names && Own(Some(f), Some(t)) == [];
    assert Compare(Some(f), Some(t)) == PairFrom(f, t, 0);
  }

  lemma PairStep(prefix: Text, base: Text, f: Entry, t: Entry, i: nat, odb: Id -> Listing)
    requires f.kind == Dir && t.kind == Dir && f.below.Listed? && t.below.Listed?
    requires SortedEntry(Some(f)) && SortedEntry(Some(t)) && Addressed(odb, f) && Addressed(odb, t)
    requires i < |Names(f.below.children, t.below.children)|
    ensures var name := Names(f.below.children, t.below.children)[i];
      var from, to := Get(f.below.children, name), Get(t.below.children, name);
      && Shown(prefix, base, PairFrom(f, t, i))
         == Shown(prefix, Join(base, name), Compare(from, to)) + Shown(prefix, base, PairFrom(f, t, i + 1))
      && (from.Some? || to.Some?) && SortedEntry(from) && SortedEntry(to)
      && (from.Some? ==> Addressed(odb, from.value)) && (to.Some? ==> Addressed(odb, to.value))
      && (HealthyEntry(f) ==> HealthySide(from)) && (HealthyEntry(t) ==> HealthySide(to))
      && SizeOf(from) + SizeOf(to) < EntrySize(f) + EntrySize(t)
  {
    var a, b := f.below.children, t.below.children;
    var names := Names(a, b);
    var from, to := Get(a, names[i]), Get(b, names[i]);
    NamesAre(a, b);
    assert names[i] in names;
    GetSize(a, names[i]);
    GetSize(b, names[i]);
    GetSorted(a, names[i]);
    GetSorted(b, names[i]);
    if from.Some? { GetAddressed(odb, a, names[i]); }
    if to.Some? { GetAddressed(odb, b, names[i]); }
    if HealthyEntry(f) { GetHealthy(a, names[i]); }
    if HealthyEntry(t) { GetHealthy(b, names[i]); }
    assert names[i..][0] == names[i] && names[i..][1..] == names[i + 1..];
    ShownConcat(prefix, base, Nested(names[i], Compare(from, to)), PairFrom(f, t, i + 1));
    ShownNested(prefix, base, names[i], Compare(from, to));
  }

  lemma {:induction false} GetHealthy(children: seq<Child>, name: Text)
    requires HealthyAll(children)
    ensures HealthySide(Get(children, name))
  {
    if children != [] && children[0].name != name { GetHealthy(children[1..], name); }
  }

  lemma PairOneSided(entry: Entry)
    ensures Side(entry, Removed) == Compare(Some(entry), None) && Side(entry, Added) == Compare(None, Some(entry))
    ensures HealthySide(Some(entry)) == HealthyEntry(entry)
  {
  }

  lemma PairSides(f: Entry, t: Entry)
    ensures HealthySide(Some(f)) == HealthyEntry(f) && HealthySide(Some(t)) == HealthyEntry(t)
    ensures SizeOf(Some(f)) + SizeOf(Some(t)) == EntrySize(f) + EntrySize(t)
  {
  }

  lemma SharedShowsNothing(prefix: Text, base: Text, odb: Id -> Listing, f: Entry, t: Entry)
    requires Addressed(odb, f) && Addressed(odb, t) && f.kind == t.kind == Dir && f.id == t.id
    ensures Shown(prefix, base, Compare(Some(f), Some(t))) == []
  {
    SharedHasNoChanges(odb, f, t);
  }

  lemma SameShowsNothing(prefix: Text, base: Text, odb: Id -> Listing, f: Entry, t: Entry)
    requires Addressed(odb, f) && Addressed(odb, t) && SameEntry(f, t)
    ensures Shown(prefix, base, Compare(Some(f), Some(t))) == []
  {
    SharedHasNoChanges(odb, f, t);
  }

  lemma FlipIs(prefix: Text, child: Text, f: Entry, t: Entry)
    requires !SameEntry(f, t) && !(f.kind == Dir && t.kind == Dir)
    ensures Shown(prefix, child, Compare(Some(f), Some(t)))
         == (if StartsWith(child, prefix) then [Found(child, Modified)] else [])
            + if f.kind == Dir then Shown(prefix, child, SideBelow(f, Removed))
              else if t.kind == Dir then Shown(prefix, child, SideBelow(t, Added)) else []
  {
    var own := Change([], Modified);
    var a, b := Under(Some(f)), Under(Some(t));
    assert [own][1..] == [];
    if f.kind == Dir {
      NamesOfOne(a);
      assert a[0..] == a;
    } else {
      NamesOfOne(b);
      assert b[0..] == b;
    }
    var rest := CompareNames(Names(a, b), a, b);
    ShownConcat(prefix, child, [own], rest);
  }

  // The diff of two committed root trees. It answers None when the walk meets an unreadable
  // directory or the reply would pass the cap, and otherwise lists exactly the changes under the
  // prefix: each path whose two entries call for one, as what they call for, in path order.
  method Diff(from: Entry, to: Entry, prefix: Text, ghost odb: Id -> Listing)
    returns (reply: Option<seq<Found<DiffKind>>>)
    requires from.kind == Dir && to.kind == Dir && SortedEntry(Some(from)) && SortedEntry(Some(to))
    requires Addressed(odb, from) && Addressed(odb, to)
    ensures reply.Some? ==>
        reply.value == Shown(prefix, [], Compare(Some(from), Some(to))) && |reply.value| <= MAX_DIFF_ENTRIES
    ensures HealthyEntry(from) && HealthyEntry(to) ==>
              (reply.Some? <==> |Shown(prefix, [], Compare(Some(from), Some(to)))| <= MAX_DIFF_ENTRIES)
  {
    var differ := new Differ(prefix, odb);
    var ok := differ.WalkDirs(from, to, []);
    assert [] + Shown(prefix, [], Compare(Some(from), Some(to))) == Shown(prefix, [], Compare(Some(from), Some(to)));
    return if ok then Some(differ.out) else None;
  }
}
