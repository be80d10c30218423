// A committed directory tree as the read side sees it: every directory unfolded into its
// name-keyed entries, or unreadable where a tree object is missing or does not decode.
module Trees {
  import opened Wrappers
  import opened Texts
  import opened Kinds
  import opened Order
  import opened Paths

  // `readable` says whether the entry's own file object loads.
  datatype Entry = Entry(kind: EntryKind, id: Id, exec: bool, size: nat, readable: bool, below: Listing)

  datatype Listing = Unreadable | Listed(children: seq<Child>)

  datatype Child = Child(name: Text, entry: Entry)

  // Something found at a full path.
  datatype Found<T> = Found(path: Text, what: T)

  type Hit = Found<Entry>

  predicate Ascending(names: seq<Child>) {
    forall i, j :: 0 <= i < j < |names| ==> Below(names[i].name, names[j].name)
  }

  // What decoding guarantees of every directory it reads (names strictly ascend), and what path
  // normalization guarantees of every name (no separator).
  predicate Sorted(dir: Listing)
    decreases dir, 0
  {
    dir.Listed? ==> SortedAll(dir.children)
  }

  predicate SortedAll(children: seq<Child>)
    decreases children
  {
    Ascending(children)
    && forall i :: 0 <= i < |children| ==>
         SLASH !in children[i].name
         && (children[i].entry.kind == Dir ==> Sorted(children[i].entry.below))
  }

  predicate Healthy(dir: Listing)
    decreases dir, 0
  {
    dir.Listed? && HealthyAll(dir.children)
  }

  predicate HealthyAll(children: seq<Child>)
    decreases children
  {
    forall i :: 0 <= i < |children| ==>
      if children[i].entry.kind == Dir then Healthy(children[i].entry.below) else children[i].entry.readable
  }

  // Every path below `base`, parents before their children, names in order: the plain walk.
  function Walk(dir: Listing, base: Text): seq<Hit>
    decreases dir, 0
  {
    if dir.Unreadable? then [] else WalkAll(dir.children, base)
  }

  function WalkAll(children: seq<Child>, base: Text): seq<Hit>
    decreases children, 1
  {
    if children == [] then []
    else WalkEntry(children[0].entry, Join(base, children[0].name)) + WalkAll(children[1..], base)
  }

  function WalkEntry(entry: Entry, path: Text): seq<Hit>
    decreases entry, 1
  {
    [Found(path, entry)] + if entry.kind == Dir then Walk(entry.below, path) else []
  }

  // ---- the plain walk is in path order --------------------------------------------------------

  ghost predicate InOrder<T>(hits: seq<Found<T>>) {
    forall i, j :: 0 <= i < j < |hits| ==> PathBelow(Split(hits[i].path), Split(hits[j].path))
  }

  // Every path starts with these segments and goes on with a name that is not below `name`.
  ghost predicate From(hits: seq<Hit>, segments: seq<Text>, name: Text) {
    forall h :: h in hits ==>
      var s := Split(h.path);
      |s| > |segments| && s[..|segments|] == segments && !Below(s[|segments|], name)
  }

  ghost predicate Within(hits: seq<Hit>, segments: seq<Text>) {
    forall h :: h in hits ==> var s := Split(h.path); |s| >= |segments| && s[..|segments|] == segments
  }

  lemma {:induction false} WalkOrder(dir: Listing, base: Text)
    requires Sorted(dir)
    ensures InOrder(Walk(dir, base))
    ensures forall h :: h in Walk(dir, base) ==>
              var s := Split(h.path); |s| > |Split(base)| && s[..|Split(base)|] == Split(base)
    decreases dir, 0
  {
    if dir.Listed? {
      WalkAllOrder(dir.children, base);
      if dir.children != [] {
        assert From(Walk(dir, base), Split(base), dir.children[0].name);
      }
    }
  }

  lemma {:induction false} WalkEntryOrder(entry: Entry, path: Text)
    requires entry.kind == Dir ==> Sorted(entry.below)
    ensures InOrder(WalkEntry(entry, path)) && Within(WalkEntry(entry, path), Split(path))
    decreases entry, 1
  {
    if entry.kind == Dir {
      WalkOrder(entry.below, path);
      var below := Walk(entry.below, path);
      forall h | h in below
        ensures PathBelow(Split(path), Split(h.path))
      {
        var s := Split(h.path);
        assert s == Split(path) + s[|Split(path)|..];
        PathBelowExtension(Split(path), s[|Split(path)|..]);
      }
      PrependInOrder(Found(path, entry), below);
    }
  }

  lemma PrependInOrder(first: Hit, rest: seq<Hit>)
    requires InOrder(rest) && forall h :: h in rest ==> PathBelow(Split(first.path), Split(h.path))
    ensures InOrder([first] + rest)
  {
  }

  lemma {:induction false} WalkAllOrder(children: seq<Child>, base: Text)
    requires SortedAll(children)
    ensures InOrder(WalkAll(children, base))
    ensures children != [] ==> From(WalkAll(children, base), Split(base), children[0].name)
    decreases children, 1
  {
    if children != [] {
      var name, path := children[0].name, Join(base, children[0].name);
      SplitJoin(base, name);
      WalkEntryOrder(children[0].entry, path);
      WalkAllOrder(children[1..], base);
      BelowTotal(name, name);
      if children[1..] != [] {
        assert Below(children[0].name, children[1].name);
      }
      AppendInOrder(WalkEntry(children[0].entry, path), WalkAll(children[1..], base), Split(base), name,
        if children[1..] == [] then name else children[1].name);
    }
  }

  lemma AppendInOrder(a: seq<Hit>, b: seq<Hit>, segments: seq<Text>, name: Text, next: Text)
    requires InOrder(a) && Within(a, segments + [name])
    requires InOrder(b) && (b != [] ==> From(b, segments, next) && Below(name, next))
    ensures InOrder(a + b) && From(a + b, segments, name)
  {
    var k := |segments|;
    forall i, j | 0 <= i < |a| && 0 <= j < |b|
      ensures PathBelow(Split(a[i].path), Split(b[j].path))
    {
      var s, t := Split(a[i].path), Split(b[j].path);
      assert a[i] in a && b[j] in b;
      assert s[..k + 1][..k] == s[..k] && s[k] == s[..k + 1][k] == name;
      BelowTotal(next, t[k]);
      if t[k] != next { BelowTransitive(name, next, t[k]); }
      PathBelowAt(s, t, k);
    }
    forall h | h in a + b
      ensures var s := Split(h.path); |s| > k && s[..k] == segments && !Below(s[k], name)
    {
      var s := Split(h.path);
      BelowTotal(name, name);
      if h in a {
        assert s[..k + 1][..k] == s[..k] && s[k] == s[..k + 1][k] == name;
      } else {
        BelowTotal(s[k], name);
        if Below(s[k], name) { BelowTransitive(s[k], name, next); }
      }
    }
  }

  // ---- the plain walk is complete ------------------------------------------------------------------

  function Named(children: seq<Child>, name: Text): Option<Entry> {
    if children == [] then None
    else if children[0].name == name then Some(children[0].entry)
    else Named(children[1..], name)
  }

  // The entry some steps below a directory; nothing is below a leaf or an unreadable directory.
  function EntryBelow(dir: Listing, steps: seq<Text>): Option<Entry>
    requires steps != []
    decreases |steps|
  {
    if dir.Unreadable? then None
    else
      var first := Named(dir.children, steps[0]);
      if |steps| == 1 || first.None? then first
      else if first.value.kind != Dir then None
      else EntryBelow(first.value.below, steps[1..])
  }

  function PathBelowBase(base: Text, steps: seq<Text>): Text
    decreases |steps|
  {
    if steps == [] then base else PathBelowBase(Join(base, steps[0]), steps[1..])
  }

  // These steps lead from the directory to this entry, and make this path.
  predicate Leads(dir: Listing, base: Text, steps: seq<Text>, hit: Hit) {
    steps != [] && hit.path == PathBelowBase(base, steps) && EntryBelow(dir, steps) == Some(hit.what)
  }

  // The walk finds exactly the entries there are, each under its own path.
  lemma {:induction false} WalkIsComplete(dir: Listing, base: Text, hit: Hit)
    requires Sorted(dir)
    ensures hit in Walk(dir, base) <==> exists steps :: Leads(dir, base, steps, hit)
    decreases dir, 0
  {
    hide Leads;
    if dir.Unreadable? {
      NothingUnreadable(dir, base, hit);
    } else {
      AllAreComplete(dir.children, base, hit);
      hide WalkAll;
      if hit in Walk(dir, base) {
        var i, steps :| 0 <= i < |dir.children| && LeadsOn(dir.children[i], base, steps, hit);
        NamedAt(dir.children, i);
        StepsOn(dir, base, i, steps, hit);
        assert Leads(dir, base, [dir.children[i].name] + steps, hit);
      }
      if exists steps :: Leads(dir, base, steps, hit) {
        var steps :| Leads(dir, base, steps, hit);
        NotEmpty(dir, base, steps, hit);
        var i := StepsFrom(dir, base, steps, hit);
        assert LeadsOn(dir.children[i], base, steps[1..], hit);
      }
    }
  }

  lemma NothingUnreadable(dir: Listing, base: Text, hit: Hit)
    requires dir.Unreadable?
    ensures forall steps :: !Leads(dir, base, steps, hit)
  {
  }

  // From one child: the child itself, or what is below it.
  predicate LeadsOn(child: Child, base: Text, steps: seq<Text>, hit: Hit) {
    if steps == [] then hit == Found(Join(base, child.name), child.entry)
    else child.entry.kind == Dir && Leads(child.entry.below, Join(base, child.name), steps, hit)
  }

  lemma NamedAt(children: seq<Child>, i: nat)
    requires Ascending(children) && i < |children|
    ensures Named(children, children[i].name) == Some(children[i].entry)
  {
    if i > 0 {
      BelowTotal(children[0].name, children[i].name);
      NamedAt(children[1..], i - 1);
    }
  }

  lemma NamedIs(children: seq<Child>, name: Text) returns (i: nat)
    requires Named(children, name).Some?
    ensures i < |children| && children[i].name == name && Named(children, name) == Some(children[i].entry)
  {
    if children[0].name == name {
      i := 0;
    } else {
      i := NamedIs(children[1..], name);
      i := i + 1;
    }
  }

  lemma StepsOn(dir: Listing, base: Text, i: nat, steps: seq<Text>, hit: Hit)
    requires dir.Listed? && i < |dir.children| && LeadsOn(dir.children[i], base, steps, hit)
    requires Named(dir.children, dir.children[i].name) == Some(dir.children[i].entry)
    ensures Leads(dir, base, [dir.children[i].name] + steps, hit)
  {
    var all := [dir.children[i].name] + steps;
    assert all[1..] == steps;
    if steps == [] { assert PathBelowBase(base, all) == PathBelowBase(Join(base, all[0]), []); }
  }

  lemma StepsFrom(dir: Listing, base: Text, steps: seq<Text>, hit: Hit) returns (i: nat)
    requires Leads(dir, base, steps, hit)
    ensures dir.Listed? && i < |dir.children| && LeadsOn(dir.children[i], base, steps[1..], hit)
  {
    i := NamedIs(dir.children, steps[0]);
    if |steps| == 1 { assert PathBelowBase(base, steps) == PathBelowBase(Join(base, steps[0]), []); }
  }

  lemma {:induction false} AllAreComplete(children: seq<Child>, base: Text, hit: Hit)
    requires SortedAll(children)
    ensures hit in WalkAll(children, base) <==>
      exists i, steps :: 0 <= i < |children| && LeadsOn(children[i], base, steps, hit)
    decreases children, 1
  {
    hide LeadsOn;
    if children != [] {
      var child := children[0];
      AllAreComplete(children[1..], base, hit);
      hide Walk, WalkAll;
      WalkAllNext(children, base);
      EntryIsComplete(child, base, hit);
      if hit in WalkAll(children[1..], base) {
        var i, steps :| 0 <= i < |children[1..]| && LeadsOn(children[1..][i], base, steps, hit);
        assert LeadsOn(children[i + 1], base, steps, hit);
      }
      if exists i, steps :: 0 <= i < |children| && LeadsOn(children[i], base, steps, hit) {
        var i, steps :| 0 <= i < |children| && LeadsOn(children[i], base, steps, hit);
        if i > 0 { assert LeadsOn(children[1..][i - 1], base, steps, hit); }
      }
    }
  }

  lemma WalkAllNext(children: seq<Child>, base: Text)
    requires children != []
    ensures WalkAll(children, base)
         == WalkEntry(children[0].entry, Join(base, children[0].name)) + WalkAll(children[1..], base)
  {
    hide WalkEntry;
  }

  lemma {:induction false} EntryIsComplete(child: Child, base: Text, hit: Hit)
    requires child.entry.kind == Dir ==> Sorted(child.entry.below)
    ensures hit in WalkEntry(child.entry, Join(base, child.name)) <==> exists steps :: LeadsOn(child, base, steps, hit)
    decreases child, 1
  {
    hide Leads, Walk;
    var path := Join(base, child.name);
    if child.entry.kind == Dir { WalkIsComplete(child.entry.below, path, hit); }
    if hit in WalkEntry(child.entry, path) {
      if hit == Found(path, child.entry) {
        assert LeadsOn(child, base, [], hit);
      } else {
        var steps :| Leads(child.entry.below, path, steps, hit);
        NotEmpty(child.entry.below, path, steps, hit);
        assert LeadsOn(child, base, steps, hit);
      }
    }
  }

  lemma NotEmpty(dir: Listing, base: Text, steps: seq<Text>, hit: Hit)
    requires Leads(dir, base, steps, hit)
    ensures steps != []
  {
  }
}
