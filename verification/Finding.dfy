// Paged find (crates/duckfs/core/src/queries.rs:314-390): a pruned walk that must agree with the
// plain walk, filtered and cut at the page limit. Grep (Grepping.dfy) walks by the same rules.
module Finding {
  import opened Wrappers
  import opened Kinds
  import opened Texts
  import opened Order
  import opened Paths
  import opened Trees

  const MAX_PAGE := 256

  // What a walk looks for; grep (`filesOnly`) never looks at directories and symlinks.
  datatype Query = Query(prefix: Text, after: Option<Text>, filesOnly: bool)

  predicate Wanted(q: Query, hit: Hit) {
    (q.filesOnly ==> hit.what.kind == File) && StartsWith(hit.path, q.prefix) && PathAfter(hit.path, q.after)
  }

  function Keep(q: Query, hits: seq<Hit>): seq<Hit> {
    if hits == [] then []
    else (if Wanted(q, hits[0]) then [hits[0]] else []) + Keep(q, hits[1..])
  }

  // What find must answer with, page by page: the plain walk's wanted paths.
  function Matches(q: Query, dir: Listing, base: Text): seq<Hit> {
    Keep(q, Walk(dir, base))
  }

  lemma {:induction false} KeepConcat(q: Query, a: seq<Hit>, b: seq<Hit>)
    ensures Keep(q, a + b) == Keep(q, a) + Keep(q, b)
  {
    hide Wanted;
    if a == [] {
      assert a + b == b;
    } else {
      assert (a + b)[1..] == a[1..] + b;
      KeepConcat(q, a[1..], b);
    }
  }

  lemma {:induction false} KeepNothing(q: Query, hits: seq<Hit>)
    requires forall h :: h in hits ==> !Wanted(q, h)
    ensures Keep(q, hits) == []
  {
    if hits != [] {
      assert hits[0] in hits;
      KeepNothing(q, hits[1..]);
    }
  }

  // ---- pruning -------------------------------------------------------------------------------

  // Every path below a directory is the directory's own path and more, in bytes and in segments.
  lemma {:induction false} WalkExtends(dir: Listing, base: Text)
    requires Sorted(dir)
    ensures forall h :: h in Walk(dir, base) ==> Extends(h.path, base)
    decreases dir, 0
  {
    if dir.Listed? { WalkAllExtends(dir.children, base); }
  }

  ghost predicate Extends(path: Text, base: Text) {
    |path| >= |base| && path[..|base|] == base
    && |Split(path)| >= |Split(base)| && Split(path)[..|Split(base)|] == Split(base)
  }

  lemma {:induction false} WalkAllExtends(children: seq<Child>, base: Text)
    requires SortedAll(children)
    ensures forall h :: h in WalkAll(children, base) ==> Extends(h.path, base)
    decreases children, 1
  {
    if children != [] {
      var path := Join(base, children[0].name);
      SplitJoin(base, children[0].name);
      if children[0].entry.kind == Dir { WalkExtends(children[0].entry.below, path); }
      forall h | h in WalkEntry(children[0].entry, path)
        ensures Extends(h.path, base)
      {
        assert Extends(h.path, path);
        assert h.path[..|base|] == h.path[..|path|][..|base|];
        assert Split(h.path)[..|Split(base)|] == Split(h.path)[..|Split(path)|][..|Split(base)|];
      }
      WalkAllExtends(children[1..], base);
    }
  }

  // A directory either prune skips holds nothing find wants.
  lemma PrunedHoldsNothing(q: Query, dir: Listing, path: Text)
    requires Sorted(dir) && !(SubtreeMayMatch(path, q.prefix) && SubtreeAfter(path, q.after))
    ensures Matches(q, dir, path) == []
  {
    WalkExtends(dir, path);
    forall h | h in Walk(dir, path)
      ensures !Wanted(q, h)
    {
      if !SubtreeMayMatch(path, q.prefix) {
        assert h.path == path + h.path[|path|..];
        PrefixPruneLosesNothing(path, h.path[|path|..], q.prefix);
      } else {
        var s := Split(h.path);
        assert s == Split(path) + s[|Split(path)|..];
        CursorPruneLosesNothing(Split(path), s[|Split(path)|..], Split(q.after.value));
      }
    }
    KeepNothing(q, Walk(dir, path));
  }

  // ---- the walk ------------------------------------------------------------------------------

  // A page shows the first `limit` of these hits, and a cursor exactly if there are more.
  predicate Shows(hits: seq<Hit>, limit: nat, out: seq<Hit>, next: Option<Text>, done: bool) {
    && limit >= 1
    && done == (|hits| > limit)
    && out == (if done then hits[..limit] else hits)
    && next == if done then Some(hits[limit - 1].path) else None
  }

  lemma ShowsMore(hits: seq<Hit>, more: seq<Hit>, limit: nat, out: seq<Hit>, next: Option<Text>)
    requires Shows(hits, limit, out, next, true)
    ensures Shows(hits + more, limit, out, next, true)
  {
    assert (hits + more)[..limit] == hits[..limit];
  }

  // One more wanted path: it is shown, or it closes a page that is already full.
  lemma ShowsOneMore(hits: seq<Hit>, hit: Hit, rest: seq<Hit>, limit: nat, out: seq<Hit>, next: Option<Text>)
    requires Shows(hits, limit, out, next, false)
    ensures if |out| == limit then Shows(hits + ([hit] + rest), limit, out, Some(out[|out| - 1].path), true)
            else Shows(hits + [hit], limit, out + [hit], next, false)
  {
    assert (hits + ([hit] + rest))[..|hits|] == hits;
  }

  class Finder {
    const query: Query
    const limit: nat
    var out: seq<Hit>
    var next: Option<Text>
    var done: bool

    constructor (query: Query, limit: nat)
      requires limit >= 1
      ensures this.query == query && this.limit == limit && Shows([], limit, out, next, done)
    {
      this.query, this.limit, out, next, done := query, limit, [], None, false;
    }

    // Continues a page that shows `sofar` with everything wanted below `base`.
    method WalkDir(dir: Listing, base: Text, ghost sofar: seq<Hit>) returns (ok: bool)
      requires Sorted(dir) && limit >= 1 && Shows(sofar, limit, out, next, done)
      modifies this
      ensures ok ==> Shows(sofar + Matches(query, dir, base), limit, out, next, done)
      ensures Healthy(dir) ==> ok
      decreases dir
    {
      hide *;
      Unfold(query, dir, base);
      if done {
        ShowsMore(sofar, Matches(query, dir, base), limit, out, next);
        return true;
      }
      if dir.Unreadable? {
        return false;
      }
      var entries := dir.children;
      var i := 0;
      NothingYet(query, entries, base);
      assert sofar + [] == sofar;
      while i < |entries|
        invariant i <= |entries|
        invariant Shows(sofar + Keep(query, WalkAll(entries[..i], base)), limit, out, next, done)
      {
        StepMatches(query, entries, i, base);
        ghost var before := Keep(query, WalkAll(entries[..i], base));
        ghost var rest := Rest(query, entries, i, base);
        assert sofar + before + rest == sofar + (before + rest);
        if done {
          ShowsMore(sofar + before, rest, limit, out, next);
          return true;
        }
        var entry := entries[i].entry;
        var child := Join(base, entries[i].name);
        UnfoldEntry(query, dir, i, base);
        ghost var own := if Wanted(query, Found(child, entry)) then [Found(child, entry)] else [];
        ghost var below := if entry.kind == Dir then Matches(query, entry.below, child) else [];
        if Wanted(query, Found(child, entry)) {
          ShowsOneMore(sofar + before, Found(child, entry), below + Keep(query, WalkAll(entries[i + 1..], base)),
              limit, out, next);
          if |out| == limit {
            next := Some(out[|out| - 1].path);
            done := true;
            return true;
          }
          if entry.kind != Dir && !entry.readable {
            return false;
          }
          out := out + [Found(child, entry)];
        } else {
          assert sofar + before + own == sofar + before;
        }
        assert sofar + before + own + [] == sofar + before + own;
        assert sofar + (before + own + below) == sofar + before + own + below;
        if entry.kind == Dir {
          if SubtreeMayMatch(child, query.prefix) && SubtreeAfter(child, query.after) {
            ok := WalkDir(entry.below, child, sofar + before + own);
            if !ok { return false; }
          } else {
            PrunedHoldsNothing(query, entry.below, child);
          }
        }
        i := i + 1;
      }
      assert entries[..i] == entries;
      return true;
    }
  }

  lemma Unfold(q: Query, dir: Listing, base: Text)
    requires Sorted(dir)
    ensures Healthy(dir) ==> dir.Listed?
    ensures dir.Listed? ==> Matches(q, dir, base) == Keep(q, WalkAll(dir.children, base))
  {
  }

  lemma NothingYet(q: Query, entries: seq<Child>, base: Text)
    ensures Keep(q, WalkAll(entries[..0], base)) == []
  {
  }

  lemma UnfoldEntry(q: Query, dir: Listing, i: nat, base: Text)
    requires Sorted(dir) && dir.Listed? && i < |dir.children|
    ensures var entry := dir.children[i].entry;
            && (entry.kind == Dir ==> Sorted(entry.below) && (Healthy(dir) ==> Healthy(entry.below)))
            && (entry.kind != Dir && Healthy(dir) ==> entry.readable)
  {
    assert SortedAll(dir.children);
    if Healthy(dir) { assert HealthyAll(dir.children); }
  }

  lemma {:induction false} WalkAllConcat(a: seq<Child>, b: seq<Child>, base: Text)
    ensures WalkAll(a + b, base) == WalkAll(a, base) + WalkAll(b, base)
  {
    if a == [] {
      assert a + b == b;
    } else {
      assert (a + b)[1..] == a[1..] + b;
      WalkAllConcat(a[1..], b, base);
    }
  }

  // The matches entry `i` and the entries behind it add.
  ghost function Rest(q: Query, entries: seq<Child>, i: nat, base: Text): seq<Hit>
    requires i <= |entries|
  {
    Keep(q, WalkAll(entries[i..], base))
  }

  // What entry `i` adds to the matches of the entries before it, and what is still to come.
  lemma StepMatches(q: Query, entries: seq<Child>, i: nat, base: Text)
    requires i < |entries|
    ensures var before := Keep(q, WalkAll(entries[..i], base));
            var entry, path := entries[i].entry, Join(base, entries[i].name);
            var own := (if Wanted(q, Found(path, entry)) then [Found(path, entry)] else []);
            var below := if entry.kind == Dir then Matches(q, entry.below, path) else [];
            && Keep(q, WalkAll(entries[..i + 1], base)) == before + own + below
            && Rest(q, entries, i, base) == own + (below + Keep(q, WalkAll(entries[i + 1..], base)))
            && Keep(q, WalkAll(entries, base)) == before + Rest(q, entries, i, base)
  {
    hide *;
    var entry, path := entries[i].entry, Join(base, entries[i].name);
    var before := Keep(q, WalkAll(entries[..i], base));
    var own := if Wanted(q, Found(path, entry)) then [Found(path, entry)] else [];
    var below := if entry.kind == Dir then Matches(q, entry.below, path) else [];
    EntryMatches(q, entry, path);
    assert entries[..i + 1] == entries[..i] + [entries[i]];
    FirstWalk([entries[i]], base);
    WalkAllConcat(entries[..i], [entries[i]], base);
    KeepConcat(q, WalkAll(entries[..i], base), WalkEntry(entry, path));
    assert before + own + below == before + (own + below);
    assert entries == entries[..i] + entries[i..];
    FirstWalk(entries[i..], base);
    WalkAllConcat(entries[..i], entries[i..], base);
    RestIs(q, entries, i, base);
    KeepConcat(q, WalkAll(entries[..i], base), WalkAll(entries[i..], base));
    KeepConcat(q, WalkEntry(entry, path), WalkAll(entries[i + 1..], base));
    assert own + below + Keep(q, WalkAll(entries[i + 1..], base)) == own
        + (below + Keep(q, WalkAll(entries[i + 1..], base)));
  }

  lemma RestIs(q: Query, entries: seq<Child>, i: nat, base: Text)
    requires i < |entries|
    ensures Rest(q, entries, i, base) == Keep(q, WalkAll(entries[i..], base))
    ensures entries[i..][1..] == entries[i + 1..]
  {
  }

  lemma FirstWalk(entries: seq<Child>, base: Text)
    requires entries != []
    ensures WalkAll(entries, base) == WalkEntry(entries[0].entry, Join(base, entries[0].name))
        + WalkAll(entries[1..], base)
    ensures |entries| == 1 ==> WalkAll(entries, base) == WalkEntry(entries[0].entry, Join(base, entries[0].name))
  {
  }

  lemma EntryMatches(q: Query, entry: Entry, path: Text)
    ensures Keep(q, WalkEntry(entry, path))
         == (if Wanted(q, Found(path, entry)) then [Found(path, entry)] else [])
            + if entry.kind == Dir then Matches(q, entry.below, path) else []
  {
    var hit := Found(path, entry);
    var below := if entry.kind == Dir then Walk(entry.below, path) else [];
    assert [hit][1..] == [];
    KeepConcat(q, [hit], below);
  }

  // ---- paging --------------------------------------------------------------------------------

  // `find` on a resolved root tree: one page, or None when the walk hits an unreadable object.
  method Find(root: Listing, prefix: Text, after: Option<Text>, limit: nat)
    returns (page: Option<(seq<Hit>, Option<Text>)>)
    requires Sorted(root)
    ensures page.Some? ==> page.value == PageOf(Query(prefix, after, false), root, Clamped(limit))
    ensures Healthy(root) ==> page.Some?
  {
    var finder := new Finder(Query(prefix, after, false), Clamped(limit));
    var ok := finder.WalkDir(root, [], []);
    assert [] + Matches(Query(prefix, after, false), root, []) == Matches(Query(prefix, after, false), root, []);
    return if ok then Some((finder.out, finder.next)) else None;
  }

  function Clamped(limit: nat): (n: nat)
    ensures 1 <= n <= MAX_PAGE && (1 <= limit <= 256 ==> n == limit)
    ensures (limit < 1 ==> n == 1) && (limit > 256 ==> n == 256)
  {
    if limit < 1 then 1 else if limit > MAX_PAGE then MAX_PAGE else limit
  }

  // The first `limit` wanted paths of the plain walk, and the last of them if more remain.
  function PageOf(q: Query, root: Listing, limit: nat): (seq<Hit>, Option<Text>)
    requires limit >= 1
  {
    var hits := Matches(q, root, []);
    if |hits| <= limit then (hits, None) else (hits[..limit], Some(hits[limit - 1].path))
  }

  // A page holds the first so many wanted paths, and its cursor is the last of them exactly if there are
  // more.
  lemma PageIsExact(q: Query, root: Listing, limit: nat)
    requires limit >= 1
    ensures var (hits, page) := (Matches(q, root, []), PageOf(q, root, limit));
      && |page.0| == (if |hits| < limit then |hits| else limit) && page.0 == hits[..|page.0|]
      && page.1 == if |hits| > limit then Some(page.0[limit - 1].path) else None
  {
    hide Matches;
  }

  lemma {:induction false} KeepIs(q: Query, hits: seq<Hit>, hit: Hit)
    ensures hit in Keep(q, hits) <==> hit in hits && Wanted(q, hit)
  {
    hide Wanted;
    if hits != [] {
      KeepIs(q, hits[1..], hit);
      assert hits == [hits[0]] + hits[1..];
    }
  }

  // A path is wanted exactly if an entry is there, a file where only files are asked for, and the path
  // starts with the prefix and comes after the cursor in segment order.
  lemma WantedExactly(q: Query, root: Listing, hit: Hit)
    requires Sorted(root)
    ensures hit in Matches(q, root, []) <==>
      && (exists steps :: Leads(root, [], steps, hit))
      && (q.filesOnly ==> hit.what.kind == File)
      && |q.prefix| <= |hit.path| && hit.path[..|q.prefix|] == q.prefix
      && (q.after.Some? ==> PathBelow(Split(q.after.value), Split(hit.path)))
  {
    hide Walk, Keep, Leads;
    WalkIsComplete(root, [], hit);
    KeepIs(q, Walk(root, []), hit);
  }

  // Resuming at a page's cursor continues exactly behind its last path.
  lemma ResumeContinues(q: Query, root: Listing, limit: nat)
    requires Sorted(root) && limit >= 1 && PageOf(q, root, limit).1.Some?
    ensures Matches(q.(after := PageOf(q, root, limit).1), root, []) == Matches(q, root, [])[limit..]
  {
    WalkOrder(root, []);
    ResumeKeep(q, Walk(root, []), limit - 1);
  }

  // In an ordered walk, the wanted paths behind the `k`th wanted one are those after its path.
  lemma {:induction false} ResumeKeep(q: Query, hits: seq<Hit>, k: nat)
    requires InOrder(hits) && k < |Keep(q, hits)|
    ensures Keep(q.(after := Some(Keep(q, hits)[k].path)), hits) == Keep(q, hits)[k + 1..]
  {
    hide PathBelow, Split, StartsWith, Below, Keep;
    KeepNext(q, hits);
    var cursor := Keep(q, hits)[k].path;
    var tail := hits[1..];
    KeepNext(q.(after := Some(cursor)), hits);
    TailInOrder(hits);
    if Wanted(q, hits[0]) && k == 0 {
      PathBelowTotal(Split(cursor), Split(cursor));
      LaterIsAfter(q, tail, cursor);
    } else {
      var left := if Wanted(q, hits[0]) then k - 1 else k;
      KeepIsFrom(q, tail, left);
      ResumeKeep(q, tail, left);
      PathBelowTotal(Split(hits[0].path), Split(cursor));
    }
  }

  lemma KeepNext(q: Query, hits: seq<Hit>)
    ensures hits == [] ==> Keep(q, hits) == []
    ensures hits != [] ==> Keep(q, hits) == (if Wanted(q, hits[0]) then [hits[0]] else []) + Keep(q, hits[1..])
  {
    hide Wanted;
  }

  lemma TailInOrder(hits: seq<Hit>)
    requires InOrder(hits) && hits != []
    ensures InOrder(hits[1..])
    ensures forall j :: 0 <= j < |hits[1..]| ==> PathBelow(Split(hits[0].path), Split(hits[1..][j].path))
  {
  }

  lemma {:induction false} KeepIsFrom(q: Query, hits: seq<Hit>, k: nat)
    requires k < |Keep(q, hits)|
    ensures Wanted(q, Keep(q, hits)[k]) && exists j :: 0 <= j < |hits| && hits[j].path == Keep(q, hits)[k].path
  {
    if Wanted(q, hits[0]) && k == 0 {
    } else {
      var rest := if Wanted(q, hits[0]) then k - 1 else k;
      KeepIsFrom(q, hits[1..], rest);
      var j :| 0 <= j < |hits[1..]| && hits[1..][j].path == Keep(q, hits[1..])[rest].path;
      assert hits[j + 1].path == Keep(q, hits)[k].path;
    }
  }

  // Among paths that all come after `cursor`, resuming there keeps what the query keeps, provided
  // the cursor itself was past the query's own.
  lemma {:induction false} LaterIsAfter(q: Query, hits: seq<Hit>, cursor: Text)
    requires PathAfter(cursor, q.after)
    requires forall i :: 0 <= i < |hits| ==> PathBelow(Split(cursor), Split(hits[i].path))
    ensures Keep(q.(after := Some(cursor)), hits) == Keep(q, hits)
  {
    if hits != [] {
      LaterIsAfter(q, hits[1..], cursor);
      if q.after.Some? {
        PathBelowTransitive(Split(q.after.value), Split(cursor), Split(hits[0].path));
      }
    }
  }

  // The pages a client sees when it follows every cursor.
  ghost function Pages(q: Query, root: Listing, limit: nat): seq<seq<Hit>>
    requires Sorted(root) && limit >= 1
    decreases |Matches(q, root, [])|
  {
    var (page, next) := PageOf(q, root, limit);
    if next.None? then [page]
    else
      ResumeContinues(q, root, limit);
      [page] + Pages(q.(after := next), root, limit)
  }

  function Concat(pages: seq<seq<Hit>>): seq<Hit> {
    if pages == [] then [] else pages[0] + Concat(pages[1..])
  }

  // Following cursors yields every wanted path exactly once, in the plain walk's order, in pages
  // that are full except the last.
  lemma {:induction false} PagingIsComplete(q: Query, root: Listing, limit: nat)
    requires Sorted(root) && limit >= 1
    ensures var pages := Pages(q, root, limit);
      && Concat(pages) == Matches(q, root, [])
      && |pages| >= 1
      && (forall i :: 0 <= i < |pages| - 1 ==> |pages[i]| == limit)
      && |pages[|pages| - 1]| <= limit
    decreases |Matches(q, root, [])|
  {
    var hits := Matches(q, root, []);
    var (page, next) := PageOf(q, root, limit);
    if next.Some? {
      ResumeContinues(q, root, limit);
      var later := q.(after := next);
      PagingIsComplete(later, root, limit);
      assert Pages(q, root, limit)[1..] == Pages(later, root, limit);
      assert hits[..limit] + hits[limit..] == hits;
    } else {
      assert [page][1..] == [] && hits + [] == hits;
    }
  }
}
