// The retention catalog over whole runs (crates/duckfs/core/src/retention.rs:104-319): hash shards
// keep its directories small, so the tree accepts what the flat catalog accepts, and is that catalog
// after any sequence of exchanges.
module CatalogRuns {
  import opened Wrappers
  import opened Texts
  import opened Kinds
  import opened Grammars
  import opened Objects
  import opened Records
  import opened TreeEdits
  import opened Catalogs
  import Retention

  // ---- small directories ---------------------------------------------------------------------------------

  // The names a directory may hold: two sections at the top, two hex digits below.
  function NamesAt(q: Path): (names: set<Text>)
    ensures |names| <= 258
  {
    FewShards(256);
    if q == [] then {REFERENCES, SNAPSHOTS} else ShardsBelow(256)
  }

  function ShardsBelow(n: nat): set<Text>
    requires n <= 256
  {
    set b: Byte | 0 <= b < n :: Shard(b)
  }

  lemma {:induction false} FewShards(n: nat)
    requires n <= 256
    ensures |ShardsBelow(n)| <= n
  {
    hide Shard;
    if n > 0 {
      FewShards(n - 1);
      assert ShardsBelow(n) == ShardsBelow(n - 1) + {Shard(n - 1)};
    }
  }

  lemma OnlyThoseNames(place: Place, q: Path, name: Text)
    requires IsPlace(place) && q + [name] <= PathOf(place)
    ensures name in NamesAt(q)
  {
    hide Shard;
    var path := PathOf(place);
    assert name == (q + [name])[|q|] == path[|q|];
    if q != [] {
      var id := if place.AtReference? then place.digest else place.snapshot;
      assert path[1 + (|q| - 1)] == Shard(id[|q| - 1]);
    }
  }

  // What stands below a directory stands under one of its names.
  lemma ChildName(odb: Odb, root: Node, q: Path, name: Text)
    requires Spread(odb, root) && LookAt(odb, root, q + [name]).Found?
    ensures name in NamesAt(q)
  {
    hide LookAt, NamesAt, PathOf, IsPlace, TreeEdits.Open;
    var spot := SpotAt(odb, root, q + [name]);
    assert SpreadAt(q + [name], spot);
    if spot.Directory? {
      var place :| IsPlace(place) && q + [name] <= PathOf(place);
      OnlyThoseNames(place, q, name);
    } else {
      var place :| IsPlace(place) && PathOf(place) == q + [name];
      OnlyThoseNames(place, q, name);
    }
  }

  lemma MadeChild(odb: Odb, root: Node, q: Path, node: Node, name: Text)
    requires LookAt(odb, root, q) == Found(node) && node.Made? && name in node.children
    ensures LookAt(odb, root, q + [name]) == Found(node.children[name])
  {
    hide LookAt;
    LookFurther(odb, root, q, [name]);
    MadeOpens(odb, node);
    LookUnfold(odb, node, [name]);
    var none: Path := [name];
    assert none[1..] == [];
    LookNone(odb, node.children[name]);
  }

  lemma SubsetSize(part: set<Text>, whole: set<Text>)
    requires part <= whole
    ensures |part| <= |whole|
  {
    assert whole == part + (whole - part);
  }

  // No directory of the catalog is ever too large to build.
  lemma {:induction false} CatalogBuilds(hash: Hash, odb: Odb, root: Node, q: Path, node: Node)
    requires Spread(odb, root) && LookAt(odb, root, q) == Found(node)
    ensures Build(hash, node).Some?
    decreases node
  {
    hide LookAt, Spread, NamesAt, Build, DirBlob, NamesOf;
    BuildRef(hash, node);
    if node.Made? {
      forall name | name in node.children
        ensures name in NamesAt(q) && Build(hash, node.children[name]).Some?
      {
        MadeChild(odb, root, q, node, name);
        ChildName(odb, root, q, name);
        CatalogBuilds(hash, odb, root, q + [name], node.children[name]);
      }
      SubsetSize(node.children.Keys, NamesAt(q));
      assert |node.children| <= 258;
      var names := NamesOf(node.children);
      AllBuild(hash, node, names);
      BuildAllIs(hash, node, names);
      BuildIs(hash, node);
      var entries := BuildAll(hash, node, names).value.0;
      assert entries.Keys == node.children.Keys;
      assert |entries| == |entries.Keys| == |node.children.Keys|;
    }
  }

  lemma {:induction false} AllBuild(hash: Hash, dir: Node, names: seq<Text>)
    requires dir.Made? && forall name :: name in names ==> name in dir.children && Build(hash, dir.children[name]).Some?
    ensures BuildAll(hash, dir, names).Some?
    decreases |names|
  {
    hide Build;
    BuildNext(hash, dir, names);
    if names != [] { AllBuild(hash, dir, names[1..]); }
  }

  // ---- what the flat catalog accepts, the tree accepts -----------------------------------------------------

  ghost predicate HoldsRecord(hash: Hash, store: Odb, record: Record) {
    Sane(record) && hash(RecordBlob(record)) in store && store[hash(RecordBlob(record))] == RecordBlob(record)
  }

  lemma KeepAccepts(hash: Hash, odb: Odb, store: Odb, d: Draft, catalog: Catalog, place: Place, record: Record)
    requires Shows(odb, store, d.node, catalog) && IsPlace(place) && HoldsRecord(hash, store, record)
    ensures Keep(hash, odb, d, place, record).Some?
    ensures Shows(odb, store, Keep(hash, odb, d, place, record).value.node, catalog[place := record])
  {
    hide Shows, IsPlace, Sane, RecordBlob, PutRecord;
    PutShows(hash, odb, store, d.node, catalog, place, record);
  }

  lemma PresentIsThere(odb: Odb, store: Odb, root: Node, catalog: Catalog, place: Place)
    requires Shows(odb, store, root, catalog) && place in catalog
    ensures Edit(odb, root, Rm(PathOf(place))).Some?
  {
    hide PathOf, LookAt, SetAt, IsPlace, RecordIn, TreeEdits.Open;
    ShardsFit(place);
    RecordOnlyInLeaf(store, SpotAt(odb, root, PathOf(place)));
    RemoveSucceeds(odb, root, PathOf(place));
  }

  lemma RecordOnlyInLeaf(store: Odb, spot: Spot)
    requires RecordIn(store, spot).Some? && RecordIn(store, spot).value.Some?
    ensures spot.Leaf?
  {
    hide DecodeFile, DecodeRecord;
  }

  lemma {:induction false} PruneAccepts(hash: Hash, odb: Odb, store: Odb, root: Node, catalog: Catalog, path: Path,
          depth: nat)
    requires Shows(odb, store, root, catalog) && depth <= |path| && depth < RECORD_DEPTH
        && OpenAbove(odb, root, path, depth)
    ensures Prune(hash, odb, root, path, depth).Some?
    decreases depth
  {
    hide PathOf, LookAt, Edit, RecordIn, SpotAt, IsPlace, Shows, Build, EntryOf;
    if depth > 0 {
      var at := path[..depth];
      assert LookAt(odb, root, at).Found? && LookAt(odb, root, at).node.Made?;
      EntryIsKnown(hash, odb, store, root, catalog, at);
      var entry := EntryOf(hash, LookAt(odb, root, at).node).value;
      if entry.kind == Dir && entry.size == 0 {
        MadeCanGo(odb, root, at);
        EmptyHoldsNothing(hash, odb, store, root, catalog, at);
        CatalogPlaces(odb, store, root, catalog);
        RmShows(odb, store, root, catalog, at, catalog);
        RmOpens(odb, root, path, depth);
        PruneAccepts(hash, odb, store, Edit(odb, root, Rm(at)).value, catalog, path, depth - 1);
      }
    }
  }

  lemma EntryIsKnown(hash: Hash, odb: Odb, store: Odb, root: Node, catalog: Catalog, at: Path)
    requires Shows(odb, store, root, catalog) && LookAt(odb, root, at).Found?
    ensures EntryOf(hash, LookAt(odb, root, at).node).Some?
  {
    hide LookAt, Spread, Build, RecordIn, SpotAt, PathOf, IsPlace;
    CatalogBuilds(hash, odb, root, at, LookAt(odb, root, at).node);
  }

  lemma MadeCanGo(odb: Odb, root: Node, at: Path)
    requires at != [] && LookAt(odb, root, at).Found?
    ensures Edit(odb, root, Rm(at)).Some?
  {
    hide LookAt, SetAt;
    RemoveSucceeds(odb, root, at);
  }

  lemma DropAccepts(hash: Hash, odb: Odb, store: Odb, d: Draft, catalog: Catalog, place: Place)
    requires Shows(odb, store, d.node, catalog) && place in catalog
    ensures Drop(hash, odb, d, place).Some?
        && Shows(odb, store, Drop(hash, odb, d, place).value.node, catalog - {place})
  {
    hide PathOf, Edit, Prune, Shows, IsPlace;
    CatalogPlaces(odb, store, d.node, catalog);
    PresentIsThere(odb, store, d.node, catalog, place);
    ShardsFit(place);
    var path := PathOf(place);
    Removable(hash, odb, store, d.node, catalog, place);
    RemoveShows(hash, odb, store, d.node, catalog, place);
  }

  lemma Removable(hash: Hash, odb: Odb, store: Odb, root: Node, catalog: Catalog, place: Place)
    requires Shows(odb, store, root, catalog) && IsPlace(place) && place in catalog
        && Edit(odb, root, Rm(PathOf(place))).Some?
    ensures RemoveRecord(hash, odb, root, place).Some?
  {
    hide PathOf, LookAt, Edit, SpotAt, IsPlace, Prune, Shows;
    var path := PathOf(place);
    ShardsFit(place);
    forall p: Place | IsPlace(p)
      ensures path <= PathOf(p) <==> p == place
    {
      if p != place { PlacesApart(place, p); }
    }
    CatalogPlaces(odb, store, root, catalog);
    RmShows(odb, store, root, catalog, path, catalog - {place});
    assert path[..|path|] == path;
    RmOpens(odb, root, path, |path|);
    PruneAccepts(hash, odb, store, Edit(odb, root, Rm(path)).value, catalog - {place}, path, |path| - 1);
  }

  // The record files an exchange on this catalog brings, each kept under its hash.
  ghost predicate BringsRecords(hash: Hash, store: Odb, catalog: Catalog, expected: Option<Reference>,
          replacement: Option<Reference>) {
    var (previous, next) := (Retention.SnapshotOf(expected), Retention.SnapshotOf(replacement));
    && (replacement.Some? && Retention.Checked(replacement).None? ==>
      HoldsRecord(hash, store, Retention.Holding(replacement.value)))
    && (previous != next && previous.Some? && Retention.Count(catalog, previous.value).Ok?
        && Retention.Count(catalog, previous.value).value > 1 ==>
          HoldsRecord(hash, store,
              Retention.Membership(previous.value, Retention.Count(catalog, previous.value).value - 1)))
    && (previous != next && next.Some? && Retention.Count(catalog, next.value).Ok?
        && Retention.Count(catalog, next.value).value < Retention.MAX_COUNT ==>
          HoldsRecord(hash, store, Retention.Membership(next.value, Retention.Count(catalog, next.value).value + 1)))
  }

  lemma SetReferenceAccepts(hash: Hash, odb: Odb, store: Odb, d: Draft, catalog: Catalog, place: Place,
          replacement: Option<Reference>)
    requires Shows(odb, store, d.node, catalog) && IsPlace(place)
    requires if replacement.Some? then HoldsRecord(hash, store, Retention.Holding(replacement.value))
        else place in catalog
    ensures SetReference(hash, odb, d, place, replacement).Some?
    ensures Shows(odb, store, SetReference(hash, odb, d, place, replacement).value.node,
        Retention.WithReference(catalog, place, replacement))
  {
    hide Shows, IsPlace, HoldsRecord, Keep, Drop;
    if replacement.Some? { KeepAccepts(hash, odb, store, d, catalog, place, Retention.Holding(replacement.value)); }
    else { DropAccepts(hash, odb, store, d, catalog, place); }
  }

  lemma SetCountAccepts(hash: Hash, odb: Odb, store: Odb, d: Draft, catalog: Catalog, snapshot: Id, count: nat)
    requires Shows(odb, store, d.node, catalog) && IsId(snapshot)
    requires if count > 0 then HoldsRecord(hash, store, Retention.Membership(snapshot, count))
        else Retention.AtMembership(snapshot) in catalog
    ensures SetCount(hash, odb, d, snapshot, count).Some?
    ensures Shows(odb, store, SetCount(hash, odb, d, snapshot, count).value.node,
        Retention.WithCount(catalog, snapshot, count))
  {
    hide Shows, HoldsRecord, Keep, Drop;
    if count > 0 { KeepAccepts(hash, odb, store, d, catalog, Retention.AtMembership(snapshot),
        Retention.Membership(snapshot, count)); }
    else { DropAccepts(hash, odb, store, d, catalog, Retention.AtMembership(snapshot)); }
  }

  // A count read in the tree is the flat one.
  lemma CountsAgree(odb: Odb, root: Node, catalog: Catalog, snapshot: Id)
    requires Shows(odb, odb, root, catalog) && IsId(snapshot)
    ensures CountOf(odb, root, snapshot).Some? == Retention.Count(catalog, snapshot).Ok?
    ensures CountOf(odb, root, snapshot).Some? ==>
        CountOf(odb, root, snapshot).value == Retention.Count(catalog, snapshot).value
    ensures CountOf(odb, root, snapshot).Some? && CountOf(odb, root, snapshot).value > 0 ==>
        Retention.AtMembership(snapshot) in catalog
  {
    hide Shows, ReadRecord;
    ReadsAs(odb, root, catalog, Retention.AtMembership(snapshot));
  }

  // The edit goes through exactly if the flat one does.
  lemma EditAccepts(hash: Hash, odb: Odb, store: Odb, root: Node, catalog: Catalog, place: Place,
                    expected: Option<Reference>, replacement: Option<Reference>)
    requires Shows(odb, odb, root, catalog) && Shows(odb, store, root, catalog) && IsPlace(place) && place.AtReference?
    requires BringsRecords(hash, store, catalog, expected, replacement) && Retention.Checked(replacement).None?
    requires replacement.None? ==> place in catalog
    ensures EditCatalog(hash, odb, root, place, expected, replacement).Some? <==>
        EditFlat(catalog, place, expected, replacement).Some?
    ensures EditCatalog(hash, odb, root, place, expected, replacement).Some? ==>
      Shows(odb, store, EditCatalog(hash, odb, root, place, expected, replacement).value.node,
          EditFlat(catalog, place, expected, replacement).value)
  {
    hide Shows, IsPlace, HoldsRecord, SetReference, SetCount, CountOf, Retention.Count, FromHex32;
    var previous, next := Retention.SnapshotOf(expected), Retention.SnapshotOf(replacement);
    CheckedIds(expected);
    CheckedIds(replacement);
    SetReferenceAccepts(hash, odb, store, Draft(root, []), catalog, place, replacement);
    if previous != next {
      var edited := SetReference(hash, odb, Draft(root, []), place, replacement).value;
      var flat := Retention.WithReference(catalog, place, replacement);
      CountStepsAccept(hash, odb, store, root, catalog, edited, flat, previous, next, expected, replacement);
    }
  }

  lemma CountStepsAccept(hash: Hash, odb: Odb, store: Odb, root: Node, catalog: Catalog, edited: Draft, flat: Catalog,
                         previous: Option<Id>, next: Option<Id>, expected: Option<Reference>,
                         replacement: Option<Reference>)
    requires Shows(odb, odb, root, catalog) && Shows(odb, store, edited.node, flat)
        && BringsRecords(hash, store, catalog, expected, replacement)
    requires previous == Retention.SnapshotOf(expected) && next == Retention.SnapshotOf(replacement) && previous != next
    requires (previous.Some? ==> IsId(previous.value)) && (next.Some? ==> IsId(next.value))
    requires forall s :: Retention.AtMembership(s) in catalog ==> Retention.AtMembership(s) in flat
    ensures var lost := LoseOne(hash, odb, root, edited, previous);
      && lost.Some? == Retention.Dropped(catalog, flat, previous).Ok?
      && (lost.Some? ==>
            var gained := GainOne(hash, odb, root, lost.value, next);
            var dropped := Retention.Dropped(catalog, flat, previous).value;
            && gained.Some? == Retention.Added(catalog, dropped, next).Ok?
            && (gained.Some? ==> Shows(odb, store, gained.value.node, Retention.Added(catalog, dropped, next).value)))
  {
    hide Shows, HoldsRecord, SetCount, CountOf, Retention.Count, FromHex32;
    if previous.Some? {
      CountsAgree(odb, root, catalog, previous.value);
      var n := CountOf(odb, root, previous.value);
      if n.Some? && n.value > 0 { SetCountAccepts(hash, odb, store, edited, flat, previous.value, n.value - 1); }
    }
    var lost := LoseOne(hash, odb, root, edited, previous);
    if lost.Some? && next.Some? {
      CountsAgree(odb, root, catalog, next.value);
      var n := CountOf(odb, root, next.value);
      if n.Some? {
        CountIsBounded(odb, root, catalog, next.value);
        if n.value < Retention.MAX_COUNT {
          SetCountAccepts(hash, odb, store, lost.value, Retention.Dropped(catalog, flat, previous).value, next.value,
              n.value + 1);
        }
      }
    }
  }

  lemma FlatAccepts(hash: Hash, catalog: Catalog, moduleId: Text, key: Text, expected: Option<Reference>,
          replacement: Option<Reference>)
    ensures Retention.CompareExchange(hash, catalog, moduleId, key, expected, replacement).Ok? <==>
      && Retention.ValidName(moduleId, key) && Retention.Checked(expected).None? && Retention.Checked(replacement).None?
      && Retention.Look(catalog, Retention.PlaceOf(hash, moduleId, key)) == Ok(expected)
      && (expected == replacement
          || (!(expected.Some? && replacement.Some? && replacement.value.revision <= expected.value.revision)
              && EditFlat(catalog, Retention.PlaceOf(hash, moduleId, key), expected, replacement).Some?))
  {
    hide Retention.PlaceOf, Retention.Look, Retention.Dropped, Retention.Added, Retention.WithReference,
      Retention.Checked, Retention.ValidName;
  }

  lemma ExchangeIs(hash: Hash, odb: Odb, tree: Option<Id>, moduleId: Text, key: Text, expected: Option<Reference>,
          replacement: Option<Reference>)
    ensures var (root, place) := (Opening(tree), Retention.PlaceOf(hash, moduleId, key));
      Exchange(hash, odb, tree, moduleId, key, expected, replacement).Some? <==>
        && Retention.ValidName(moduleId, key) && Retention.Checked(expected).None?
          && Retention.Checked(replacement).None?
        && GetReference(odb, root, place) == Some(expected)
        && (expected == replacement
            || (!(expected.Some? && replacement.Some? && replacement.value.revision <= expected.value.revision)
                && EditCatalog(hash, odb, root, place, expected, replacement).Some?
                && Finish(hash, EditCatalog(hash, odb, root, place, expected, replacement).value).Some?))
  {
    hide EditCatalog, Finish, Retention.Checked, Retention.ValidName, Retention.PlaceOf, GetReference;
  }

  // The tree accepts an exchange exactly if the flat catalog does.
  lemma ExchangeAccepts(hash: Hash, odb: Odb, tree: Option<Id>, catalog: Catalog, moduleId: Text, key: Text,
                        expected: Option<Reference>, replacement: Option<Reference>, store: Odb)
    requires Represents(odb, tree, catalog) && TreeEdits.Typed(hash) && Extends(odb, store)
    requires BringsRecords(hash, store, catalog, expected, replacement)
    ensures Exchange(hash, odb, tree, moduleId, key, expected, replacement).Some?
      <==> Retention.CompareExchange(hash, catalog, moduleId, key, expected, replacement).Ok?
  {
    hide Shows, EditCatalog, EditFlat, Finish, FromHex32, Retention.Checked, Retention.ValidName, Extends,
      Retention.PlaceOf, GetReference,
      BringsRecords, IsPlace, Retention.CompareExchange, Retention.Look, Exchange, ReadRecord, CountOf;
    var root, place := Opening(tree), Retention.PlaceOf(hash, moduleId, key);
    FlatAccepts(hash, catalog, moduleId, key, expected, replacement);
    ExchangeIs(hash, odb, tree, moduleId, key, expected, replacement);
    PlaceIsPlace(hash, moduleId, key);
    ReadsAs(odb, root, catalog, place);
    LookMeans(catalog, place, expected);
    if GetReference(odb, root, place) == Some(expected) && expected != replacement
        && Retention.Checked(replacement).None? {
      ShowsMore(odb, store, root, catalog);
      EditAccepts(hash, odb, store, root, catalog, place, expected, replacement);
      if EditCatalog(hash, odb, root, place, expected, replacement).Some? {
        FinishAccepts(hash, odb, store, EditCatalog(hash, odb, root, place, expected, replacement).value,
          EditFlat(catalog, place, expected, replacement).value);
      }
    }
  }

  lemma LookMeans(catalog: Catalog, place: Place, expected: Option<Reference>)
    ensures Retention.Look(catalog, place) == Ok(expected) && expected.Some? ==> place in catalog
  {
  }

  lemma FinishAccepts(hash: Hash, odb: Odb, store: Odb, d: Draft, catalog: Catalog)
    requires Shows(odb, store, d.node, catalog)
    ensures Finish(hash, d).Some?
  {
    hide Spread, Build, LookAt, RecordIn, SpotAt, PathOf, IsPlace;
    LookNone(odb, d.node);
    CatalogBuilds(hash, odb, d.node, [], d.node);
  }

  // ---- runs ----------------------------------------------------------------------------------------------

  // A catalog tree in a store that keeps what every exchange brought.
  datatype Kept = Kept(store: Odb, tree: Option<Id>)

  function Adding(hash: Hash, store: Odb, blobs: seq<Blob>): Odb {
    if blobs == [] then store
        else Adding(hash, store, blobs[..|blobs| - 1])[hash(blobs[|blobs| - 1]) := blobs[|blobs| - 1]]
  }

  function TreeStep(hash: Hash, k: Kept, call: Retention.Call): Kept {
    match Exchange(hash, k.store, k.tree, call.moduleId, call.key, call.expected, call.replacement)
    case None => k
    case Some((tree, objects)) => Kept(Adding(hash, k.store, objects), tree)
  }

  function TreeRun(hash: Hash, calls: seq<Retention.Call>): Kept {
    if calls == [] then Kept(map[], None) else TreeStep(hash, TreeRun(hash, calls[..|calls| - 1]), calls[|calls| - 1])
  }

  // No hash of this run confuses two objects, revisions are u64s, and the record files the next call
  // could bring collide with nothing kept.
  ghost predicate CleanStep(hash: Hash, k: Kept, catalog: Catalog, call: Retention.Call) {
    && (call.replacement.Some? ==> call.replacement.value.revision < Range(8))
    && (forall result ::
      Exchange(hash, k.store, k.tree, call.moduleId, call.key, call.expected, call.replacement) == Some(result) ==>
          Extends(k.store, Adding(hash, k.store, result.1)) && Stores(hash, Adding(hash, k.store, result.1), result.1)
          && (result.0.Some? ==> IsId(result.0.value)))
    && exists store :: Extends(k.store, store) && BringsRecords(hash, store, catalog, call.expected, call.replacement)
  }

  ghost predicate CleanRun(hash: Hash, calls: seq<Retention.Call>) {
    calls == [] || (CleanRun(hash, calls[..|calls| - 1])
      && CleanStep(hash, TreeRun(hash, calls[..|calls| - 1]), Retention.Run(hash, calls[..|calls| - 1]),
        calls[|calls| - 1]))
  }

  // After any sequence of exchanges the tree is the flat catalog of the same sequence, refusals and all.
  lemma {:induction false} EveryRunRepresents(hash: Hash, calls: seq<Retention.Call>)
    requires TreeEdits.Typed(hash) && CleanRun(hash, calls)
    ensures var k := TreeRun(hash, calls);
      Represents(k.store, k.tree, Retention.Run(hash, calls)) && (k.tree.Some? ==> IsId(k.tree.value))
    decreases |calls|
  {
    if calls == [] {
      EmptyShows(map[], map[]);
    } else {
      var front, call := calls[..|calls| - 1], calls[|calls| - 1];
      EveryRunRepresents(hash, front);
      StepRepresents(hash, TreeRun(hash, front), Retention.Run(hash, front), call);
    }
  }

  lemma StepRepresents(hash: Hash, k: Kept, catalog: Catalog, call: Retention.Call)
    requires TreeEdits.Typed(hash) && CleanStep(hash, k, catalog, call)
    requires Represents(k.store, k.tree, catalog) && (k.tree.Some? ==> IsId(k.tree.value))
    ensures var after := TreeStep(hash, k, call);
      Represents(after.store, after.tree, Retention.Step(hash, catalog, call))
          && (after.tree.Some? ==> IsId(after.tree.value))
  {
    hide Represents, Exchange, BringsRecords, Extends, Stores, Adding, Range, Retention.CompareExchange;
    var result := Exchange(hash, k.store, k.tree, call.moduleId, call.key, call.expected, call.replacement);
    var store :| Extends(k.store, store) && BringsRecords(hash, store, catalog, call.expected, call.replacement);
    ExchangeAccepts(hash, k.store, k.tree, catalog, call.moduleId, call.key, call.expected, call.replacement, store);
    if result.Some? {
      ExchangeRefines(hash, k.store, k.tree, catalog, call.moduleId, call.key, call.expected, call.replacement,
        Adding(hash, k.store, result.value.1));
    }
  }
}
