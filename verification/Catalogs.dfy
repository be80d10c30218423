// The retention catalog as it is kept (crates/duckfs/core/src/retention.rs:25-319): a tree of record
// files under hash shards, edited copy-on-write and pruned of directories it has emptied. It is the
// flat catalog of Retention.dfy, record for record.
module Catalogs {
  import opened Wrappers
  import opened Texts
  import opened Kinds
  import opened Grammars
  import opened Objects
  import opened Records
  import opened TreeEdits
  import Retention
  import Sanitizing
  import Actors

  type Place = Retention.Place
  type Record = Retention.Record
  type Catalog = Retention.Catalog

  // ---- record files ------------------------------------------------------------------------------------

  function Digits(n: nat): Text {
    Sanitizing.Digits(n)
  }

  function FileOf(record: Record): FileObj {
    match record
    case Holding(reference) => FileObj(0, [],
        map[SNAPSHOT_KEY := reference.snapshot, REVISION_KEY := Digits(reference.revision)])
    case Membership(snapshot, count) => FileObj(0, [], map[SNAPSHOT_KEY := ToHex(snapshot), COUNT_KEY := Digits(count)])
  }

  // `decode_record`.
  function DecodeRecord(f: FileObj): Option<Record> {
    if !(f.size == 0 && f.chunks == [] && |f.meta| == 2) || SNAPSHOT_KEY !in f.meta
        || FromHex32(f.meta[SNAPSHOT_KEY]).None? then None
    else if REVISION_KEY in f.meta then
      match PositiveNumber(f.meta[REVISION_KEY])
      case None => None
      case Some(n) => Some(Retention.Holding(Retention.Reference(f.meta[SNAPSHOT_KEY], n)))
    else if COUNT_KEY in f.meta then
      match PositiveNumber(f.meta[COUNT_KEY])
      case None => None
      case Some(n) => Some(Retention.Membership(FromHex32(f.meta[SNAPSHOT_KEY]).value, n))
    else None
  }

  // The snapshot a record keeps.
  function SnapshotOf(record: Record): Option<Id> {
    match record
    case Holding(reference) => FromHex32(reference.snapshot)
    case Membership(snapshot, _) => Some(snapshot)
  }

  // The reachability walk and the catalog read the same records.
  lemma RecordsAgree(f: FileObj)
    ensures DecodeRecord(f).Some? <==> RecordOf(f).Some?
    ensures DecodeRecord(f).Some? ==> SnapshotOf(DecodeRecord(f).value) == RecordOf(f)
  {
    hide FromHex32, PositiveNumber;
  }

  // A record the catalog can hold: a snapshot, and a number that is not zero.
  predicate Sane(record: Record) {
    match record
    case Holding(reference) => FromHex32(reference.snapshot).Some? && 0 < reference.revision < Range(8)
    case Membership(snapshot, count) => IsId(snapshot) && 0 < count < Range(8)
  }

  lemma {:induction false} DecimalOfDigits(n: nat)
    ensures Decimal(Digits(n)) == Some(n) && Digits(n) != [] && (n > 0 ==> Digits(n)[0] != '0' as int)
  {
    var t := Digits(n);
    if n < 10 {
      assert t[..0] == [] && Decimal([]) == Some(0);
    } else {
      DecimalOfDigits(n / 10);
      assert t[..|t| - 1] == Digits(n / 10);
    }
  }

  lemma NumberReads(n: nat)
    requires 0 < n < Range(8)
    ensures PositiveNumber(Digits(n)) == Some(n)
  {
    hide Range;
    DecimalOfDigits(n);
  }

  // A text reads as a number exactly if it is that number in decimal, not zero and below 2^64: no sign,
  // no leading zero, nothing else.
  lemma NumberIsCanonical(text: Text, n: nat)
    ensures PositiveNumber(text) == Some(n) <==> text == Digits(n) && 0 < n < Range(8)
  {
    hide Range;
    DecimalOfDigits(n);
    if PositiveNumber(text) == Some(n) { DigitsOfDecimal(text, n); }
  }

  lemma {:induction false} DigitsOfDecimal(text: Text, n: nat)
    requires text != [] && Decimal(text) == Some(n) && (text[0] != 48 || |text| == 1)
    ensures Digits(n) == text
  {
    var front, last := text[..|text| - 1], text[|text| - 1];
    if |text| == 1 {
      assert front == [] && Decimal([]) == Some(0);
    } else {
      assert front[0] == text[0];
      DigitsOfDecimal(front, n / 10);
      assert Decimal(front) == Some(n / 10);
      Leading(front, n / 10);
    }
  }

  lemma {:induction false} Leading(text: Text, n: nat)
    requires text != [] && Decimal(text) == Some(n) && text[0] != 48
    ensures n > 0
  {
    if |text| == 1 {
      assert text[..0] == [] && Decimal([]) == Some(0);
    } else {
      assert text[..|text| - 1][0] == text[0];
      Leading(text[..|text| - 1], n / 10);
    }
  }

  // What is written for a record is read as that record.
  lemma RecordReads(record: Record)
    requires Sane(record)
    ensures DecodeRecord(FileOf(record)) == Some(record)
  {
    hide FromHex32, ToHex, PositiveNumber, Digits, Range;
    assert SNAPSHOT_KEY != REVISION_KEY && SNAPSHOT_KEY != COUNT_KEY && REVISION_KEY != COUNT_KEY by { KeysDiffer(); }
    match record
    case Holding(reference) =>
      NumberReads(reference.revision);
      assert |FileOf(record).meta.Keys| == |{SNAPSHOT_KEY, REVISION_KEY}|;
    case Membership(snapshot, count) =>
      NumberReads(count);
      HexIsCanonical(snapshot, ToHex(snapshot));
      assert |FileOf(record).meta.Keys| == |{SNAPSHOT_KEY, COUNT_KEY}|;
  }

  lemma KeysDiffer()
    ensures SNAPSHOT_KEY != REVISION_KEY && SNAPSHOT_KEY != COUNT_KEY && REVISION_KEY != COUNT_KEY
  {
    assert |SNAPSHOT_KEY| == |REVISION_KEY| == 8 && |COUNT_KEY| == 5 && SNAPSHOT_KEY[0] != REVISION_KEY[0];
  }

  // ---- record files fit their frames -------------------------------------------------------------------

  predicate Ascii(text: Text) {
    forall i :: 0 <= i < |text| ==> text[i] < 128
  }

  lemma {:induction false} AsciiIsUtf8(text: Text)
    requires Ascii(text)
    ensures Utf8(text)
  {
    if text != [] { AsciiIsUtf8(text[1..]); }
  }

  lemma {:induction false} HexIsAscii(hex: Text)
    requires FromHexPairs(hex).Some?
    ensures Ascii(hex)
  {
    if hex != [] {
      HexIsAscii(hex[2..]);
      assert hex == [hex[0], hex[1]] + hex[2..];
    }
  }

  lemma {:induction false} DigitsAreAscii(n: nat)
    ensures Ascii(Digits(n))
  {
    if n >= 10 { DigitsAreAscii(n / 10); }
  }

  // Three digits a byte.
  lemma {:induction false} DigitsAreShort(n: nat, bytes: nat)
    requires n < Range(bytes)
    ensures |Digits(n)| <= 3 * bytes + 1
    decreases bytes
  {
    if bytes > 0 && n >= 10 {
      var m := n / 10 / 10 / 10;
      assert m < Range(bytes - 1) by { assert Range(bytes) == 256 * Range(bytes - 1); }
      DigitsAreShort(m, bytes - 1);
      assert |Digits(n)| == 1 + |Digits(n / 10)|;
      if n / 10 >= 10 {
        assert |Digits(n / 10)| == 1 + |Digits(n / 10 / 10)|;
        if n / 10 / 10 >= 10 { assert |Digits(n / 10 / 10)| == 1 + |Digits(m)|; }
      }
    }
  }

  lemma RecordFits(record: Record)
    requires Sane(record)
    ensures FileFits(FileOf(record))
  {
    hide FromHex32, ToHex, Digits, Range, Utf8;
    Lengths();
    KeysAreUtf8();
    match record
    case Holding(reference) =>
      HexFits(reference.snapshot);
      DigitsFit(reference.revision);
    case Membership(snapshot, count) =>
      HexIsCanonical(snapshot, ToHex(snapshot));
      HexFits(ToHex(snapshot));
      DigitsFit(count);
  }

  lemma Lengths()
    ensures 1000 < Range(8)
  {
    assert Range(2) == 65536;
    assert Range(4) == 65536 * 65536;
    assert Range(6) == Range(4) * 65536;
  }

  lemma KeysAreUtf8()
    ensures Utf8(SNAPSHOT_KEY) && Utf8(REVISION_KEY) && Utf8(COUNT_KEY)
  {
    AsciiIsUtf8(SNAPSHOT_KEY);
    AsciiIsUtf8(REVISION_KEY);
    AsciiIsUtf8(COUNT_KEY);
  }

  lemma HexFits(hex: Text)
    requires FromHex32(hex).Some?
    ensures |hex| == 64 && Utf8(hex)
  {
    HexIsAscii(hex);
    AsciiIsUtf8(hex);
  }

  lemma DigitsFit(n: nat)
    requires n < Range(8)
    ensures |Digits(n)| <= 25 && Utf8(Digits(n))
  {
    DigitsAreShort(n, 8);
    DigitsAreAscii(n);
    AsciiIsUtf8(Digits(n));
  }

  // ---- places ------------------------------------------------------------------------------------------

  const REFERENCES: Text := ['r' as int, 'e' as int, 'f' as int, 'e' as int, 'r' as int, 'e' as int, 'n' as int,
      'c' as int, 'e' as int, 's' as int]
  const SNAPSHOTS: Text := ['s' as int, 'n' as int, 'a' as int, 'p' as int, 's' as int, 'h' as int, 'o' as int,
      't' as int, 's' as int]
  const RECORD_DEPTH: nat := 33

  // Two hex digits a byte.
  function Shard(b: Byte): Text {
    [HexDigit(b / 16), HexDigit(b % 16)]
  }

  function Shards(section: Text, id: Id): (path: Path)
    ensures |path| == 1 + |id| && path[0] == section
    ensures forall i :: 0 <= i < |id| ==> path[1 + i] == Shard(id[i])
  {
    [section] + seq(|id|, i requires 0 <= i < |id| => Shard(id[i]))
  }

  predicate IsPlace(place: Place) {
    match place
    case AtReference(digest) => IsId(digest)
    case AtMembership(snapshot) => IsId(snapshot)
  }

  function PathOf(place: Place): Path {
    match place
    case AtReference(digest) => Shards(REFERENCES, digest)
    case AtMembership(snapshot) => Shards(SNAPSHOTS, snapshot)
  }

  // A record sits below `references` or `snapshots`, in a directory for each byte of its id, named by the
  // byte's two hex digits.
  lemma PathIs(place: Place, i: nat)
    requires IsPlace(place) && i < 32
    ensures var id := if place.AtReference? then place.digest else place.snapshot;
      && |PathOf(place)| == 33 && PathOf(place)[1 + i] == ToHex([id[i]])
      && PathOf(place)[0] == if place.AtReference? then [114, 101, 102, 101, 114, 101, 110, 99, 101, 115]
                             else [115, 110, 97, 112, 115, 104, 111, 116, 115]
  {
    var id := if place.AtReference? then place.digest else place.snapshot;
    assert [id[i]][1..] == [] && ToHex([]) == [];
  }

  lemma ShardsDiffer(a: Byte, b: Byte)
    ensures Shard(a) == Shard(b) ==> a == b
  {
  }

  lemma {:induction false} SamePathSameId(section: Text, a: Id, b: Id)
    requires Shards(section, a) == Shards(section, b)
    ensures a == b
  {
    hide Shard;
    assert |a| == |Shards(section, a)| - 1 == |b|;
    forall i | 0 <= i < |a|
      ensures a[i] == b[i]
    {
      assert Shards(section, a)[1 + i] == Shard(a[i]) && Shards(section, b)[1 + i] == Shard(b[i]);
      ShardsDiffer(a[i], b[i]);
    }
  }

  // Places lie equally deep, so none is above another.
  lemma PlacesApart(p: Place, q: Place)
    requires IsPlace(p) && IsPlace(q) && p != q
    ensures |PathOf(p)| == |PathOf(q)| == RECORD_DEPTH && PathOf(p) != PathOf(q)
    ensures !(PathOf(p) <= PathOf(q)) && !(PathOf(q) <= PathOf(p))
  {
    hide Shards;
    assert REFERENCES != SNAPSHOTS by { assert |REFERENCES| == 10 && |SNAPSHOTS| == 9; }
    if PathOf(p) == PathOf(q) {
      assert PathOf(p)[0] == PathOf(q)[0];
      if p.AtReference? { SamePathSameId(REFERENCES, p.digest, q.digest); }
          else { SamePathSameId(SNAPSHOTS, p.snapshot, q.snapshot); }
    }
  }

  lemma ShardsFit(place: Place)
    requires IsPlace(place)
    ensures PathFits(PathOf(place)) && |PathOf(place)| == RECORD_DEPTH
  {
    hide Utf8, Range, Shard;
    Lengths();
    var path := PathOf(place);
    SectionsAreUtf8();
    forall i | 0 <= i < |path|
      ensures Short(path[i], MAX_NAME_BYTES)
    {
      if i > 0 {
        var id := if place.AtReference? then place.digest else place.snapshot;
        assert path[1 + (i - 1)] == Shard(id[i - 1]);
        ShardFits(id[i - 1]);
      }
    }
  }

  lemma SectionsAreUtf8()
    ensures Utf8(REFERENCES) && |REFERENCES| == 10 && Utf8(SNAPSHOTS) && |SNAPSHOTS| == 9
  {
    AsciiIsUtf8(REFERENCES);
    AsciiIsUtf8(SNAPSHOTS);
  }

  lemma ShardFits(b: Byte)
    ensures Utf8(Shard(b)) && |Shard(b)| == 2
  {
    AsciiIsUtf8(Shard(b));
  }

  // ---- reading -----------------------------------------------------------------------------------------

  // The record behind what stands at a place: outer None where it is no record, inner None where
  // nothing is there.
  function RecordIn(odb: Odb, spot: Spot): Option<Option<Record>> {
    match spot
    case Nothing => Some(None)
    case Leaf(entry) =>
      if entry.kind == File && entry.id in odb && odb[entry.id].kind == FileKind && DecodeFile(odb[entry.id].body).Some?
         && DecodeRecord(DecodeFile(odb[entry.id].body).value).Some?
      then Some(DecodeRecord(DecodeFile(odb[entry.id].body).value)) else None
    case _ => None
  }

  // `get_record`.
  function ReadRecord(odb: Odb, root: Node, place: Place): Option<Option<Record>> {
    RecordIn(odb, SpotAt(odb, root, PathOf(place)))
  }

  function Lookup(catalog: Catalog, place: Place): Option<Record> {
    if place in catalog then Some(catalog[place]) else None
  }

  // Directories and places only, to the depth of the places, and all of it readable.
  ghost predicate Spread(odb: Odb, root: Node) {
    forall q :: SpreadAt(q, SpotAt(odb, root, q))
  }

  // Above a place there could be a record at.
  ghost predicate OnTheWay(q: Path) {
    exists place :: IsPlace(place) && q <= PathOf(place)
  }

  ghost predicate SpreadAt(q: Path, spot: Spot) {
    match spot
    case Nothing => true
    case Directory => |q| < RECORD_DEPTH && OnTheWay(q)
    case Leaf(entry) => entry.kind == File && exists place :: IsPlace(place) && PathOf(place) == q
    case _ => false
  }

  // The tree shows exactly the flat catalog, record bodies found in `store`.
  ghost predicate Shows(odb: Odb, store: Odb, root: Node, catalog: Catalog) {
    && Spread(odb, root)
    && (forall place :: place in catalog ==> IsPlace(place))
    && (forall place :: IsPlace(place) ==>
          RecordIn(store, SpotAt(odb, root, PathOf(place))) == Some(Lookup(catalog, place)))
  }

  lemma RootIsOnTheWay()
    ensures OnTheWay([])
  {
    hide PathOf;
    var place := Retention.AtReference(seq(32, i => 0));
    assert IsPlace(place) && [] <= PathOf(place);
  }

  lemma EmptySpot(odb: Odb, q: Path)
    ensures SpotAt(odb, Made(map[]), q) == if q == [] then Directory else Nothing
  {
    hide LookAt, TreeEdits.Open;
    NothingBelow(odb, q);
    MadeOpens(odb, Made(map[]));
  }

  lemma EmptyShows(odb: Odb, store: Odb)
    ensures Shows(odb, store, Made(map[]), map[])
  {
    hide LookAt, TreeEdits.Open, SpotAt, PathOf, IsPlace;
    forall q: Path { EmptySpot(odb, q); }
    RootIsOnTheWay();
    forall place: Place | IsPlace(place)
      ensures RecordIn(store, SpotAt(odb, Made(map[]), PathOf(place))) == Some(None)
    {
      ShardsFit(place);
    }
  }

  // ---- editing -----------------------------------------------------------------------------------------

  function RecordBlob(record: Record): Blob {
    Blob(FileKind, EncodeFile(FileOf(record)))
  }

  function PutRecord(hash: Hash, odb: Odb, root: Node, place: Place, record: Record): Option<Node> {
    Edit(odb, root, Put(PathOf(place), TreeEntry(File, hash(RecordBlob(record)), false, 0)))
  }

  // The entry an edit reports for a node: an opened directory's is worked out, but not staged.
  function EntryOf(hash: Hash, node: Node): Option<TreeEntry> {
    match Build(hash, node)
    case None => None
    case Some((entry, _)) => Some(entry)
  }

  // Directories emptied from here up go, too.
  function Prune(hash: Hash, odb: Odb, root: Node, path: Path, depth: nat): Option<Node>
    requires depth <= |path|
    decreases depth
  {
    if depth == 0 then Some(root)
    else
      match LookAt(odb, root, path[..depth])
      case Found(node) =>
        (match EntryOf(hash, node)
         case None => None
         case Some(entry) =>
           if entry.kind != Dir || entry.size != 0 then Some(root)
           else
             match Edit(odb, root, Rm(path[..depth]))
             case None => None
             case Some(after) => Prune(hash, odb, after, path, depth - 1))
      case _ => None
  }

  function RemoveRecord(hash: Hash, odb: Odb, root: Node, place: Place): Option<Node> {
    match Edit(odb, root, Rm(PathOf(place)))
    case None => None
    case Some(after) => if PathOf(place) == [] then None
        else Prune(hash, odb, after, PathOf(place), |PathOf(place)| - 1)
  }

  lemma BelowAFile(odb: Odb, entry: TreeEntry, q: Path)
    requires entry.kind == File
    ensures SpotAt(odb, Ref(entry), q) == if q == [] then Leaf(entry) else Nothing
  {
    hide FetchTree;
  }

  lemma RecordIsStored(hash: Hash, store: Odb, record: Record)
    requires Sane(record) && hash(RecordBlob(record)) in store && store[hash(RecordBlob(record))] == RecordBlob(record)
    ensures RecordIn(store, Leaf(TreeEntry(File, hash(RecordBlob(record)), false, 0))) == Some(Some(record))
  {
    hide FileOf, DecodeRecord, EncodeFile, DecodeFile, FileFits;
    RecordFits(record);
    RecordReads(record);
    var t: TreeObj, s: SnapshotObj := TreeObj(map[]), SnapshotObj([], None, Actors.System, 0, 0, []);
    BodiesAreCanonical(RecordBlob(record).body, FileOf(record), t, s);
  }

  lemma PutIsPermitted(odb: Odb, root: Node, place: Place, entry: TreeEntry)
    requires Spread(odb, root) && IsPlace(place)
    ensures Permitted(TreeOf(odb, root), Put(PathOf(place), entry))
  {
    hide PathOf, LookAt;
    ShardsFit(place);
    var path := PathOf(place);
    forall i | 0 <= i < |path|
      ensures TreeOf(odb, root)(path[..i]) == Directory || TreeOf(odb, root)(path[..i]) == Nothing
    {
      assert SpreadAt(path[..i], SpotAt(odb, root, path[..i]));
      SpotBeforeRecord(path[..i], SpotAt(odb, root, path[..i]));
    }
  }

  lemma SpotBeforeRecord(q: Path, spot: Spot)
    requires SpreadAt(q, spot) && |q| < RECORD_DEPTH
    ensures spot == Directory || spot == Nothing
  {
    if spot.Leaf? {
      var place :| IsPlace(place) && PathOf(place) == q;
      ShardsFit(place);
    }
  }

  // Putting a record shows the catalog with that record.
  lemma PutShows(hash: Hash, odb: Odb, store: Odb, root: Node, catalog: Catalog, place: Place, record: Record)
    requires Shows(odb, store, root, catalog) && IsPlace(place) && Sane(record)
    requires hash(RecordBlob(record)) in store && store[hash(RecordBlob(record))] == RecordBlob(record)
    ensures PutRecord(hash, odb, root, place, record).Some?
    ensures Shows(odb, store, PutRecord(hash, odb, root, place, record).value, catalog[place := record])
  {
    hide PathOf, LookAt, Edit, RecordIn, SpotAt, Permitted, RecordBlob, Sane, IsPlace;
    var entry := TreeEntry(File, hash(RecordBlob(record)), false, 0);
    var path, op := PathOf(place), Put(PathOf(place), entry);
    PutIsPermitted(odb, root, place, entry);
    EditRefines(odb, root, op);
    ShardsFit(place);
    RecordIsStored(hash, store, record);
    var after := PutRecord(hash, odb, root, place, record).value;
    forall q: Path
      ensures SpreadAt(q, SpotAt(odb, after, q))
    {
      assert SpreadAt(q, SpotAt(odb, root, q));
      if path <= q {
        BelowAFile(odb, entry, q[|path|..]);
        assert q[|path|..] == [] <==> q == path;
      }
    }
    forall p: Place | IsPlace(p)
      ensures RecordIn(store, SpotAt(odb, after, PathOf(p))) == Some(Lookup(catalog[place := record], p))
    {
      if p == place {
        BelowAFile(odb, entry, []);
        assert path[|path|..] == [];
      } else {
        PlacesApart(place, p);
      }
    }
  }

  // Taking away what holds no record, or the one record meant, leaves the rest of the catalog.
  lemma RmShows(odb: Odb, store: Odb, root: Node, catalog: Catalog, path: Path, kept: Catalog)
    requires Shows(odb, store, root, catalog) && path != [] && Edit(odb, root, Rm(path)).Some?
    requires forall p: Place :: IsPlace(p) && !(path <= PathOf(p)) ==> Lookup(kept, p) == Lookup(catalog, p)
    requires forall p: Place :: IsPlace(p) && path <= PathOf(p) ==> p !in kept
    requires forall p :: p in kept ==> IsPlace(p)
    ensures Shows(odb, store, Edit(odb, root, Rm(path)).value, kept)
  {
    hide PathOf, LookAt, Edit, SpotAt, Permitted, IsPlace, Lookup, RecordIn, SpreadAt;
    EditRefines(odb, root, Rm(path));
    var after := Edit(odb, root, Rm(path)).value;
    forall q: Path
      ensures SpreadAt(q, SpotAt(odb, after, q))
    {
      assert SpreadAt(q, SpotAt(odb, root, q));
      NothingSpreads(q);
    }
    forall p: Place | IsPlace(p)
      ensures RecordIn(store, SpotAt(odb, after, PathOf(p))) == Some(Lookup(kept, p))
    {
      LookupNone(kept, p);
      NothingIsRead(store);
    }
  }

  lemma NothingSpreads(q: Path)
    ensures SpreadAt(q, Nothing)
  {
  }

  lemma NothingIsRead(store: Odb)
    ensures RecordIn(store, Nothing) == Some(None)
  {
  }

  lemma LookupNone(catalog: Catalog, place: Place)
    ensures place !in catalog ==> Lookup(catalog, place) == None
  {
  }

  // The directories above a removed path are open.
  ghost predicate OpenAbove(odb: Odb, root: Node, path: Path, depth: nat) {
    forall i :: 0 <= i <= depth && i <= |path| ==>
      LookAt(odb, root, path[..i]).Found? && LookAt(odb, root, path[..i]).node.Made?
  }

  lemma RmOpens(odb: Odb, root: Node, path: Path, depth: nat)
    requires 0 < depth <= |path| && Edit(odb, root, Rm(path[..depth])).Some?
    ensures OpenAbove(odb, Edit(odb, root, Rm(path[..depth])).value, path, depth - 1)
  {
    hide LookAt, Edit;
    forall i | 0 <= i <= depth - 1
      ensures LookAt(odb, Edit(odb, root, Rm(path[..depth])).value, path[..i]).Found?
      ensures LookAt(odb, Edit(odb, root, Rm(path[..depth])).value, path[..i]).node.Made?
    {
      EditIsExact(odb, root, Rm(path[..depth]), path[..i]);
      assert path[..i] == path[..depth][..i];
      assert |path[..i]| < |path[..depth]|;
    }
  }

  lemma EmptyIsEmpty(hash: Hash, node: Node)
    requires node.Made? && EntryOf(hash, node).Some? && EntryOf(hash, node).value.size == 0
    ensures node == Made(map[])
  {
    hide Build, DirBlob, FromChild;
    BuildUnfold(hash, node);
    var entries: map<Text, TreeEntry> :| BuiltDir(hash, node, entries) && OwnOrBelow(hash, node, entries);
    assert |node.children.Keys| == |entries.Keys| == |entries|;
  }

  lemma EmptyHoldsNothing(hash: Hash, odb: Odb, store: Odb, root: Node, catalog: Catalog, path: Path)
    requires Shows(odb, store, root, catalog) && LookAt(odb, root, path).Found? && LookAt(odb, root, path).node.Made?
        && |path| < RECORD_DEPTH
    requires EntryOf(hash, LookAt(odb, root, path).node).Some?
        && EntryOf(hash, LookAt(odb, root, path).node).value.size == 0
    ensures forall p: Place :: IsPlace(p) && path <= PathOf(p) ==> p !in catalog
  {
    hide PathOf, LookAt, Build, RecordIn, Spread, EntryOf, SpotAt, IsPlace;
    EmptyIsEmpty(hash, LookAt(odb, root, path).node);
    forall p: Place | IsPlace(p) && path <= PathOf(p)
      ensures p !in catalog
    {
      var rest := PathOf(p)[|path|..];
      assert PathOf(p) == path + rest;
      ShardsFit(p);
      LookFurther(odb, root, path, rest);
      NothingBelow(odb, rest);
      SpotOfNothing(odb, store, root, PathOf(p));
    }
  }

  lemma SpotOfNothing(odb: Odb, store: Odb, root: Node, path: Path)
    requires LookAt(odb, root, path).Absent?
    ensures RecordIn(store, SpotAt(odb, root, path)) == Some(None)
  {
    hide LookAt;
  }

  // Pruning takes no record.
  lemma {:induction false} PruneShows(hash: Hash, odb: Odb, store: Odb, root: Node, catalog: Catalog, path: Path,
          depth: nat)
    requires Shows(odb, store, root, catalog) && depth <= |path| && depth < RECORD_DEPTH
        && OpenAbove(odb, root, path, depth)
    requires Prune(hash, odb, root, path, depth).Some?
    ensures Shows(odb, store, Prune(hash, odb, root, path, depth).value, catalog)
    decreases depth
  {
    hide PathOf, LookAt, Edit, RecordIn, SpotAt, IsPlace, Shows, Build, EntryOf;
    if depth > 0 {
      var at := path[..depth];
      assert LookAt(odb, root, at).Found? && LookAt(odb, root, at).node.Made?;
      var entry := EntryOf(hash, LookAt(odb, root, at).node).value;
      if entry.kind == Dir && entry.size == 0 {
        EmptyHoldsNothing(hash, odb, store, root, catalog, at);
        CatalogPlaces(odb, store, root, catalog);
        RmShows(odb, store, root, catalog, at, catalog);
        RmOpens(odb, root, path, depth);
        PruneShows(hash, odb, store, Edit(odb, root, Rm(at)).value, catalog, path, depth - 1);
      }
    }
  }

  lemma CatalogPlaces(odb: Odb, store: Odb, root: Node, catalog: Catalog)
    requires Shows(odb, store, root, catalog)
    ensures forall p :: p in catalog ==> IsPlace(p)
  {
    hide Spread, RecordIn, SpotAt, PathOf;
  }

  // Removing a record shows the catalog without it.
  lemma RemoveShows(hash: Hash, odb: Odb, store: Odb, root: Node, catalog: Catalog, place: Place)
    requires Shows(odb, store, root, catalog) && IsPlace(place) && RemoveRecord(hash, odb, root, place).Some?
    ensures place in catalog && Shows(odb, store, RemoveRecord(hash, odb, root, place).value, catalog - {place})
  {
    hide PathOf, LookAt, Edit, SpotAt, IsPlace, Prune, Shows, Permitted;
    var path := PathOf(place);
    ShardsFit(place);
    RemovedWasThere(odb, store, root, catalog, place);
    forall p: Place | IsPlace(p)
      ensures path <= PathOf(p) <==> p == place
    {
      if p != place { PlacesApart(place, p); }
    }
    CatalogPlaces(odb, store, root, catalog);
    RmShows(odb, store, root, catalog, path, catalog - {place});
    assert path[..|path|] == path;
    RmOpens(odb, root, path, |path|);
    PruneShows(hash, odb, store, Edit(odb, root, Rm(path)).value, catalog - {place}, path, |path| - 1);
  }

  lemma RemovedWasThere(odb: Odb, store: Odb, root: Node, catalog: Catalog, place: Place)
    requires Shows(odb, store, root, catalog) && IsPlace(place) && Edit(odb, root, Rm(PathOf(place))).Some?
    ensures place in catalog
  {
    hide PathOf, LookAt, Edit, RecordIn, IsPlace;
    EditRefines(odb, root, Rm(PathOf(place)));
    assert SpreadAt(PathOf(place), SpotAt(odb, root, PathOf(place)));
    ShardsFit(place);
    if place !in catalog { NothingThere(odb, store, SpotAt(odb, root, PathOf(place))); }
  }

  lemma NothingThere(odb: Odb, store: Odb, spot: Spot)
    requires RecordIn(store, spot) == Some(None)
    ensures spot == Nothing
  {
    hide DecodeFile, DecodeRecord;
  }

  // ---- exchanging --------------------------------------------------------------------------------------

  type Reference = Retention.Reference

  // A catalog being edited, and the record files it brings.
  datatype Draft = Draft(node: Node, objects: seq<Blob>)

  function GetReference(odb: Odb, root: Node, place: Place): Option<Option<Reference>> {
    match ReadRecord(odb, root, place)
    case Some(None) => Some(None)
    case Some(Some(Holding(reference))) => Some(Some(reference))
    case _ => None
  }

  function CountOf(odb: Odb, root: Node, snapshot: Id): Option<nat> {
    match ReadRecord(odb, root, Retention.AtMembership(snapshot))
    case Some(None) => Some(0)
    case Some(Some(Membership(id, count))) => if id == snapshot then Some(count) else None
    case _ => None
  }

  function Keep(hash: Hash, odb: Odb, d: Draft, place: Place, record: Record): Option<Draft> {
    match PutRecord(hash, odb, d.node, place, record)
    case None => None
    case Some(node) => Some(Draft(node, d.objects + [RecordBlob(record)]))
  }

  function Drop(hash: Hash, odb: Odb, d: Draft, place: Place): Option<Draft> {
    match RemoveRecord(hash, odb, d.node, place)
    case None => None
    case Some(node) => Some(Draft(node, d.objects))
  }

  function SetReference(hash: Hash, odb: Odb, d: Draft, place: Place, replacement: Option<Reference>): Option<Draft> {
    if replacement.Some? then Keep(hash, odb, d, place, Retention.Holding(replacement.value))
        else Drop(hash, odb, d, place)
  }

  function SetCount(hash: Hash, odb: Odb, d: Draft, snapshot: Id, count: nat): Option<Draft> {
    if count == 0 then Drop(hash, odb, d, Retention.AtMembership(snapshot))
    else Keep(hash, odb, d, Retention.AtMembership(snapshot), Retention.Membership(snapshot, count))
  }

  // Counts are read in the catalog as it was before the edit.
  function LoseOne(hash: Hash, odb: Odb, root: Node, d: Draft, snapshot: Option<Id>): Option<Draft> {
    if snapshot.None? then Some(d)
    else
      match CountOf(odb, root, snapshot.value)
      case None => None
      case Some(n) => if n == 0 then None else SetCount(hash, odb, d, snapshot.value, n - 1)
  }

  function GainOne(hash: Hash, odb: Odb, root: Node, d: Draft, snapshot: Option<Id>): Option<Draft> {
    if snapshot.None? then Some(d)
    else
      match CountOf(odb, root, snapshot.value)
      case None => None
      case Some(n) => if n == Retention.MAX_COUNT then None else SetCount(hash, odb, d, snapshot.value, n + 1)
  }

  function EditCatalog(hash: Hash, odb: Odb, root: Node, place: Place, expected: Option<Reference>,
          replacement: Option<Reference>): Option<Draft> {
    match SetReference(hash, odb, Draft(root, []), place, replacement)
    case None => None
    case Some(edited) =>
      var (previous, next) := (Retention.SnapshotOf(expected), Retention.SnapshotOf(replacement));
      if previous == next then Some(edited)
      else
        match LoseOne(hash, odb, root, edited, previous)
        case None => None
        case Some(dropped) => GainOne(hash, odb, root, dropped, next)
  }

  // An empty catalog has no root object.
  function Finish(hash: Hash, d: Draft): Option<(Option<Id>, seq<Blob>)> {
    if d.node == Made(map[]) then Some((None, d.objects))
    else
      match Build(hash, d.node)
      case None => None
      case Some((entry, blobs)) => Some((Some(entry.id), d.objects + blobs))
  }

  // `compare_exchange`: the new catalog root and the objects it brings.
  function Exchange(hash: Hash, odb: Odb, tree: Option<Id>, moduleId: Text, key: Text,
                    expected: Option<Reference>, replacement: Option<Reference>): Option<(Option<Id>, seq<Blob>)> {
    var place := Retention.PlaceOf(hash, moduleId, key);
    if !Retention.ValidName(moduleId, key) || Retention.Checked(expected).Some?
        || Retention.Checked(replacement).Some? then None
    else if GetReference(odb, Opening(tree), place) != Some(expected) then None
    else if expected == replacement then Some((tree, []))
    else if expected.Some? && replacement.Some? && replacement.value.revision <= expected.value.revision then None
    else
      match EditCatalog(hash, odb, Opening(tree), place, expected, replacement)
      case None => None
      case Some(d) => Finish(hash, d)
  }

  // ---- the tree is the flat catalog ----------------------------------------------------------------------

  ghost predicate Represents(odb: Odb, tree: Option<Id>, catalog: Catalog) {
    Shows(odb, odb, Opening(tree), catalog)
  }

  lemma RecordInStays(odb: Odb, store: Odb, spot: Spot)
    requires Extends(odb, store) && RecordIn(odb, spot).Some?
    ensures RecordIn(store, spot) == RecordIn(odb, spot)
  {
    hide DecodeFile, DecodeRecord;
  }

  lemma ShowsMore(odb: Odb, store: Odb, root: Node, catalog: Catalog)
    requires Shows(odb, odb, root, catalog) && Extends(odb, store)
    ensures Shows(odb, store, root, catalog)
  {
    hide RecordIn, SpotAt, PathOf, Extends, IsPlace, Spread;
    forall place: Place | IsPlace(place) { RecordInStays(odb, store, SpotAt(odb, root, PathOf(place))); }
  }

  lemma ShownAreSane(odb: Odb, store: Odb, root: Node, catalog: Catalog, place: Place)
    requires Shows(odb, store, root, catalog) && place in catalog
    ensures Sane(catalog[place])
  {
    hide SpotAt, PathOf, Spread, DecodeFile, FromHex32, PositiveNumber, Range;
    var spot := SpotAt(odb, root, PathOf(place));
    assert RecordIn(store, spot) == Some(Some(catalog[place]));
    DecodedIsSane(DecodeFile(store[spot.entry.id].body).value);
  }

  lemma DecodedIsSane(f: FileObj)
    requires DecodeRecord(f).Some?
    ensures Sane(DecodeRecord(f).value)
  {
    hide Decimal, Range, FromHexPairs;
    SnapshotIsId(f.meta[SNAPSHOT_KEY]);
    if REVISION_KEY in f.meta { PositiveIsPositive(f.meta[REVISION_KEY]); }
        else { PositiveIsPositive(f.meta[COUNT_KEY]); }
  }

  lemma SnapshotIsId(hex: Text)
    ensures FromHex32(hex).Some? ==> IsId(FromHex32(hex).value)
  {
    if |hex| == 64 && FromHexPairs(hex).Some? { HexPairsRoundTrip(FromHexPairs(hex).value, hex); }
  }

  lemma PositiveIsPositive(text: Text)
    ensures PositiveNumber(text).Some? ==> 0 < PositiveNumber(text).value < Range(8)
  {
    hide Range;
    if text != [] && text[0] != '0' as int && Decimal(text).Some? { LeadingDigit(text); }
  }

  lemma {:induction false} LeadingDigit(text: Text)
    requires text != [] && text[0] != '0' as int && Decimal(text).Some?
    ensures Decimal(text).value > 0
  {
    if |text| > 1 { LeadingDigit(text[..|text| - 1]); } else { assert text[..0] == []; }
  }

  lemma ReadsAs(odb: Odb, root: Node, catalog: Catalog, place: Place)
    requires Shows(odb, odb, root, catalog) && IsPlace(place)
    ensures ReadRecord(odb, root, place) == Some(Lookup(catalog, place))
    ensures place.AtReference? ==>
      GetReference(odb, root, place)
          == (match Retention.Look(catalog, place) case Ok(found) => Some(found) case Err(_) => None)
    ensures place.AtMembership? ==>
      CountOf(odb, root, place.snapshot)
          == (match Retention.Count(catalog, place.snapshot) case Ok(n) => Some(n) case Err(_) => None)
  {
    hide SpotAt, PathOf, Spread, RecordIn;
  }

  // A step of an edit shows the flat catalog after the same step.
  ghost predicate Steps(hash: Hash, odb: Odb, store: Odb, d: Draft, after: Option<Draft>, kept: Catalog) {
    after.Some? ==> d.objects <= after.value.objects && (Stores(hash, store, after.value.objects) ==>
        Shows(odb, store, after.value.node, kept))
  }

  lemma KeepShows(hash: Hash, odb: Odb, store: Odb, d: Draft, catalog: Catalog, place: Place, record: Record)
    requires Stores(hash, store, d.objects) ==> Shows(odb, store, d.node, catalog)
    requires IsPlace(place) && Sane(record)
    ensures Steps(hash, odb, store, d, Keep(hash, odb, d, place, record), catalog[place := record])
  {
    hide Shows, IsPlace, Sane, PutRecord, RecordBlob;
    var after := Keep(hash, odb, d, place, record);
    if after.Some? && Stores(hash, store, after.value.objects) {
      assert after.value.objects[|d.objects|] == RecordBlob(record);
      FirstStored(hash, store, d.objects, after.value.objects);
      PutShows(hash, odb, store, d.node, catalog, place, record);
    }
  }

  lemma FirstStored(hash: Hash, store: Odb, first: seq<Blob>, all: seq<Blob>)
    requires first <= all && Stores(hash, store, all)
    ensures Stores(hash, store, first)
  {
  }

  lemma DropShows(hash: Hash, odb: Odb, store: Odb, d: Draft, catalog: Catalog, place: Place)
    requires Stores(hash, store, d.objects) ==> Shows(odb, store, d.node, catalog)
    requires IsPlace(place)
    ensures Steps(hash, odb, store, d, Drop(hash, odb, d, place), catalog - {place})
  {
    hide Shows, IsPlace, RemoveRecord, Stores;
    var after := Drop(hash, odb, d, place);
    if after.Some? && Stores(hash, store, after.value.objects) {
      RemoveShows(hash, odb, store, d.node, catalog, place);
    }
  }

  lemma SetCountShows(hash: Hash, odb: Odb, store: Odb, d: Draft, catalog: Catalog, snapshot: Id, count: nat)
    requires Stores(hash, store, d.objects) ==> Shows(odb, store, d.node, catalog)
    requires IsId(snapshot) && count < Range(8)
    ensures Steps(hash, odb, store, d, SetCount(hash, odb, d, snapshot, count),
        Retention.WithCount(catalog, snapshot, count))
  {
    hide Shows, Keep, Drop, Stores, Steps, Range;
    if count == 0 { DropShows(hash, odb, store, d, catalog, Retention.AtMembership(snapshot)); }
    else { KeepShows(hash, odb, store, d, catalog, Retention.AtMembership(snapshot),
        Retention.Membership(snapshot, count)); }
  }

  lemma SetReferenceShows(hash: Hash, odb: Odb, store: Odb, d: Draft, catalog: Catalog, place: Place,
          replacement: Option<Reference>)
    requires Stores(hash, store, d.objects) ==> Shows(odb, store, d.node, catalog)
    requires IsPlace(place) && Retention.Checked(replacement).None?
        && (replacement.Some? ==> replacement.value.revision < Range(8))
    ensures Steps(hash, odb, store, d, SetReference(hash, odb, d, place, replacement),
        Retention.WithReference(catalog, place, replacement))
  {
    hide Shows, Keep, Drop, Stores, Steps, Range, FromHex32;
    if replacement.None? { DropShows(hash, odb, store, d, catalog, place); }
    else { KeepShows(hash, odb, store, d, catalog, place, Retention.Holding(replacement.value)); }
  }

  lemma Limit()
    ensures Retention.MAX_COUNT + 1 == Range(8)
  {
    assert Range(2) == 0x1_0000;
    assert Range(4) == 0x1_0000 * 0x1_0000;
    assert Range(6) == 0x1_0000 * Range(4);
  }

  lemma CountIsBounded(odb: Odb, root: Node, catalog: Catalog, snapshot: Id)
    requires Shows(odb, odb, root, catalog) && IsId(snapshot) && CountOf(odb, root, snapshot).Some?
    ensures CountOf(odb, root, snapshot).value <= Retention.MAX_COUNT
    ensures Retention.Count(catalog, snapshot) == Ok(CountOf(odb, root, snapshot).value)
  {
    hide Shows, Range, ReadRecord, FromHex32;
    var place := Retention.AtMembership(snapshot);
    ReadsAs(odb, root, catalog, place);
    if place in catalog { ShownAreSane(odb, odb, root, catalog, place); }
    Limit();
  }

  lemma LoseOneShows(hash: Hash, odb: Odb, store: Odb, root: Node, was: Catalog, d: Draft, catalog: Catalog,
          snapshot: Option<Id>)
    requires Shows(odb, odb, root, was) && (Stores(hash, store, d.objects) ==> Shows(odb, store, d.node, catalog))
    requires snapshot.Some? ==> IsId(snapshot.value)
    requires LoseOne(hash, odb, root, d, snapshot).Some?
    ensures Retention.Dropped(was, catalog, snapshot).Ok?
    ensures Steps(hash, odb, store, d, LoseOne(hash, odb, root, d, snapshot),
        Retention.Dropped(was, catalog, snapshot).value)
  {
    hide Shows, SetCount, Stores, Steps, CountOf, Retention.Count, Range;
    if snapshot.Some? {
      CountIsBounded(odb, root, was, snapshot.value);
      Limit();
      SetCountShows(hash, odb, store, d, catalog, snapshot.value, CountOf(odb, root, snapshot.value).value - 1);
    } else {
      StepsNowhere(hash, odb, store, d, catalog);
    }
  }

  lemma StepsNowhere(hash: Hash, odb: Odb, store: Odb, d: Draft, catalog: Catalog)
    requires Stores(hash, store, d.objects) ==> Shows(odb, store, d.node, catalog)
    ensures Steps(hash, odb, store, d, Some(d), catalog)
  {
    hide Shows, Stores;
  }

  lemma GainOneShows(hash: Hash, odb: Odb, store: Odb, root: Node, was: Catalog, d: Draft, catalog: Catalog,
          snapshot: Option<Id>)
    requires Shows(odb, odb, root, was) && (Stores(hash, store, d.objects) ==> Shows(odb, store, d.node, catalog))
    requires snapshot.Some? ==> IsId(snapshot.value)
    requires GainOne(hash, odb, root, d, snapshot).Some?
    ensures Retention.Added(was, catalog, snapshot).Ok?
    ensures Steps(hash, odb, store, d, GainOne(hash, odb, root, d, snapshot),
        Retention.Added(was, catalog, snapshot).value)
  {
    hide Shows, SetCount, Stores, Steps, CountOf, Retention.Count, Range;
    if snapshot.Some? {
      CountIsBounded(odb, root, was, snapshot.value);
      Limit();
      SetCountShows(hash, odb, store, d, catalog, snapshot.value, CountOf(odb, root, snapshot.value).value + 1);
    } else {
      StepsNowhere(hash, odb, store, d, catalog);
    }
  }

  // What the flat catalog comes to by the same edit.
  function EditFlat(catalog: Catalog, place: Place, expected: Option<Reference>,
          replacement: Option<Reference>): Option<Catalog> {
    var edited := Retention.WithReference(catalog, place, replacement);
    var (previous, next) := (Retention.SnapshotOf(expected), Retention.SnapshotOf(replacement));
    if previous == next then Some(edited)
    else
      match Retention.Dropped(catalog, edited, previous)
      case Err(_) => None
      case Ok(dropped) =>
        match Retention.Added(catalog, dropped, next)
        case Err(_) => None
        case Ok(after) => Some(after)
  }

  lemma CheckedIds(reference: Option<Reference>)
    ensures Retention.SnapshotOf(reference).Some? ==> IsId(Retention.SnapshotOf(reference).value)
  {
    hide FromHex32;
    if reference.Some? { SnapshotIsId(reference.value.snapshot); }
  }

  lemma EditShows(hash: Hash, odb: Odb, store: Odb, root: Node, catalog: Catalog, place: Place,
          expected: Option<Reference>, replacement: Option<Reference>)
    requires Shows(odb, odb, root, catalog) && Shows(odb, store, root, catalog) && IsPlace(place)
    requires Retention.Checked(replacement).None? && (replacement.Some? ==> replacement.value.revision < Range(8))
    requires EditCatalog(hash, odb, root, place, expected, replacement).Some?
    requires Stores(hash, store, EditCatalog(hash, odb, root, place, expected, replacement).value.objects)
    ensures EditFlat(catalog, place, expected, replacement).Some?
    ensures Shows(odb, store, EditCatalog(hash, odb, root, place, expected, replacement).value.node,
        EditFlat(catalog, place, expected, replacement).value)
  {
    hide Shows, SetReference, LoseOne, GainOne, Stores, Range, FromHex32, Retention.WithReference, Retention.Dropped,
      Retention.Added, Retention.Checked, IsPlace;
    var begun := Draft(root, []);
    var edited := SetReference(hash, odb, begun, place, replacement).value;
    SetReferenceShows(hash, odb, store, begun, catalog, place, replacement);
    CheckedIds(expected);
    CheckedIds(replacement);
    var flat := Retention.WithReference(catalog, place, replacement);
    var previous, next := Retention.SnapshotOf(expected), Retention.SnapshotOf(replacement);
    if previous != next {
      LoseOneShows(hash, odb, store, root, catalog, edited, flat, previous);
      GainOneShows(hash, odb, store, root, catalog, LoseOne(hash, odb, root, edited, previous).value,
          Retention.Dropped(catalog, flat, previous).value, next);
    }
  }

  // ---- what the edited tree is made of -------------------------------------------------------------------

  function RecordEntry(hash: Hash, record: Record): TreeEntry {
    TreeEntry(File, hash(RecordBlob(record)), false, 0)
  }

  // The new record files are good entries.
  ghost predicate Welcome(hash: Hash, objects: seq<Blob>, snapshots: set<Option<Id>>, ok: TreeEntry -> bool) {
    forall record: Record ::
        Sane(record) && RecordBlob(record) in objects && SnapshotOf(record) in snapshots ==>
        ok(RecordEntry(hash, record))
  }

  // A step of an edit keeps the tree good, as long as its records are welcome.
  ghost predicate KeepsGood(hash: Hash, d: Draft, after: Option<Draft>, snapshots: set<Option<Id>>,
          ok: TreeEntry -> bool) {
    after.Some? ==> d.objects <= after.value.objects && (Good(d.node, ok) && Welcome(hash, after.value.objects,
        snapshots, ok) ==> Good(after.value.node, ok))
  }

  lemma {:induction false} PruneIsGood(hash: Hash, odb: Odb, root: Node, path: Path, depth: nat, ok: TreeEntry -> bool)
    requires Good(root, ok) && Hereditary(odb, ok) && depth <= |path| && PathFits(path)
        && Prune(hash, odb, root, path, depth).Some?
    ensures Good(Prune(hash, odb, root, path, depth).value, ok)
    decreases depth
  {
    hide LookAt, Edit, Good, Hereditary, EntryOf, Short;
    if depth > 0 {
      var node := LookAt(odb, root, path[..depth]).node;
      var entry := EntryOf(hash, node).value;
      if entry.kind == Dir && entry.size == 0 {
        EditIsGood(odb, root, Rm(path[..depth]), ok);
        PruneIsGood(hash, odb, Edit(odb, root, Rm(path[..depth])).value, path, depth - 1, ok);
      }
    }
  }

  lemma KeepIsGood(hash: Hash, odb: Odb, d: Draft, place: Place, record: Record, snapshots: set<Option<Id>>,
          ok: TreeEntry -> bool)
    requires Hereditary(odb, ok) && IsPlace(place) && Sane(record) && SnapshotOf(record) in snapshots
    ensures KeepsGood(hash, d, Keep(hash, odb, d, place, record), snapshots, ok)
  {
    hide Edit, Good, Hereditary, IsPlace, Sane, RecordBlob, PathOf, PathFits;
    ShardsFit(place);
    var after := Keep(hash, odb, d, place, record);
    if after.Some? && Good(d.node, ok) && Welcome(hash, after.value.objects, snapshots, ok) {
      assert RecordBlob(record) in after.value.objects;
      EditIsGood(odb, d.node, Put(PathOf(place), RecordEntry(hash, record)), ok);
    }
  }

  lemma DropIsGood(hash: Hash, odb: Odb, d: Draft, place: Place, snapshots: set<Option<Id>>, ok: TreeEntry -> bool)
    requires Hereditary(odb, ok) && IsPlace(place)
    ensures KeepsGood(hash, d, Drop(hash, odb, d, place), snapshots, ok)
  {
    hide Edit, Good, Hereditary, IsPlace, PathOf, PathFits, Prune, Welcome;
    ShardsFit(place);
    if Drop(hash, odb, d, place).Some? && Good(d.node, ok) {
      var path := PathOf(place);
      EditIsGood(odb, d.node, Rm(path), ok);
      PruneIsGood(hash, odb, Edit(odb, d.node, Rm(path)).value, path, |path| - 1, ok);
    }
  }

  lemma SetCountIsGood(hash: Hash, odb: Odb, d: Draft, snapshot: Id, count: nat, snapshots: set<Option<Id>>,
          ok: TreeEntry -> bool)
    requires Hereditary(odb, ok) && IsId(snapshot) && count < Range(8) && Some(snapshot) in snapshots
    ensures KeepsGood(hash, d, SetCount(hash, odb, d, snapshot, count), snapshots, ok)
  {
    hide Hereditary, Keep, Drop, KeepsGood, Range;
    if count == 0 { DropIsGood(hash, odb, d, Retention.AtMembership(snapshot), snapshots, ok); }
    else { KeepIsGood(hash, odb, d, Retention.AtMembership(snapshot), Retention.Membership(snapshot, count), snapshots,
        ok); }
  }

  lemma SetReferenceIsGood(hash: Hash, odb: Odb, d: Draft, place: Place, replacement: Option<Reference>,
          snapshots: set<Option<Id>>, ok: TreeEntry -> bool)
    requires Hereditary(odb, ok) && IsPlace(place) && Retention.Checked(replacement).None?
    requires (replacement.Some? ==> replacement.value.revision < Range(8))
        && Retention.SnapshotOf(replacement) in snapshots
    ensures KeepsGood(hash, d, SetReference(hash, odb, d, place, replacement), snapshots, ok)
  {
    hide Hereditary, Keep, Drop, KeepsGood, Range, FromHex32;
    if replacement.None? { DropIsGood(hash, odb, d, place, snapshots, ok); }
    else { KeepIsGood(hash, odb, d, place, Retention.Holding(replacement.value), snapshots, ok); }
  }

  lemma {:induction false} CountsAreGood(hash: Hash, odb: Odb, root: Node, was: Catalog, d: Draft,
          snapshot: Option<Id>, snapshots: set<Option<Id>>, ok: TreeEntry -> bool)
    requires Hereditary(odb, ok) && Shows(odb, odb, root, was) && (snapshot.Some? ==> IsId(snapshot.value))
        && snapshot in snapshots
    ensures KeepsGood(hash, d, LoseOne(hash, odb, root, d, snapshot), snapshots, ok)
    ensures KeepsGood(hash, d, GainOne(hash, odb, root, d, snapshot), snapshots, ok)
  {
    hide Hereditary, Shows, SetCount, CountOf, Range, Good, Welcome;
    Limit();
    if snapshot.Some? && CountOf(odb, root, snapshot.value).Some? {
      CountIsBounded(odb, root, was, snapshot.value);
      var n := CountOf(odb, root, snapshot.value).value;
      if n > 0 { SetCountIsGood(hash, odb, d, snapshot.value, n - 1, snapshots, ok); }
      if n < Retention.MAX_COUNT { SetCountIsGood(hash, odb, d, snapshot.value, n + 1, snapshots, ok); }
    }
  }

  lemma WelcomeLess(hash: Hash, objects: seq<Blob>, all: seq<Blob>, snapshots: set<Option<Id>>, ok: TreeEntry -> bool)
    requires objects <= all && Welcome(hash, all, snapshots, ok)
    ensures Welcome(hash, objects, snapshots, ok)
  {
    hide RecordBlob, Sane, SnapshotOf;
    forall record: Record | Sane(record) && RecordBlob(record) in objects && SnapshotOf(record) in snapshots
      ensures ok(RecordEntry(hash, record))
    {
      assert RecordBlob(record) in all;
    }
  }

  lemma CatalogIsGood(hash: Hash, odb: Odb, root: Node, was: Catalog, place: Place, expected: Option<Reference>,
          replacement: Option<Reference>, ok: TreeEntry -> bool)
    requires Hereditary(odb, ok) && Good(root, ok) && Shows(odb, odb, root, was) && IsPlace(place)
    requires Retention.Checked(replacement).None? && (replacement.Some? ==> replacement.value.revision < Range(8))
    requires EditCatalog(hash, odb, root, place, expected, replacement).Some?
    requires Welcome(hash, EditCatalog(hash, odb, root, place, expected, replacement).value.objects,
                     {Retention.SnapshotOf(expected), Retention.SnapshotOf(replacement)}, ok)
    ensures Good(EditCatalog(hash, odb, root, place, expected, replacement).value.node, ok)
  {
    hide Hereditary, Good, Shows, SetReference, LoseOne, GainOne, Range, FromHex32, Retention.Checked, IsPlace, Welcome;
    var previous, next := Retention.SnapshotOf(expected), Retention.SnapshotOf(replacement);
    var snapshots := {previous, next};
    CheckedIds(expected);
    CheckedIds(replacement);
    var begun := Draft(root, []);
    var last := EditCatalog(hash, odb, root, place, expected, replacement).value;
    var edited := SetReference(hash, odb, begun, place, replacement).value;
    SetReferenceIsGood(hash, odb, begun, place, replacement, snapshots, ok);
    if previous != next {
      var dropped := LoseOne(hash, odb, root, edited, previous).value;
      CountsAreGood(hash, odb, root, was, edited, previous, snapshots, ok);
      CountsAreGood(hash, odb, root, was, dropped, next, snapshots, ok);
      WelcomeLess(hash, dropped.objects, last.objects, snapshots, ok);
      WelcomeLess(hash, edited.objects, dropped.objects, snapshots, ok);
    }
  }

  // ---- the exchange is the flat one ----------------------------------------------------------------------

  lemma SameSpotsShow(odb: Odb, store: Odb, root: Node, after: Node, catalog: Catalog)
    requires Shows(odb, store, root, catalog) && forall q :: SpotAt(store, after, q) == SpotAt(odb, root, q)
    ensures Shows(store, store, after, catalog)
  {
    hide SpotAt, RecordIn, PathOf, IsPlace;
    forall q: Path
      ensures SpreadAt(q, SpotAt(store, after, q))
    {
      assert SpreadAt(q, SpotAt(odb, root, q));
    }
  }

  lemma RootIsDir(odb: Odb, store: Odb, root: Node, catalog: Catalog)
    requires Shows(odb, store, root, catalog)
    ensures SpotAt(odb, root, []) == Directory
  {
    hide LookAt, PathOf;
    assert SpreadAt([], SpotAt(odb, root, []));
    LookNone(odb, root);
    if SpotAt(odb, root, []).Leaf? {
      var place :| IsPlace(place) && PathOf(place) == [];
      ShardsFit(place);
    }
  }

  // The finished catalog, read back, is the edited one.
  lemma FinishShows(hash: Hash, odb: Odb, store: Odb, d: Draft, catalog: Catalog)
    requires Shows(odb, store, d.node, catalog) && Fit(d.node) && TreeEdits.Typed(hash) && Extends(odb, store)
    requires Finish(hash, d).Some? && Stores(hash, store, Finish(hash, d).value.1)
    ensures Represents(store, Finish(hash, d).value.0, catalog)
  {
    hide Build, LookAt, TreeEdits.Open, Good, Extends, RecordIn, PathOf, IsPlace;
    var tree := Finish(hash, d).value.0;
    if d.node == Made(map[]) {
      forall q: Path
        ensures SpotAt(store, Made(map[]), q) == SpotAt(odb, Made(map[]), q)
      {
        NothingBelow(odb, q);
        NothingBelow(store, q);
        MadeOpens(odb, Made(map[]));
        MadeOpens(store, Made(map[]));
      }
      SameSpotsShow(odb, store, d.node, Made(map[]), catalog);
    } else {
      var (entry, blobs) := Build(hash, d.node).value;
      StoresPart(hash, store, blobs, d.objects + blobs);
      RootIsDir(odb, store, d.node, catalog);
      forall q: Path
        ensures SpotAt(store, Ref(entry), q) == SpotAt(odb, d.node, q)
      {
        assert SpreadAt(q, SpotAt(odb, d.node, q));
        BuiltShows(hash, odb, d.node, q, store);
      }
      assert SpotAt(store, Ref(entry), []) == Directory;
      LookNone(store, Ref(entry));
      forall q: Path
        ensures SpotAt(store, DirRef(entry.id), q) == SpotAt(odb, d.node, q)
      {
        SameDir(store, entry, q);
      }
      SameSpotsShow(odb, store, d.node, DirRef(entry.id), catalog);
    }
  }

  lemma EditFlatIs(hash: Hash, catalog: Catalog, moduleId: Text, key: Text, expected: Option<Reference>,
          replacement: Option<Reference>)
    requires var place := Retention.PlaceOf(hash, moduleId, key);
      && Retention.ValidName(moduleId, key) && Retention.Checked(expected).None? && Retention.Checked(replacement).None?
      && Retention.Look(catalog, place) == Ok(expected) && expected != replacement
      && !(expected.Some? && replacement.Some? && replacement.value.revision <= expected.value.revision)
      && EditFlat(catalog, place, expected, replacement).Some?
    ensures Retention.CompareExchange(hash, catalog, moduleId, key, expected, replacement)
      == Ok(EditFlat(catalog, Retention.PlaceOf(hash, moduleId, key), expected, replacement).value)
  {
    hide Retention.PlaceOf, Retention.Look, Retention.Dropped, Retention.Added, Retention.WithReference,
      Retention.Checked, Retention.ValidName;
  }

  lemma PlaceIsPlace(hash: Hash, moduleId: Text, key: Text)
    requires TreeEdits.Typed(hash)
    ensures IsPlace(Retention.PlaceOf(hash, moduleId, key)) && Retention.PlaceOf(hash, moduleId, key).AtReference?
  {
    hide Retention.NameBytes;
  }

  lemma AllIsWelcome(hash: Hash, objects: seq<Blob>, snapshots: set<Option<Id>>)
    requires TreeEdits.Typed(hash)
    ensures Welcome(hash, objects, snapshots, Holdable)
  {
    Lengths();
    hide Range, RecordBlob;
  }

  // An exchange the tree accepts is one the flat catalog accepts, and leaves a tree of that catalog.
  lemma ExchangeRefines(hash: Hash, odb: Odb, tree: Option<Id>, catalog: Catalog, moduleId: Text, key: Text,
                        expected: Option<Reference>, replacement: Option<Reference>, store: Odb)
    requires Represents(odb, tree, catalog) && TreeEdits.Typed(hash) && (tree.Some? ==> IsId(tree.value))
    requires replacement.Some? ==> replacement.value.revision < Range(8)
    requires Exchange(hash, odb, tree, moduleId, key, expected, replacement).Some?
    requires Extends(odb, store)
        && Stores(hash, store, Exchange(hash, odb, tree, moduleId, key, expected, replacement).value.1)
    ensures var flat := Retention.CompareExchange(hash, catalog, moduleId, key, expected, replacement);
      flat.Ok? && Represents(store, Exchange(hash, odb, tree, moduleId, key, expected, replacement).value.0, flat.value)
  {
    hide Shows, EditCatalog, EditFlat, Finish, Range, FromHex32, Retention.Checked, Retention.ValidName, Good, Stores,
      Extends, Retention.PlaceOf, GetReference;
    var root, place := Opening(tree), Retention.PlaceOf(hash, moduleId, key);
    PlaceIsPlace(hash, moduleId, key);
    ReadsAs(odb, root, catalog, place);
    if expected == replacement {
      StaysTheSame(odb, tree, catalog, store);
    } else {
      var d := EditCatalog(hash, odb, root, place, expected, replacement).value;
      FinishStores(hash, store, d);
      ShowsMore(odb, store, root, catalog);
      EditShows(hash, odb, store, root, catalog, place, expected, replacement);
      EditFlatIs(hash, catalog, moduleId, key, expected, replacement);
      HoldableIsHereditary(odb);
      AllIsWelcome(hash, d.objects, {Retention.SnapshotOf(expected), Retention.SnapshotOf(replacement)});
      OpeningFits(tree);
      CatalogIsGood(hash, odb, root, catalog, place, expected, replacement, Holdable);
      FinishShows(hash, odb, store, d, EditFlat(catalog, place, expected, replacement).value);
    }
  }

  lemma OpeningFits(tree: Option<Id>)
    requires tree.Some? ==> IsId(tree.value)
    ensures Good(Opening(tree), Holdable)
  {
    Lengths();
  }

  lemma FinishStores(hash: Hash, store: Odb, d: Draft)
    requires Finish(hash, d).Some? && Stores(hash, store, Finish(hash, d).value.1)
    ensures Stores(hash, store, d.objects)
  {
    hide Build;
    StoresPart(hash, store, d.objects, Finish(hash, d).value.1);
  }

  // A tree reads the same with more objects at hand.
  lemma StaysTheSame(odb: Odb, tree: Option<Id>, catalog: Catalog, store: Odb)
    requires Represents(odb, tree, catalog) && Extends(odb, store)
    ensures Represents(store, tree, catalog)
  {
    hide LookAt, RecordIn, PathOf, IsPlace, Extends, TreeEdits.Open;
    var root := Opening(tree);
    ShowsMore(odb, store, root, catalog);
    forall q: Path
      ensures SpotAt(store, root, q) == SpotAt(odb, root, q)
    {
      assert SpreadAt(q, SpotAt(odb, root, q));
      LookStays(odb, root, q, store);
      if LookAt(odb, root, q).Found? { SpotStays(odb, LookAt(odb, root, q).node, store);
          MadeSpots(odb, store, LookAt(odb, root, q).node); }
    }
    SameSpotsShow(odb, store, root, root, catalog);
  }

  lemma MadeSpots(odb: Odb, store: Odb, node: Node)
    ensures node.Made? ==> TreeEdits.Open(store, node).Some? && TreeEdits.Open(odb, node).Some?
  {
  }

  // ---- an edited catalog is an opened tree ---------------------------------------------------------------

  lemma {:induction false} PruneIsMade(hash: Hash, odb: Odb, root: Node, path: Path, depth: nat)
    requires root.Made? && depth <= |path| && Prune(hash, odb, root, path, depth).Some?
    ensures Prune(hash, odb, root, path, depth).value.Made?
    decreases depth
  {
    hide LookAt, Edit, EntryOf;
    if depth > 0 && Edit(odb, root, Rm(path[..depth])).Some? {
      EditMakes(odb, root, Rm(path[..depth]));
      var node := LookAt(odb, root, path[..depth]).node;
      var entry := EntryOf(hash, node).value;
      if entry.kind == Dir && entry.size == 0 {
        PruneIsMade(hash, odb, Edit(odb, root, Rm(path[..depth])).value, path, depth - 1);
      }
    }
  }

  lemma KeepMakes(hash: Hash, odb: Odb, d: Draft, place: Place, record: Record)
    requires Keep(hash, odb, d, place, record).Some?
    ensures Keep(hash, odb, d, place, record).value.node.Made?
  {
    hide Edit, PathOf, RecordBlob;
    EditMakes(odb, d.node, Put(PathOf(place), RecordEntry(hash, record)));
  }

  lemma DropMakes(hash: Hash, odb: Odb, d: Draft, place: Place)
    requires Drop(hash, odb, d, place).Some?
    ensures Drop(hash, odb, d, place).value.node.Made?
  {
    hide Edit, Prune, PathOf;
    var path := PathOf(place);
    EditMakes(odb, d.node, Rm(path));
    PruneIsMade(hash, odb, Edit(odb, d.node, Rm(path)).value, path, |path| - 1);
  }

  lemma SetMakes(hash: Hash, odb: Odb, d: Draft, place: Place, replacement: Option<Reference>, snapshot: Id, count: nat)
    ensures SetReference(hash, odb, d, place, replacement).Some? ==>
        SetReference(hash, odb, d, place, replacement).value.node.Made?
    ensures SetCount(hash, odb, d, snapshot, count).Some? ==> SetCount(hash, odb, d, snapshot, count).value.node.Made?
  {
    hide Keep, Drop;
    var at := Retention.AtMembership(snapshot);
    if replacement.Some? {
      if Keep(hash, odb, d, place, Retention.Holding(replacement.value)).Some? {
        KeepMakes(hash, odb, d, place, Retention.Holding(replacement.value));
      }
    } else if Drop(hash, odb, d, place).Some? {
      DropMakes(hash, odb, d, place);
    }
    if count == 0 {
      if Drop(hash, odb, d, at).Some? { DropMakes(hash, odb, d, at); }
    } else if Keep(hash, odb, d, at, Retention.Membership(snapshot, count)).Some? {
      KeepMakes(hash, odb, d, at, Retention.Membership(snapshot, count));
    }
  }

  lemma EditedIsMade(hash: Hash, odb: Odb, root: Node, place: Place, expected: Option<Reference>,
          replacement: Option<Reference>)
    requires EditCatalog(hash, odb, root, place, expected, replacement).Some?
    ensures EditCatalog(hash, odb, root, place, expected, replacement).value.node.Made?
  {
    hide SetReference, SetCount, CountOf, FromHex32;
    forall d { SetMakes(hash, odb, d, place, replacement, [], 0); }
    forall d, snapshot, count { SetMakes(hash, odb, d, place, replacement, snapshot, count); }
  }
}
