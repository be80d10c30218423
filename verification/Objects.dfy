// The object bodies (crates/duckfs/core/src/objects.rs:65-289) as canonical frames.
module Objects {
  import opened Wrappers
  import opened Texts
  import opened Kinds
  import opened Order
  import opened Sorting
  import opened Grammars
  import opened Layouts
  import Actors

  const ID_BYTES: nat := 32
  const MAX_CHUNKS_PER_FILE: nat := 4_194_304
  const MAX_META_ENTRIES: nat := 16
  const MAX_META_KEY_BYTES: nat := 64
  const MAX_META_VALUE_BYTES: nat := 256
  const MAX_DIR_ENTRIES: nat := 65_536
  const MAX_NAME_BYTES: nat := 255
  const MAX_MESSAGE_BYTES: nat := 4096

  datatype FileObj = FileObj(size: nat, chunks: seq<Id>, meta: map<Text, Text>)

  datatype TreeEntry = TreeEntry(kind: EntryKind, id: Id, exec: bool, size: nat)

  datatype TreeObj = TreeObj(entries: map<Text, TreeEntry>)

  datatype SnapshotObj = SnapshotObj(root: Id, parent: Option<Id>, author: Actors.Actor,
                                     time: nat, height: nat, message: Text)

  predicate IsId(id: Id) {
    |id| == ID_BYTES
  }

  // A string of at most this many bytes.
  predicate Short(text: Text, cap: nat) {
    |text| < Range(8) && Utf8(text) && |text| <= cap
  }

  // ---- files ---------------------------------------------------------------------------------------

  // Within the caps, and of the widths the source's types give.
  predicate FileFits(f: FileObj) {
    && f.size < Range(8)
    && |f.chunks| <= MAX_CHUNKS_PER_FILE && (forall i :: 0 <= i < |f.chunks| ==> IsId(f.chunks[i]))
    && |f.meta| <= MAX_META_ENTRIES
    && forall key :: key in f.meta ==> Short(key, MAX_META_KEY_BYTES) && Short(f.meta[key], MAX_META_VALUE_BYTES)
  }

  function MetaEntry(): Grammar<(Text, Text)> {
    Where(Then(Str(), Str()), (kv: (Text, Text)) => |kv.0| <= MAX_META_KEY_BYTES && |kv.1| <= MAX_META_VALUE_BYTES)
  }

  function FileParts(): Grammar<(nat, (seq<Id>, map<Text, Text>))>
  {
    BelowIsTotal();
    Then(Uint(8), Then(Counted(4, MAX_CHUNKS_PER_FILE, Raw(ID_BYTES)),
        SortedMap(2, MAX_META_ENTRIES, Below, MetaEntry())))
  }

  function FileFrame(): Grammar<FileObj> {
    As(FileParts(),
       (p: (nat, (seq<Id>, map<Text, Text>))) => FileObj(p.0, p.1.0, p.1.1),
       (f: FileObj) => (f.size, (f.chunks, f.meta)),
       (f: FileObj) => FileFits(f))
  }

  lemma FileFrameLawful()
    ensures Lawful(FileFrame())
  {
    FilePartsLawful();
    FilePartsMatch();
    hide Lawful, FileParts, Matching;
    AsLawful(FileParts(),
       (p: (nat, (seq<Id>, map<Text, Text>))) => FileObj(p.0, p.1.0, p.1.1),
       (f: FileObj) => (f.size, (f.chunks, f.meta)),
       (f: FileObj) => FileFits(f));
  }

  lemma FilePartsLawful()
    ensures Lawful(FileParts())
  {
    hide Lawful;
    BelowIsTotal();
    UintLawful(8);
    RawLawful(ID_BYTES);
    Wide();
    CountedLawful(4, MAX_CHUNKS_PER_FILE, Raw(ID_BYTES));
    StrLawful();
    ThenLawful(Str(), Str());
    WhereLawful(Then(Str(), Str()), (kv: (Text, Text)) => |kv.0| <= MAX_META_KEY_BYTES
        && |kv.1| <= MAX_META_VALUE_BYTES);
    SortedMapLawful(2, MAX_META_ENTRIES, Below, MetaEntry());
    ThenLawful(Counted(4, MAX_CHUNKS_PER_FILE, Raw(ID_BYTES)), SortedMap(2, MAX_META_ENTRIES, Below, MetaEntry()));
    ThenLawful(Uint(8), Then(Counted(4, MAX_CHUNKS_PER_FILE, Raw(ID_BYTES)),
        SortedMap(2, MAX_META_ENTRIES, Below, MetaEntry())));
  }

  lemma Wide()
    ensures Range(1) == 0x100 && Range(2) == 0x1_0000 && Range(4) == 0x1_0000_0000
  {
    assert Range(3) == 256 * Range(2);
  }

  lemma FilePartsFit(size: nat, chunks: seq<Id>, meta: map<Text, Text>)
    ensures FileParts().fit((size, (chunks, meta))) <==> FileFits(FileObj(size, chunks, meta))
  {
    hide Then, Counted, SortedMap, Raw, Uint, MetaEntry, Range, Utf8, Short, Below, TotalOrder;
    BelowIsTotal();
    var ids, metas := Counted(4, MAX_CHUNKS_PER_FILE, Raw(ID_BYTES)), SortedMap(2, MAX_META_ENTRIES, Below,
        MetaEntry());
    ThenFits(Uint(8), Then(ids, metas), size, (chunks, meta));
    ThenFits(ids, metas, chunks, meta);
    UintFits(8, size);
    CountedFits(4, MAX_CHUNKS_PER_FILE, Raw(ID_BYTES), chunks);
    forall id: Text
      ensures Raw(ID_BYTES).fit(id) <==> |id| == ID_BYTES
    {
      RawFits(ID_BYTES, id);
    }
    SortedMapFits(2, MAX_META_ENTRIES, Below, MetaEntry(), meta);
    forall key: Text, value: Text
      ensures MetaEntry().fit((key, value)) <==> Short(key, MAX_META_KEY_BYTES) && Short(value, MAX_META_VALUE_BYTES)
    {
      MetaEntryFits(key, value);
    }
  }

  lemma MetaEntryFits(key: Text, value: Text)
    ensures MetaEntry().fit((key, value)) <==> Short(key, MAX_META_KEY_BYTES) && Short(value, MAX_META_VALUE_BYTES)
  {
    hide Range, Utf8;
  }

  lemma FilePartsMatch()
    ensures Matching(FileParts(),
       (p: (nat, (seq<Id>, map<Text, Text>))) => FileObj(p.0, p.1.0, p.1.1),
       (f: FileObj) => (f.size, (f.chunks, f.meta)),
       (f: FileObj) => FileFits(f))
  {
    hide FileParts, FileFits;
    forall size: nat, chunks, meta
      ensures FileParts().fit((size, (chunks, meta))) <==> FileFits(FileObj(size, chunks, meta))
    {
      FilePartsFit(size, chunks, meta);
    }
  }

  // ---- directories ---------------------------------------------------------------------------------

  predicate EntryFits(name: Text, entry: TreeEntry) {
    Short(name, MAX_NAME_BYTES) && IsId(entry.id) && entry.size < Range(8)
  }

  predicate TreeFits(t: TreeObj) {
    |t.entries| <= MAX_DIR_ENTRIES && forall name :: name in t.entries ==> EntryFits(name, t.entries[name])
  }

  function KindTag(kind: EntryKind): nat {
    match kind
    case File => 0
    case Dir => 1
    case Symlink => 2
  }

  // Any other tag is refused.
  function KindFrame(): Grammar<EntryKind> {
    As(Where(Uint(1), (n: nat) => n < 3),
       (n: nat) => if n == 0 then File else if n == 1 then Dir else Symlink,
       (k: EntryKind) => KindTag(k),
       (k: EntryKind) => true)
  }

  lemma KindFrameLawful()
    ensures Lawful(KindFrame())
  {
    hide ToBytes, FromBytes, Take, Lawful;
    UintLawful(1);
    Wide();
    WhereLawful(Uint(1), (n: nat) => n < 3);
    AsLawful(Where(Uint(1), (n: nat) => n < 3),
       (n: nat) => if n == 0 then File else if n == 1 then Dir else Symlink,
       (k: EntryKind) => KindTag(k),
       (k: EntryKind) => true);
  }

  function NameFrame(): Grammar<Text> {
    Where(Str(), (name: Text) => |name| <= MAX_NAME_BYTES)
  }

  function EntryParts(): Grammar<(Text, (EntryKind, (Id, (bool, nat))))> {
    Then(NameFrame(), Then(KindFrame(), Then(Raw(ID_BYTES), Then(Flag(), Uint(8)))))
  }

  function EntryFrame(): Grammar<(Text, TreeEntry)> {
    As(EntryParts(),
       (p: (Text, (EntryKind, (Id, (bool, nat))))) => (p.0, TreeEntry(p.1.0, p.1.1.0, p.1.1.1.0, p.1.1.1.1)),
       (e: (Text, TreeEntry)) => (e.0, (e.1.kind, (e.1.id, (e.1.exec, e.1.size)))),
       (e: (Text, TreeEntry)) => EntryFits(e.0, e.1))
  }

  lemma EntryPartsLawful()
    ensures Lawful(EntryParts())
  {
    hide Lawful;
    StrLawful();
    WhereLawful(Str(), (name: Text) => |name| <= MAX_NAME_BYTES);
    KindFrameLawful();
    RawLawful(ID_BYTES);
    FlagLawful();
    UintLawful(8);
    ThenLawful(Flag(), Uint(8));
    ThenLawful(Raw(ID_BYTES), Then(Flag(), Uint(8)));
    ThenLawful(KindFrame(), Then(Raw(ID_BYTES), Then(Flag(), Uint(8))));
    ThenLawful(NameFrame(), Then(KindFrame(), Then(Raw(ID_BYTES), Then(Flag(), Uint(8)))));
  }

  lemma EntryPartsFit(name: Text, kind: EntryKind, id: Id, exec: bool, size: nat)
    ensures EntryParts().fit((name, (kind, (id, (exec, size))))) <==> EntryFits(name, TreeEntry(kind, id, exec, size))
  {
    assert KindFrame().fit(kind) && Flag().fit(exec);
    hide Then, Where, Raw, Uint, Str, Flag, KindFrame, Range, Utf8;
    ThenFits(NameFrame(), Then(KindFrame(), Then(Raw(ID_BYTES), Then(Flag(), Uint(8)))), name,
        (kind, (id, (exec, size))));
    ThenFits(KindFrame(), Then(Raw(ID_BYTES), Then(Flag(), Uint(8))), kind, (id, (exec, size)));
    ThenFits(Raw(ID_BYTES), Then(Flag(), Uint(8)), id, (exec, size));
    ThenFits(Flag(), Uint(8), exec, size);
    WhereFits(Str(), (n: Text) => |n| <= MAX_NAME_BYTES, name);
    StrFits(name);
    RawFits(ID_BYTES, id);
    UintFits(8, size);
  }

  lemma EntryFrameLawful()
    ensures Lawful(EntryFrame())
  {
    EntryPartsLawful();
    hide Lawful, EntryParts, EntryFits;
    forall name, kind, id, exec, size: nat
      ensures EntryParts().fit((name, (kind, (id, (exec, size))))) <==> EntryFits(name, TreeEntry(kind, id, exec, size))
    {
      EntryPartsFit(name, kind, id, exec, size);
    }
    AsLawful(EntryParts(),
       (p: (Text, (EntryKind, (Id, (bool, nat))))) => (p.0, TreeEntry(p.1.0, p.1.1.0, p.1.1.1.0, p.1.1.1.1)),
       (e: (Text, TreeEntry)) => (e.0, (e.1.kind, (e.1.id, (e.1.exec, e.1.size)))),
       (e: (Text, TreeEntry)) => EntryFits(e.0, e.1));
  }

  function TreeFrame(): Grammar<TreeObj> {
    BelowIsTotal();
    As(SortedMap(4, MAX_DIR_ENTRIES, Below, EntryFrame()),
       (entries: map<Text, TreeEntry>) => TreeObj(entries),
       (t: TreeObj) => t.entries,
       (t: TreeObj) => TreeFits(t))
  }

  lemma TreeFrameLawful()
    ensures Lawful(TreeFrame())
  {
    BelowIsTotal();
    EntryFrameLawful();
    Wide();
    SortedMapLawful(4, MAX_DIR_ENTRIES, Below, EntryFrame());
    var g := SortedMap(4, MAX_DIR_ENTRIES, Below, EntryFrame());
    forall m
      ensures g.fit(m) <==> TreeFits(TreeObj(m))
    {
      TreeEntriesFit(m);
    }
    hide Lawful, SortedMap, TreeFits;
    AsLawful(g, (entries: map<Text, TreeEntry>) => TreeObj(entries), (t: TreeObj) => t.entries,
        (t: TreeObj) => TreeFits(t));
  }

  lemma TreeEntriesFit(m: map<Text, TreeEntry>)
    requires TotalOrder(Below)
    ensures SortedMap(4, MAX_DIR_ENTRIES, Below, EntryFrame()).fit(m) <==> TreeFits(TreeObj(m))
  {
    hide SortedMap, EntryFrame, EntryFits, Below, TotalOrder;
    SortedMapFits(4, MAX_DIR_ENTRIES, Below, EntryFrame(), m);
    forall name: Text, entry: TreeEntry
      ensures EntryFrame().fit((name, entry)) <==> EntryFits(name, entry)
    {
      EntryFrameFits(name, entry);
    }
  }

  lemma EntryFrameFits(name: Text, entry: TreeEntry)
    ensures EntryFrame().fit((name, entry)) <==> EntryFits(name, entry)
  {
    hide EntryParts, EntryFits;
  }

  // ---- snapshots -----------------------------------------------------------------------------------

  predicate SnapshotFits(s: SnapshotObj) {
    && IsId(s.root) && (s.parent.Some? ==> IsId(s.parent.value))
    && Actors.Proper(s.author) && Actors.Typed(s.author)
    && s.time < Range(8) && s.height < Range(8) && Short(s.message, MAX_MESSAGE_BYTES)
  }

  type SnapshotTuple = (Id, (Option<Id>, (Actors.Actor, (nat, (nat, Text)))))

  function MessageFrame(): Grammar<Text> {
    Where(Str(), (message: Text) => |message| <= MAX_MESSAGE_BYTES)
  }

  function SnapshotTail(): Grammar<(nat, (nat, Text))> {
    Then(Uint(8), Then(Uint(8), MessageFrame()))
  }

  function SnapshotParts(): Grammar<SnapshotTuple> {
    Then(Raw(ID_BYTES), Then(Maybe(Raw(ID_BYTES)), Then(Actors.Frame(), SnapshotTail())))
  }

  function SnapshotFrame(): Grammar<SnapshotObj> {
    As(SnapshotParts(),
       (p: SnapshotTuple) => SnapshotObj(p.0, p.1.0, p.1.1.0, p.1.1.1.0, p.1.1.1.1.0, p.1.1.1.1.1),
       (s: SnapshotObj) => (s.root, (s.parent, (s.author, (s.time, (s.height, s.message))))),
       (s: SnapshotObj) => SnapshotFits(s))
  }

  lemma SnapshotPartsLawful()
    ensures Lawful(SnapshotParts())
  {
    hide Lawful;
    RawLawful(ID_BYTES);
    MaybeLawful(Raw(ID_BYTES));
    Actors.FrameLawful();
    UintLawful(8);
    StrLawful();
    WhereLawful(Str(), (message: Text) => |message| <= MAX_MESSAGE_BYTES);
    ThenLawful(Uint(8), MessageFrame());
    ThenLawful(Uint(8), Then(Uint(8), MessageFrame()));
    ThenLawful(Actors.Frame(), SnapshotTail());
    ThenLawful(Maybe(Raw(ID_BYTES)), Then(Actors.Frame(), SnapshotTail()));
    ThenLawful(Raw(ID_BYTES), Then(Maybe(Raw(ID_BYTES)), Then(Actors.Frame(), SnapshotTail())));
  }

  lemma SnapshotPartsFit(root: Id, parent: Option<Id>, author: Actors.Actor, time: nat, height: nat, message: Text)
    ensures SnapshotParts().fit((root, (parent, (author, (time, (height, message))))))
       <==> SnapshotFits(SnapshotObj(root, parent, author, time, height, message))
  {
    hide Then, Maybe, Raw, Uint, Short, MessageFrame, SnapshotTail, Range, Utf8, Actors.Frame, Actors.Proper,
      Actors.Typed;
    Actors.FrameFits(author);
    SnapshotTailFits(time, height, message);
    ThenFits(Raw(ID_BYTES), Then(Maybe(Raw(ID_BYTES)), Then(Actors.Frame(), SnapshotTail())), root,
        (parent, (author, (time, (height, message)))));
    ThenFits(Maybe(Raw(ID_BYTES)), Then(Actors.Frame(), SnapshotTail()), parent, (author, (time, (height, message))));
    ThenFits(Actors.Frame(), SnapshotTail(), author, (time, (height, message)));
    RawFits(ID_BYTES, root);
    MaybeFits(Raw(ID_BYTES), parent);
    if parent.Some? { RawFits(ID_BYTES, parent.value); }
  }

  lemma SnapshotTailFits(time: nat, height: nat, message: Text)
    ensures SnapshotTail().fit((time, (height, message))) <==>
              time < Range(8) && height < Range(8) && Short(message, MAX_MESSAGE_BYTES)
  {
    hide Range, Utf8, Str;
    StrFits(message);
  }

  lemma SnapshotFrameLawful()
    ensures Lawful(SnapshotFrame())
  {
    SnapshotPartsLawful();
    hide Lawful, SnapshotParts, SnapshotFits;
    forall root, parent, author, time: nat, height: nat, message
      ensures SnapshotParts().fit((root, (parent, (author, (time, (height, message))))))
         <==> SnapshotFits(SnapshotObj(root, parent, author, time, height, message))
    {
      SnapshotPartsFit(root, parent, author, time, height, message);
    }
    AsLawful(SnapshotParts(),
       (p: SnapshotTuple) => SnapshotObj(p.0, p.1.0, p.1.1.0, p.1.1.1.0, p.1.1.1.1.0, p.1.1.1.1.1),
       (s: SnapshotObj) => (s.root, (s.parent, (s.author, (s.time, (s.height, s.message))))),
       (s: SnapshotObj) => SnapshotFits(s));
  }

  // ---- the decoders --------------------------------------------------------------------------------

  function DecodeFile(body: Text): Option<FileObj> {
    Whole(FileFrame(), body)
  }

  function DecodeTree(body: Text): Option<TreeObj> {
    Whole(TreeFrame(), body)
  }

  function DecodeSnapshot(body: Text): Option<SnapshotObj> {
    Whole(SnapshotFrame(), body)
  }

  // ---- the encoders --------------------------------------------------------------------------------

  function EncodeFile(f: FileObj): Text {
    BelowIsTotal();
    ToBytes(8, f.size)
    + ((ToBytes(4, |f.chunks|) + WriteIds(f.chunks)) + (ToBytes(2, |f.meta|) + WriteMeta(Entries(Below, f.meta))))
  }

  function WriteIds(ids: seq<Id>): Text {
    if ids == [] then [] else ids[0] + WriteIds(ids[1..])
  }

  function WriteMeta(list: seq<(Text, Text)>): Text {
    if list == [] then [] else (Prefixed(list[0].0) + Prefixed(list[0].1)) + WriteMeta(list[1..])
  }

  function EncodeTree(t: TreeObj): Text {
    BelowIsTotal();
    ToBytes(4, |t.entries|) + WriteEntries(Entries(Below, t.entries))
  }

  function WriteEntries(list: seq<(Text, TreeEntry)>): Text {
    if list == [] then [] else WriteEntry(list[0].0, list[0].1) + WriteEntries(list[1..])
  }

  function WriteEntry(name: Text, e: TreeEntry): Text {
    Prefixed(name) + (ToBytes(1, KindTag(e.kind)) + (e.id + (WriteFlag(e.exec) + ToBytes(8, e.size))))
  }

  function WriteFlag(b: bool): Text {
    ToBytes(1, if b then 1 else 0)
  }

  function EncodeSnapshot(s: SnapshotObj): Text {
    var parent := if s.parent.Some? then WriteFlag(true) + s.parent.value else WriteFlag(false);
    s.root + (parent + (Actors.Write(s.author) + (ToBytes(8, s.time) + (ToBytes(8, s.height) + Prefixed(s.message)))))
  }

  // What the encoders write is what the layouts write.
  lemma {:induction false} IdsAreWritten(ids: seq<Id>)
    ensures WriteAll(Raw(ID_BYTES), ids) == WriteIds(ids)
  {
    if ids != [] { IdsAreWritten(ids[1..]); }
  }

  lemma {:induction false} MetaIsWritten(list: seq<(Text, Text)>)
    ensures WriteAll(MetaEntry(), list) == WriteMeta(list)
  {
    if list != [] { MetaIsWritten(list[1..]); }
  }

  lemma {:induction false} EntriesAreWritten(list: seq<(Text, TreeEntry)>)
    ensures WriteAll(EntryFrame(), list) == WriteEntries(list)
  {
    hide EntryFrame, WriteEntry;
    if list != [] {
      EntryIsWritten(list[0].0, list[0].1);
      EntriesAreWritten(list[1..]);
    }
  }

  lemma EntryIsWritten(name: Text, e: TreeEntry)
    ensures EntryFrame().write((name, e)) == WriteEntry(name, e)
  {
    hide ToBytes;
  }

  lemma FileIsWritten(f: FileObj)
    ensures FileFrame().write(f) == EncodeFile(f)
  {
    hide ToBytes, WriteAll, Entries, TotalOrder, MetaEntry;
    BelowIsTotal();
    IdsAreWritten(f.chunks);
    MetaIsWritten(Entries(Below, f.meta));
  }

  lemma TreeIsWritten(t: TreeObj)
    ensures TreeFrame().write(t) == EncodeTree(t)
  {
    hide ToBytes, WriteAll, Entries, TotalOrder, EntryFrame;
    BelowIsTotal();
    EntriesAreWritten(Entries(Below, t.entries));
  }

  lemma SnapshotIsWritten(s: SnapshotObj)
    ensures SnapshotFrame().write(s) == EncodeSnapshot(s)
  {
    hide ToBytes, Actors.Write, Then, Maybe, Raw, SnapshotTail, Actors.Frame, WriteFlag, Prefixed, SnapshotFits;
    var tail := (s.time, (s.height, s.message));
    var frames := Then(Actors.Frame(), SnapshotTail());
    ThenWrites(Raw(ID_BYTES), Then(Maybe(Raw(ID_BYTES)), frames), s.root, (s.parent, (s.author, tail)));
    ThenWrites(Maybe(Raw(ID_BYTES)), frames, s.parent, (s.author, tail));
    ThenWrites(Actors.Frame(), SnapshotTail(), s.author, tail);
    RawWrites(s.root);
    ParentIsWritten(s.parent);
    AuthorIsWritten(s.author);
    TailIsWritten(s.time, s.height, s.message);
  }

  lemma ThenWrites<A, B>(a: Grammar<A>, b: Grammar<B>, x: A, y: B)
    ensures Then(a, b).write((x, y)) == a.write(x) + b.write(y)
  {
  }

  lemma RawWrites(bytes: Text)
    ensures Raw(ID_BYTES).write(bytes) == bytes
  {
  }

  lemma ParentIsWritten(parent: Option<Id>)
    ensures Maybe(Raw(ID_BYTES)).write(parent)
         == if parent.Some? then WriteFlag(true) + parent.value else WriteFlag(false)
  {
    hide ToBytes, Raw;
    if parent.Some? { RawWrites(parent.value); }
    FlagWrites(parent.Some?);
  }

  lemma FlagWrites(b: bool)
    ensures Flag().write(b) == WriteFlag(b)
  {
  }

  lemma AuthorIsWritten(author: Actors.Actor)
    ensures Actors.Frame().write(author) == Actors.Write(author)
  {
    hide ToBytes;
  }

  lemma TailIsWritten(time: nat, height: nat, message: Text)
    ensures SnapshotTail().write((time, (height, message)))
         == ToBytes(8, time) + (ToBytes(8, height) + Prefixed(message))
  {
    hide ToBytes, Then, Uint, MessageFrame;
    ThenWrites(Uint(8), Then(Uint(8), MessageFrame()), time, (height, message));
    ThenWrites(Uint(8), MessageFrame(), height, message);
    NumberIsWritten(time);
    NumberIsWritten(height);
    MessageIsWritten(message);
  }

  lemma NumberIsWritten(n: nat)
    ensures Uint(8).write(n) == ToBytes(8, n)
  {
    hide ToBytes;
  }

  lemma MessageIsWritten(message: Text)
    ensures MessageFrame().write(message) == Prefixed(message)
  {
    hide ToBytes, Utf8;
  }

  // A body decodes to an object exactly if the object is in its caps and this is its encoding:
  // one body per object, one object per body.
  lemma BodiesAreCanonical(body: Text, f: FileObj, t: TreeObj, s: SnapshotObj)
    ensures DecodeFile(body) == Some(f) <==> FileFits(f) && body == EncodeFile(f)
    ensures DecodeTree(body) == Some(t) <==> TreeFits(t) && body == EncodeTree(t)
    ensures DecodeSnapshot(body) == Some(s) <==> SnapshotFits(s) && body == EncodeSnapshot(s)
  {
    hide FileFits, TreeFits, SnapshotFits, FileParts, SnapshotParts, SortedMap, Lawful, Whole, EncodeFile, EncodeTree,
      EncodeSnapshot;
    FileIsWritten(f);
    TreeIsWritten(t);
    SnapshotIsWritten(s);
    FileFrameLawful();
    WholeIsCanonical(FileFrame(), body, f);
    TreeFrameLawful();
    WholeIsCanonical(TreeFrame(), body, t);
    SnapshotFrameLawful();
    WholeIsCanonical(SnapshotFrame(), body, s);
  }
}
