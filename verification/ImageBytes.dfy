// The stored images byte by byte (crates/duckfs/core/src/state.rs:75-141,
// crates/duckfs/core/src/objects.rs:76-260, crates/duckfs/core/src/actor.rs:20-52): every tag, flag,
// width and section in its place. The laws of the codecs would hold of other layouts, too; this is the
// one that is written.
module ImageBytes {
  import opened Wrappers
  import opened Texts
  import opened Kinds
  import opened Order
  import opened Sorting
  import opened Grammars
  import opened Layouts
  import opened Actors
  import opened Objects
  import opened RefsImage
  import opened RefsLength

  // ---- numbers, strings, options -------------------------------------------------------------------

  // Little-endian, the least byte first.
  function U16(n: nat): Text {
    [n % 0x100, n / 0x100 % 0x100]
  }

  function U32(n: nat): Text {
    U16(n) + U16(n / 0x1_0000)
  }

  function U64(n: nat): Text {
    U32(n) + U32(n / 0x1_0000_0000)
  }

  lemma TwoMore(width: nat, n: nat)
    ensures ToBytes(width + 2, n) == U16(n) + ToBytes(width, n / 0x1_0000)
  {
    assert ToBytes(width + 2, n) == [n % 256] + ([n / 256 % 256] + ToBytes(width, n / 256 / 256));
    assert n / 256 / 256 == n / 0x1_0000;
  }

  lemma WidthsAre(n: nat)
    ensures ToBytes(2, n) == U16(n) && ToBytes(4, n) == U32(n) && ToBytes(8, n) == U64(n)
  {
    hide U16, ToBytes;
    var m := n / 0x1_0000;
    TwoAre(n);
    TwoAre(m);
    TwoMore(2, n);
    TwoMore(6, n);
    TwoMore(4, m);
    ByHalves(n);
    TwoAre(n / 0x1_0000_0000);
    TwoAre(n / 0x1_0000_0000 / 0x1_0000);
    TwoMore(2, n / 0x1_0000_0000);
    Regroup(U16(n), U16(m), ToBytes(4, n / 0x1_0000_0000));
  }

  lemma TwoAre(n: nat)
    ensures ToBytes(2, n) == U16(n)
  {
    TwoMore(0, n);
    assert U16(n) + ToBytes(0, n / 0x1_0000) == U16(n);
  }

  lemma ByHalves(n: nat)
    ensures n / 0x1_0000 / 0x1_0000 == n / 0x1_0000_0000
  {
  }

  function Str(text: Text): Text {
    U64(|text|) + text
  }

  function OptionalBytes(id: Option<Id>): Text {
    if id.Some? then [1] + id.value else [0]
  }

  lemma StrIs(text: Text)
    ensures Prefixed(text) == Str(text) && Bytes().write(text) == Str(text) && Grammars.Str().write(text) == Str(text)
  {
    hide ToBytes, U64, Utf8;
    WidthsAre(|text|);
  }

  lemma OptionIs(id: Option<Id>)
    ensures Maybe(Raw(ID_BYTES)).write(id) == OptionalBytes(id)
  {
    ParentIsWritten(id);
    FlagIs(true);
    FlagIs(false);
    hide *;
    OptionalIs(id);
  }

  lemma OptionalIs(id: Option<Id>)
    ensures OptionalBytes(id) == if id.Some? then [1] + id.value else [0]
  {
  }

  lemma FlagIs(b: bool)
    ensures WriteFlag(b) == [if b then 1 else 0]
  {
  }

  // ---- actors --------------------------------------------------------------------------------------

  function ActorBytes(actor: Actor): Text {
    match actor
    case Account(number) => [0] + U64(number)
    case Key(key) => [1] + Str(key)
    case Module(name) => [2] + Str(name)
    case System => [3]
  }

  lemma ActorIs(actor: Actor)
    ensures Write(actor) == ActorBytes(actor) && Frame().write(actor) == ActorBytes(actor)
  {
    hide ToBytes, U64, Read;
    match actor
    case Account(number) => WidthsAre(number);
    case Key(key) => WidthsAre(|key|);
    case Module(name) => WidthsAre(|name|);
    case System =>
  }

  // ---- the refs ------------------------------------------------------------------------------------

  function Run<T>(items: seq<T>, bytes: T -> Text): Text {
    if items == [] then [] else bytes(items[0]) + Run(items[1..], bytes)
  }

  lemma {:induction false} RunIs<T>(g: Grammar<T>, items: seq<T>, bytes: T -> Text)
    requires forall item :: g.write(item) == bytes(item)
    ensures WriteAll(g, items) == Run(items, bytes)
  {
    if items != [] { RunIs(g, items[1..], bytes); }
  }

  function PinBytes(e: (Text, Pin)): Text {
    Str(e.0) + (e.1.snapshot + ActorBytes(e.1.owner))
  }

  function StagedBytes(e: (Id, Staged)): Text {
    e.0 + (ActorBytes(e.1.owner) + (U64(e.1.len) + U64(e.1.expires)))
  }

  function WatchBytes(w: Watch): Text {
    Str(w.0) + Str(w.1)
  }

  lemma EntriesAre()
    ensures forall e :: PinFrame().write(e) == PinBytes(e)
    ensures forall e :: StagedFrame().write(e) == StagedBytes(e)
    ensures forall w :: WatchFrame().write(w) == WatchBytes(w)
  {
    hide ToBytes, U64, Str, Grammars.Str, Frame, ActorBytes, Range;
    forall e: (Text, Pin)
      ensures PinFrame().write(e) == PinBytes(e)
    {
      StrIs(e.0);
      ActorIs(e.1.owner);
      RawWrites(e.1.snapshot);
    }
    forall e: (Id, Staged)
      ensures StagedFrame().write(e) == StagedBytes(e)
    {
      ActorIs(e.1.owner);
      WidthsAre(e.1.len);
      WidthsAre(e.1.expires);
    }
    forall w: Watch
      ensures WatchFrame().write(w) == WatchBytes(w)
    {
      StrIs(w.0);
      StrIs(w.1);
    }
  }

  lemma TablesAre(pins: map<Text, Pin>, staging: map<Id, Staged>, watches: set<Watch>)
    requires TotalOrder(Below) && TotalOrder(PairBelow)
    ensures PinsFrame().write(pins) == U32(|pins|) + Run(Entries(Below, pins), e => PinBytes(e))
    ensures StagingFrame().write(staging) == U32(|staging|) + Run(Entries(Below, staging), e => StagedBytes(e))
    ensures WatchesFrame().write(watches) == U32(|watches|) + Run(Sorted(PairBelow, watches), w => WatchBytes(w))
  {
    hide ToBytes, WriteAll, Run, PinFrame, StagedFrame, WatchFrame, PinBytes, StagedBytes, WatchBytes, TotalOrder, U32,
      Ascending, AscendingEntries, Sorted;
    EntriesAre();
    assert |pins.Keys| == |pins| && |staging.Keys| == |staging|;
    WidthsAre(|pins|);
    WidthsAre(|staging|);
    WidthsAre(|watches|);
    RunIs(PinFrame(), Entries(Below, pins), e => PinBytes(e));
    RunIs(StagedFrame(), Entries(Below, staging), e => StagedBytes(e));
    RunIs(WatchFrame(), Sorted(PairBelow, watches), w => WatchBytes(w));
  }

  lemma WindowIs(window: seq<Id>)
    ensures WindowFrame().write(window) == U32(|window|) + Run(window, id => id)
  {
    hide ToBytes, WriteAll, Run, U32;
    WidthsAre(|window|);
    RunIs(Raw(ID_BYTES), window, id => id);
  }

  // The refs image: head, window, pins by name, staged chunks by digest, watches in order, the revision
  // and the retention root.
  lemma RefsAreWritten(r: Refs)
    requires TotalOrder(Below) && TotalOrder(PairBelow)
    ensures EncodeRefs(r) ==
      OptionalBytes(r.head)
      + ((U32(|r.window|) + Run(r.window, id => id))
      + ((U32(|r.pins|) + Run(Entries(Below, r.pins), e => PinBytes(e)))
      + ((U32(|r.staging|) + Run(Entries(Below, r.staging), e => StagedBytes(e)))
      + ((U32(|r.watches|) + Run(Sorted(PairBelow, r.watches), w => WatchBytes(w)))
      + (U64(r.revision) + OptionalBytes(r.retention))))))
  {
    hide *;
    PartsAreWritten(r);
    OptionIs(r.head);
    OptionIs(r.retention);
    WindowIs(r.window);
    TablesAre(r.pins, r.staging, r.watches);
    RevisionIs(r.revision);
  }

  lemma RevisionIs(n: nat)
    ensures Uint(8).write(n) == U64(n)
  {
    hide ToBytes, U64;
    WidthsAre(n);
  }

  // ---- the objects ---------------------------------------------------------------------------------

  function TagOf(kind: EntryKind): Byte {
    match kind
    case File => 0
    case Dir => 1
    case Symlink => 2
  }

  function MetaBytes(e: (Text, Text)): Text {
    Str(e.0) + Str(e.1)
  }

  function EntryBytes(e: (Text, TreeEntry)): Text {
    Str(e.0) + ([TagOf(e.1.kind)] + (e.1.id + ([if e.1.exec then 1 else 0] + U64(e.1.size))))
  }

  lemma {:induction false} IdsAre(ids: seq<Id>)
    ensures WriteIds(ids) == Run(ids, id => id)
  {
    if ids != [] { IdsAre(ids[1..]); }
  }

  lemma {:induction false} MetaIs(list: seq<(Text, Text)>)
    ensures WriteMeta(list) == Run(list, e => MetaBytes(e))
  {
    hide Prefixed, Str;
    if list != [] {
      StrIs(list[0].0);
      StrIs(list[0].1);
      MetaIs(list[1..]);
    }
  }

  lemma {:induction false} ListingIs(list: seq<(Text, TreeEntry)>)
    ensures WriteEntries(list) == Run(list, e => EntryBytes(e))
  {
    hide WriteEntry, EntryBytes;
    if list != [] {
      EntryIs(list[0].0, list[0].1);
      ListingIs(list[1..]);
    }
  }

  lemma EntryIs(name: Text, e: TreeEntry)
    ensures WriteEntry(name, e) == EntryBytes((name, e))
  {
    hide Prefixed, Str, WriteFlag, U64;
    StrIs(name);
    FlagIs(e.exec);
    WidthsAre(e.size);
    TagIs(e.kind);
    hide ToBytes;
  }

  lemma TagIs(kind: EntryKind)
    ensures ToBytes(1, KindTag(kind)) == [TagOf(kind)]
  {
  }

  // The three objects.
  lemma ObjectsAreWritten(f: FileObj, t: TreeObj, s: SnapshotObj)
    requires TotalOrder(Below)
    ensures EncodeFile(f) == U64(f.size) + ((U32(|f.chunks|) + Run(f.chunks, id => id))
                                            + (U16(|f.meta|) + Run(Entries(Below, f.meta), e => MetaBytes(e))))
    ensures EncodeTree(t) == U32(|t.entries|) + Run(Entries(Below, t.entries), e => EntryBytes(e))
    ensures EncodeSnapshot(s) == s.root + (OptionalBytes(s.parent) + (ActorBytes(s.author)
                                           + (U64(s.time) + (U64(s.height) + Str(s.message)))))
  {
    hide ToBytes, U16, U32, U64, Run, WriteIds, WriteMeta, WriteEntries, MetaBytes, EntryBytes, Str, Prefixed,
      TotalOrder, Entries, ActorBytes, WriteFlag, Write;
    WidthsAre(f.size);
    WidthsAre(|f.chunks|);
    WidthsAre(|f.meta|);
    IdsAre(f.chunks);
    MetaIs(Entries(Below, f.meta));
    WidthsAre(|t.entries|);
    ListingIs(Entries(Below, t.entries));
    FlagIs(true);
    FlagIs(false);
    ActorIs(s.author);
    WidthsAre(s.time);
    WidthsAre(s.height);
    StrIs(s.message);
  }
}
