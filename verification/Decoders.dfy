// The frame decoders and the refs encoder as loops (crates/duckfs/core/src/objects.rs:91-288,
// crates/duckfs/core/src/state.rs:89-289): each equals its layout.
module Decoders {
  import opened Wrappers
  import opened Texts
  import opened Kinds
  import opened Order
  import opened Sorting
  import opened Grammars
  import opened Layouts
  import opened Objects
  import opened Actors
  import opened RefsImage
  import opened Readers

  // ---- what the loops add up to --------------------------------------------------------------------

  // A capped, ascending map has been read in full, or has shown itself unreadable.
  lemma MapRead<K(!new), V>(width: nat, cap: nat, less: (K, K) -> bool, g: Grammar<(K, V)>, bytes: Text)
    requires TotalOrder(less)
    ensures var r := SortedMap(width, cap, less, g).read(bytes);
      match Uint(width).read(bytes)
      case None => r == None
      case Some((count, start)) =>
        if count > cap then r == None
        else match ReadAll(g, count, start)
          case None => r == None
          case Some((list, rest)) => r == if Climbs(ByKey(less), list) then Some((Collect(list), rest)) else None
  {
    hide TotalOrder, ReadAll, Uint;
    forall list: seq<(K, V)>
      ensures Climbs(ByKey(less), list) <==> AscendingEntries(less, list)
    {
    }
  }

  lemma SetRead<K(!new)>(width: nat, cap: nat, less: (K, K) -> bool, g: Grammar<K>, bytes: Text)
    requires TotalOrder(less)
    ensures var r := SortedSet(width, cap, less, g).read(bytes);
      match Uint(width).read(bytes)
      case None => r == None
      case Some((count, start)) =>
        if count > cap then r == None
        else match ReadAll(g, count, start)
          case None => r == None
          case Some((list, rest)) => r == if Climbs(less, list) then Some((Distinct(list), rest)) else None
  {
    hide TotalOrder, ReadAll, Uint;
    forall list: seq<K>
      ensures Climbs(less, list) <==> Ascending(less, list)
    {
    }
  }

  lemma DistinctNothing<K>()
    ensures Distinct<K>([]) == {}
  {
  }

  lemma OneMore<K>(got: seq<K>, k: K)
    ensures Distinct(got + [k]) == Distinct(got) + {k}
  {
  }

  function LastKey<K, V>(got: seq<(K, V)>): Option<K> {
    if got == [] then None else Some(got[|got| - 1].0)
  }

  lemma LastKeyIs<K, V>(got: seq<(K, V)>)
    ensures LastKey(got) == if got == [] then None else Some(got[|got| - 1].0)
  {
  }

  lemma CollectNothing<K, V>()
    ensures Collect<K, V>([]) == map[] && LastKey<K, V>([]) == None
  {
  }

  lemma ReadingClimbs<T>(g: Grammar<T>, ok: (T, T) -> bool, count: nat, start: Text, got: seq<T>, rest: Text)
    requires Reading(g, ok, count, start, got, rest)
    ensures Climbs(ok, got)
  {
  }

  // ---- file bodies ---------------------------------------------------------------------------------

  function MetaFrame(): Grammar<map<Text, Text>> {
    BelowIsTotal();
    SortedMap(2, MAX_META_ENTRIES, Below, MetaEntry())
  }

  lemma MetaEntryReads(bytes: Text)
    ensures var r := MetaEntry().read(bytes);
      match Str().read(bytes)
      case None => r == None
      case Some((key, middle)) =>
        match Str().read(middle)
        case None => r == None
        case Some((value, rest)) =>
          r == if |key| <= MAX_META_KEY_BYTES
              && |value| <= MAX_META_VALUE_BYTES then Some(((key, value), rest)) else None
  {
    hide Str;
  }

  method ReadMeta(r: Reader) returns (meta: Option<map<Text, Text>>)
    requires r.Valid()
    modifies r
    ensures r.Valid() && r.Reads(MetaFrame(), old(r.Rest()), meta)
  {
    hide Uint, Str, SortedMap, Below, TotalOrder, MetaEntry, Reading, Climbs, Collect, LastKey, ReadAll;
    BelowIsTotal();
    MapRead(2, MAX_META_ENTRIES, Below, MetaEntry(), r.Rest());
    var count := r.Number(2);
    if count.None? || count.value > MAX_META_ENTRIES {
      return None;
    }
    ghost var start := r.Rest();
    ghost var got: seq<(Text, Text)> := [];
    var last: Option<Text> := None;
    var m: map<Text, Text> := map[];
    ReadingStarts(MetaEntry(), ByKey(Below), count.value, start);
    CollectNothing<Text, Text>();
    for i := 0 to count.value
      invariant r.Valid() && |got| == i && m == Collect(got) && last == LastKey(got)
      invariant Reading(MetaEntry(), ByKey(Below), count.value, start, got, r.Rest())
    {
      ReadingGoesOn(MetaEntry(), ByKey(Below), count.value, start, got, r.Rest());
      MetaEntryReads(r.Rest());
      var key := r.String();
      if key.None? {
        return None;
      }
      var value := r.String();
      if value.None? || |key.value| > MAX_META_KEY_BYTES || |value.value| > MAX_META_VALUE_BYTES {
        return None;
      }
      LastKeyIs(got);
      if last.Some? && !Below(last.value, key.value) {
        return None;
      }
      Inserted(got, key.value, value.value);
      LastKeyIs(got + [(key.value, value.value)]);
      m := m[key.value := value.value];
      last := Some(key.value);
      got := got + [(key.value, value.value)];
    }
    ReadingEnds(MetaEntry(), ByKey(Below), count.value, start, got, r.Rest());
    ReadingClimbs(MetaEntry(), ByKey(Below), count.value, start, got, r.Rest());
    meta := Some(m);
  }

  method DecodeFileObj(body: Text) returns (f: Option<FileObj>)
    ensures f == DecodeFile(body)
  {
    hide Uint, Raw, Counted, MetaFrame, DecodeFile;
    FileReads(body);
    var r := new Reader(body);
    var size := r.Number(8);
    if size.None? {
      return None;
    }
    var chunks := r.Ids(MAX_CHUNKS_PER_FILE);
    if chunks.None? {
      return None;
    }
    var meta := ReadMeta(r);
    if meta.None? {
      return None;
    }
    var done := r.Finish();
    f := if done then Some(FileObj(size.value, chunks.value, meta.value)) else None;
  }

  lemma FileReads(body: Text)
    ensures DecodeFile(body) ==
      match Uint(8).read(body)
      case None => None
      case Some((size, b1)) =>
        match Counted(4, MAX_CHUNKS_PER_FILE, Raw(ID_BYTES)).read(b1)
        case None => None
        case Some((chunks, b2)) =>
          match MetaFrame().read(b2)
          case None => None
          case Some((meta, rest)) => if rest == [] then Some(FileObj(size, chunks, meta)) else None
  {
    hide Uint, Counted, SortedMap, Raw, MetaEntry;
  }

  // ---- tree bodies ---------------------------------------------------------------------------------

  lemma EntryReads(bytes: Text)
    ensures EntryFrame().read(bytes) ==
      match Str().read(bytes)
      case None => None
      case Some((name, b1)) =>
        if |name| > MAX_NAME_BYTES then None
        else match Uint(1).read(b1)
          case None => None
          case Some((tag, b2)) =>
            if tag >= 3 then None
            else match Raw(ID_BYTES).read(b2)
              case None => None
              case Some((id, b3)) =>
                match Flag().read(b3)
                case None => None
                case Some((exec, b4)) =>
                  match Uint(8).read(b4)
                  case None => None
                  case Some((size, rest)) => Some(((name, TreeEntry(KindOf(tag), id, exec, size)), rest))
  {
    hide Str, Uint, Raw, Flag;
  }

  function KindOf(tag: nat): EntryKind {
    if tag == 0 then File else if tag == 1 then Dir else Symlink
  }

  method ReadEntry(r: Reader) returns (entry: Option<(Text, TreeEntry)>)
    requires r.Valid()
    modifies r
    ensures r.Valid() && r.Reads(EntryFrame(), old(r.Rest()), entry)
  {
    hide Str, Uint, Raw, Flag, EntryFrame;
    EntryReads(r.Rest());
    var name := r.String();
    if name.None? || |name.value| > MAX_NAME_BYTES {
      return None;
    }
    var tag := r.Number(1);
    if tag.None? || tag.value >= 3 {
      return None;
    }
    var id := r.Array(ID_BYTES);
    if id.None? {
      return None;
    }
    var exec := r.Boolean();
    if exec.None? {
      return None;
    }
    var size := r.Number(8);
    if size.None? {
      return None;
    }
    entry := Some((name.value, TreeEntry(KindOf(tag.value), id.value, exec.value, size.value)));
  }

  method DecodeTreeObj(body: Text) returns (t: Option<TreeObj>)
    ensures t == DecodeTree(body)
  {
    hide EntriesFrame, DecodeTree;
    TreeReads(body);
    var r := new Reader(body);
    var entries := ReadEntries(r);
    if entries.None? {
      return None;
    }
    var done := r.Finish();
    t := if done then Some(TreeObj(entries.value)) else None;
  }

  method ReadEntries(r: Reader) returns (read: Option<map<Text, TreeEntry>>)
    requires r.Valid()
    modifies r
    ensures r.Valid() && r.Reads(EntriesFrame(), old(r.Rest()), read)
  {
    hide Uint, SortedMap, Below, TotalOrder, EntryFrame, Reading, Climbs, Collect, LastKey, ReadAll;
    BelowIsTotal();
    MapRead(4, MAX_DIR_ENTRIES, Below, EntryFrame(), r.Rest());
    var count := r.Number(4);
    if count.None? || count.value > MAX_DIR_ENTRIES {
      return None;
    }
    ghost var start := r.Rest();
    ghost var got: seq<(Text, TreeEntry)> := [];
    var last: Option<Text> := None;
    var entries: map<Text, TreeEntry> := map[];
    ReadingStarts(EntryFrame(), ByKey(Below), count.value, start);
    CollectNothing<Text, TreeEntry>();
    for i := 0 to count.value
      invariant r.Valid() && |got| == i && entries == Collect(got) && last == LastKey(got)
      invariant Reading(EntryFrame(), ByKey(Below), count.value, start, got, r.Rest())
    {
      ReadingGoesOn(EntryFrame(), ByKey(Below), count.value, start, got, r.Rest());
      var entry := ReadEntry(r);
      if entry.None? {
        return None;
      }
      LastKeyIs(got);
      if last.Some? && !Below(last.value, entry.value.0) {
        return None;
      }
      Inserted(got, entry.value.0, entry.value.1);
      LastKeyIs(got + [entry.value]);
      entries := entries[entry.value.0 := entry.value.1];
      last := Some(entry.value.0);
      got := got + [entry.value];
    }
    ReadingEnds(EntryFrame(), ByKey(Below), count.value, start, got, r.Rest());
    ReadingClimbs(EntryFrame(), ByKey(Below), count.value, start, got, r.Rest());
    read := Some(entries);
  }

  function EntriesFrame(): Grammar<map<Text, TreeEntry>> {
    BelowIsTotal();
    SortedMap(4, MAX_DIR_ENTRIES, Below, EntryFrame())
  }

  lemma TreeReads(body: Text)
    ensures DecodeTree(body) ==
      match EntriesFrame().read(body)
      case None => None
      case Some((entries, rest)) => if rest == [] then Some(TreeObj(entries)) else None
  {
    hide SortedMap, EntryFrame, TotalOrder;
  }

  // ---- snapshot bodies -----------------------------------------------------------------------------

  method DecodeSnapshotObj(body: Text) returns (s: Option<SnapshotObj>)
    ensures s == DecodeSnapshot(body)
  {
    hide Uint, Raw, Maybe, Frame, Str, DecodeSnapshot;
    SnapshotReads(body);
    var r := new Reader(body);
    var root := r.Array(ID_BYTES);
    if root.None? {
      return None;
    }
    var parent := r.OptionalBytes32();
    if parent.None? {
      return None;
    }
    var author := r.ReadActor();
    if author.None? {
      return None;
    }
    var time := r.Number(8);
    if time.None? {
      return None;
    }
    var height := r.Number(8);
    if height.None? {
      return None;
    }
    var message := r.String();
    if message.None? || |message.value| > MAX_MESSAGE_BYTES {
      return None;
    }
    var done := r.Finish();
    s := if done then Some(SnapshotObj(root.value, parent.value, author.value, time.value, height.value,
        message.value)) else None;
  }

  lemma SnapshotReads(body: Text)
    ensures DecodeSnapshot(body) ==
      match Raw(ID_BYTES).read(body)
      case None => None
      case Some((root, b1)) =>
        match Maybe(Raw(ID_BYTES)).read(b1)
        case None => None
        case Some((parent, b2)) =>
          match Frame().read(b2)
          case None => None
          case Some((author, b3)) =>
            match Uint(8).read(b3)
            case None => None
            case Some((time, b4)) =>
              match Uint(8).read(b4)
              case None => None
              case Some((height, b5)) =>
                match Str().read(b5)
                case None => None
                case Some((message, rest)) =>
                  if |message| <= MAX_MESSAGE_BYTES
                      && rest == [] then Some(SnapshotObj(root, parent, author, time, height, message))
                  else None
  {
    hide Raw, Maybe, Frame, Uint, Str, SnapshotTail;
    forall bytes
      ensures SnapshotTail().read(bytes) == TailReads(bytes)
    {
      SnapshotTailReads(bytes);
    }
  }

  function TailReads(bytes: Text): Option<((nat, (nat, Text)), Text)> {
    match Uint(8).read(bytes)
    case None => None
    case Some((time, b1)) =>
      match Uint(8).read(b1)
      case None => None
      case Some((height, b2)) =>
        match Str().read(b2)
        case None => None
        case Some((message, rest)) =>
          if |message| <= MAX_MESSAGE_BYTES then Some(((time, (height, message)), rest)) else None
  }

  lemma SnapshotTailReads(bytes: Text)
    ensures SnapshotTail().read(bytes) == TailReads(bytes)
  {
    hide Uint, Str;
  }

  // ---- the refs image ------------------------------------------------------------------------------

  lemma PinReads(bytes: Text)
    ensures PinFrame().read(bytes) ==
      match Str().read(bytes)
      case None => None
      case Some((name, b1)) =>
        match Raw(ID_BYTES).read(b1)
        case None => None
        case Some((snapshot, b2)) =>
          match Frame().read(b2)
          case None => None
          case Some((owner, rest)) => Some(((name, Pin(snapshot, owner)), rest))
  {
    hide Str, Raw, Frame;
  }

  method ReadPins(r: Reader) returns (pins: Option<map<Text, Pin>>)
    requires r.Valid()
    modifies r
    ensures r.Valid() && r.Reads(PinsFrame(), old(r.Rest()), pins)
  {
    hide Uint, Raw, Str, Frame, SortedMap, Below, TotalOrder, PinFrame, Reading, Climbs, Collect, LastKey, ReadAll;
    BelowIsTotal();
    MapRead(4, MAX_PINS, Below, PinFrame(), r.Rest());
    var count := r.Number(4);
    if count.None? || count.value > MAX_PINS {
      return None;
    }
    ghost var start := r.Rest();
    ghost var got: seq<(Text, Pin)> := [];
    var last: Option<Text> := None;
    var m: map<Text, Pin> := map[];
    ReadingStarts(PinFrame(), ByKey(Below), count.value, start);
    CollectNothing<Text, Pin>();
    for i := 0 to count.value
      invariant r.Valid() && |got| == i && m == Collect(got) && last == LastKey(got)
      invariant Reading(PinFrame(), ByKey(Below), count.value, start, got, r.Rest())
    {
      ReadingGoesOn(PinFrame(), ByKey(Below), count.value, start, got, r.Rest());
      PinReads(r.Rest());
      var name := r.String();
      if name.None? {
        return None;
      }
      var snapshot := r.Array(ID_BYTES);
      if snapshot.None? {
        return None;
      }
      var owner := r.ReadActor();
      if owner.None? {
        return None;
      }
      LastKeyIs(got);
      if last.Some? && !Below(last.value, name.value) {
        return None;
      }
      var pin := Pin(snapshot.value, owner.value);
      Inserted(got, name.value, pin);
      LastKeyIs(got + [(name.value, pin)]);
      m := m[name.value := pin];
      last := Some(name.value);
      got := got + [(name.value, pin)];
    }
    ReadingEnds(PinFrame(), ByKey(Below), count.value, start, got, r.Rest());
    ReadingClimbs(PinFrame(), ByKey(Below), count.value, start, got, r.Rest());
    pins := Some(m);
  }

  lemma StagedReads(bytes: Text)
    ensures StagedFrame().read(bytes) ==
      match Raw(ID_BYTES).read(bytes)
      case None => None
      case Some((digest, b1)) =>
        match Frame().read(b1)
        case None => None
        case Some((owner, b2)) =>
          match Uint(8).read(b2)
          case None => None
          case Some((len, b3)) =>
            match Uint(8).read(b3)
            case None => None
            case Some((expires, rest)) => Some(((digest, Staged(owner, len, expires)), rest))
  {
    hide Raw, Frame, Uint;
  }

  method ReadStaging(r: Reader) returns (staging: Option<map<Id, Staged>>)
    requires r.Valid()
    modifies r
    ensures r.Valid() && r.Reads(StagingFrame(), old(r.Rest()), staging)
  {
    hide Uint, Raw, Frame, SortedMap, Below, TotalOrder, StagedFrame, Reading, Climbs, Collect, LastKey, ReadAll;
    BelowIsTotal();
    MapRead(4, MAX_STAGING_ENTRIES, Below, StagedFrame(), r.Rest());
    var count := r.Number(4);
    if count.None? || count.value > MAX_STAGING_ENTRIES {
      return None;
    }
    ghost var start := r.Rest();
    ghost var got: seq<(Id, Staged)> := [];
    var last: Option<Id> := None;
    var m: map<Id, Staged> := map[];
    ReadingStarts(StagedFrame(), ByKey(Below), count.value, start);
    CollectNothing<Id, Staged>();
    for i := 0 to count.value
      invariant r.Valid() && |got| == i && m == Collect(got) && last == LastKey(got)
      invariant Reading(StagedFrame(), ByKey(Below), count.value, start, got, r.Rest())
    {
      ReadingGoesOn(StagedFrame(), ByKey(Below), count.value, start, got, r.Rest());
      StagedReads(r.Rest());
      var digest := r.Array(ID_BYTES);
      if digest.None? {
        return None;
      }
      var owner := r.ReadActor();
      if owner.None? {
        return None;
      }
      var len := r.Number(8);
      if len.None? {
        return None;
      }
      var expires := r.Number(8);
      if expires.None? {
        return None;
      }
      LastKeyIs(got);
      if last.Some? && !Below(last.value, digest.value) {
        return None;
      }
      var staged := Staged(owner.value, len.value, expires.value);
      Inserted(got, digest.value, staged);
      LastKeyIs(got + [(digest.value, staged)]);
      m := m[digest.value := staged];
      last := Some(digest.value);
      got := got + [(digest.value, staged)];
    }
    ReadingEnds(StagedFrame(), ByKey(Below), count.value, start, got, r.Rest());
    ReadingClimbs(StagedFrame(), ByKey(Below), count.value, start, got, r.Rest());
    staging := Some(m);
  }

  lemma WatchReads(bytes: Text)
    ensures WatchFrame().read(bytes) ==
      match Str().read(bytes)
      case None => None
      case Some((prefix, b1)) =>
        match Str().read(b1)
        case None => None
        case Some((moduleId, rest)) => Some(((prefix, moduleId), rest))
  {
    hide Str;
  }

  method ReadWatches(r: Reader) returns (watches: Option<set<Watch>>)
    requires r.Valid()
    modifies r
    ensures r.Valid() && r.Reads(WatchesFrame(), old(r.Rest()), watches)
  {
    hide Uint, Str, SortedSet, PairBelow, TotalOrder, WatchFrame, Reading, Climbs, Distinct, ReadAll;
    PairBelowIsTotal();
    SetRead(4, MAX_WATCHES, PairBelow, WatchFrame(), r.Rest());
    var count := r.Number(4);
    if count.None? || count.value > MAX_WATCHES {
      return None;
    }
    ghost var start := r.Rest();
    ghost var got: seq<Watch> := [];
    var last: Option<Watch> := None;
    var all: set<Watch> := {};
    ReadingStarts(WatchFrame(), PairBelow, count.value, start);
    DistinctNothing<Watch>();
    for i := 0 to count.value
      invariant r.Valid() && |got| == i && all == Distinct(got)
      invariant last == if got == [] then None else Some(got[|got| - 1])
      invariant Reading(WatchFrame(), PairBelow, count.value, start, got, r.Rest())
    {
      ReadingGoesOn(WatchFrame(), PairBelow, count.value, start, got, r.Rest());
      WatchReads(r.Rest());
      var prefix := r.String();
      if prefix.None? {
        return None;
      }
      var moduleId := r.String();
      if moduleId.None? {
        return None;
      }
      var watch := (prefix.value, moduleId.value);
      if last.Some? && !PairBelow(last.value, watch) {
        return None;
      }
      OneMore(got, watch);
      all := all + {watch};
      last := Some(watch);
      got := got + [watch];
    }
    ReadingEnds(WatchFrame(), PairBelow, count.value, start, got, r.Rest());
    ReadingClimbs(WatchFrame(), PairBelow, count.value, start, got, r.Rest());
    watches := Some(all);
  }

  method DecodeImage(bytes: Text) returns (refs: Option<Refs>)
    ensures refs == DecodeRefs(bytes)
  {
    hide Uint, Raw, Maybe, Counted, PinsFrame, StagingFrame, WatchesFrame, DecodeRefs;
    RefsRead(bytes);
    if |bytes| > MAX_REFS_IMAGE_BYTES {
      return None;
    }
    var r := new Reader(bytes);
    var head := r.OptionalBytes32();
    if head.None? {
      return None;
    }
    var window := r.Ids(HISTORY_WINDOW);
    if window.None? {
      return None;
    }
    var pins := ReadPins(r);
    if pins.None? {
      return None;
    }
    var staging := ReadStaging(r);
    if staging.None? {
      return None;
    }
    var watches := ReadWatches(r);
    if watches.None? {
      return None;
    }
    var revision := r.Number(8);
    if revision.None? {
      return None;
    }
    var retention := r.OptionalBytes32();
    if retention.None? {
      return None;
    }
    var done := r.Finish();
    refs := if done
      then Some(Refs(revision.value, head.value, window.value, pins.value, staging.value, watches.value,
          retention.value))
      else None;
  }

  lemma RefsRead(bytes: Text)
    ensures DecodeRefs(bytes) ==
      if |bytes| > MAX_REFS_IMAGE_BYTES then None
      else match Maybe(Raw(ID_BYTES)).read(bytes)
        case None => None
        case Some((head, b1)) =>
          match Counted(4, HISTORY_WINDOW, Raw(ID_BYTES)).read(b1)
          case None => None
          case Some((window, b2)) =>
            match PinsFrame().read(b2)
            case None => None
            case Some((pins, b3)) =>
              match StagingFrame().read(b3)
              case None => None
              case Some((staging, b4)) =>
                match WatchesFrame().read(b4)
                case None => None
                case Some((watches, b5)) =>
                  match Uint(8).read(b5)
                  case None => None
                  case Some((revision, b6)) =>
                    match Maybe(Raw(ID_BYTES)).read(b6)
                    case None => None
                    case Some((retention, rest)) =>
                      if rest == [] then Some(Refs(revision, head, window, pins, staging, watches, retention)) else None
  {
    hide Maybe, Raw, Counted, PinsFrame, StagingFrame, WatchesFrame, Uint;
  }

  // ---- encoding ------------------------------------------------------------------------------------

  method PushAll<T>(g: Grammar<T>, out: Text, list: seq<T>) returns (pushed: Text)
    ensures pushed == out + WriteAll(g, list)
  {
    pushed := out;
    var index := 0;
    while index < |list|
      invariant index <= |list|
      invariant pushed + WriteAll(g, list[index..]) == out + WriteAll(g, list)
    {
      assert list[index..][1..] == list[index + 1..];
      Regroup(pushed, g.write(list[index]), WriteAll(g, list[index + 1..]));
      pushed := pushed + g.write(list[index]);
      index := index + 1;
    }
    assert list[index..] == [];
  }

  method EncodeImage(r: Refs) returns (out: Text)
    ensures out == EncodeRefs(r)
  {
    hide *;
    BelowIsTotal();
    PairBelowIsTotal();
    RefsWrite(r);
    out := if r.head.Some? then [1] + r.head.value else [0];
    out := out + ToBytes(4, |r.window|);
    out := PushAll(Raw(ID_BYTES), out, r.window);
    out := out + ToBytes(4, |r.pins|);
    out := PushAll(PinFrame(), out, Entries(Below, r.pins));
    out := out + ToBytes(4, |r.staging|);
    out := PushAll(StagedFrame(), out, Entries(Below, r.staging));
    out := out + ToBytes(4, |r.watches|);
    out := PushAll(WatchFrame(), out, Sorted(PairBelow, r.watches));
    out := out + ToBytes(8, r.revision);
    out := out + if r.retention.Some? then [1] + r.retention.value else [0];
  }

  lemma RefsWrite(r: Refs)
    requires TotalOrder(Below) && TotalOrder(PairBelow)
    ensures EncodeRefs(r) ==
      (if r.head.Some? then [1] + r.head.value else [0])
      + ToBytes(4, |r.window|) + WriteAll(Raw(ID_BYTES), r.window)
      + ToBytes(4, |r.pins|) + WriteAll(PinFrame(), Entries(Below, r.pins))
      + ToBytes(4, |r.staging|) + WriteAll(StagedFrame(), Entries(Below, r.staging))
      + ToBytes(4, |r.watches|) + WriteAll(WatchFrame(), Sorted(PairBelow, r.watches))
      + ToBytes(8, r.revision)
      + (if r.retention.Some? then [1] + r.retention.value else [0])
  {
    MaybeIdWrites(r.head);
    MaybeIdWrites(r.retention);
    hide Maybe, TotalOrder, ToBytes, WriteAll, Entries, Sorted, PinFrame, StagedFrame, WatchFrame;
    var window, pins, staging, watches := WriteAll(Raw(ID_BYTES), r.window), WriteAll(PinFrame(),
        Entries(Below, r.pins)),
      WriteAll(StagedFrame(), Entries(Below, r.staging)), WriteAll(WatchFrame(), Sorted(PairBelow, r.watches));
    var t4 := ToBytes(8, r.revision) + Maybe(Raw(ID_BYTES)).write(r.retention);
    var t3 := (ToBytes(4, |r.watches|) + watches) + t4;
    var t2 := (ToBytes(4, |r.staging|) + staging) + t3;
    var t1 := (ToBytes(4, |r.pins|) + pins) + t2;
    var head := Maybe(Raw(ID_BYTES)).write(r.head);
    assert EncodeRefs(r) == head + ((ToBytes(4, |r.window|) + window) + t1);
    PushTwo(head, ToBytes(4, |r.window|), window, t1);
    var s1 := head + ToBytes(4, |r.window|) + window;
    PushTwo(s1, ToBytes(4, |r.pins|), pins, t2);
    var s2 := s1 + ToBytes(4, |r.pins|) + pins;
    PushTwo(s2, ToBytes(4, |r.staging|), staging, t3);
    var s3 := s2 + ToBytes(4, |r.staging|) + staging;
    PushTwo(s3, ToBytes(4, |r.watches|), watches, t4);
    Regroup(s3 + ToBytes(4, |r.watches|) + watches, ToBytes(8, r.revision), Maybe(Raw(ID_BYTES)).write(r.retention));
  }

  lemma PushTwo(acc: Text, a: Text, b: Text, rest: Text)
    ensures acc + ((a + b) + rest) == ((acc + a) + b) + rest
  {
    Regroup(acc, a + b, rest);
    Regroup(acc, a, b);
  }

  lemma MaybeIdWrites(id: Option<Id>)
    ensures Maybe(Raw(ID_BYTES)).write(id) == if id.Some? then [1] + id.value else [0]
  {
    FlagWrites(id.Some?);
    hide Flag;
  }

  lemma FlagWrites(b: bool)
    ensures Flag().write(b) == [if b then 1 else 0]
  {
    var n: nat := if b then 1 else 0;
    assert Flag().write(b) == ToBytes(1, n);
    assert ToBytes(1, n) == [n % 256] + ToBytes(0, n / 256);
  }
}
