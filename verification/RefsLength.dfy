// The length of a refs image without building it (crates/duckfs/core/src/state.rs:146-184).
module RefsLength {
  import opened Wrappers
  import opened Texts
  import opened Kinds
  import opened Order
  import opened Sorting
  import opened Grammars
  import opened Layouts
  import opened Objects
  import opened Sums
  import opened Actors
  import opened RefsImage

  function PinEntryLen(name: Text, owner: Actor): nat {
    8 + |name| + 32 + EncodedLen(owner)
  }

  function StagedEntryLen(owner: Actor): nat {
    32 + EncodedLen(owner) + 8 + 8
  }

  function WatchEntryLen(prefix: Text, moduleId: Text): nat {
    8 + |prefix| + 8 + |moduleId|
  }

  function PinLens(pins: map<Text, Pin>): map<Text, nat> {
    map name | name in pins :: PinEntryLen(name, pins[name].owner)
  }

  function StagedLens(staging: map<Id, Staged>): map<Id, nat> {
    map digest | digest in staging :: StagedEntryLen(staging[digest].owner)
  }

  function WatchLens(watches: set<Watch>): map<Watch, nat> {
    map watch | watch in watches :: WatchEntryLen(watch.0, watch.1)
  }

  function IdLen(id: Option<Id>): nat {
    1 + if id.Some? then 32 else 0
  }

  ghost function EncodedRefsLen(r: Refs): nat {
    IdLen(r.head) + (4 + 32 * |r.window|) + (4 + Sum(PinLens(r.pins))) + (4 + Sum(StagedLens(r.staging)))
    + (4 + Sum(WatchLens(r.watches))) + 8 + IdLen(r.retention)
  }

  // Ids are 32 bytes, as their type in the source says.
  predicate Widths(r: Refs) {
    && OptionalId(r.head) && OptionalId(r.retention)
    && (forall i :: 0 <= i < |r.window| ==> IsId(r.window[i]))
    && (forall name :: name in r.pins ==> IsId(r.pins[name].snapshot))
    && (forall digest :: digest in r.staging ==> IsId(digest))
  }

  // ---- lists ---------------------------------------------------------------------------------------

  lemma {:induction false} ListLength<K(!new), V>(g: Grammar<(K, V)>, list: seq<(K, V)>, less: (K, K) -> bool,
          lens: map<K, nat>)
    requires TotalOrder(less) && AscendingEntries(less, list) && lens.Keys == Elements(KeysOf(list))
    requires forall i :: 0 <= i < |list| ==> |g.write(list[i])| == lens[list[i].0]
    ensures |WriteAll(g, list)| == Sum(lens)
  {
    hide TotalOrder, AscendingEntries, Ascending, KeysOf, Elements;
    if list == [] {
      EmptyListing(list, lens);
    } else {
      var rest := list[1..];
      TailOfListing(less, list);
      SumTake(lens, list[0].0);
      forall i | 0 <= i < |rest|
        ensures |g.write(rest[i])| == (lens - {list[0].0})[rest[i].0]
      {
        assert rest[i] == list[i + 1];
      }
      ListLength(g, rest, less, lens - {list[0].0});
    }
  }

  lemma EmptyListing<K(!new), V>(list: seq<(K, V)>, lens: map<K, nat>)
    requires list == [] && lens.Keys == Elements(KeysOf(list))
    ensures lens == map[]
  {
    assert lens.Keys == {};
  }

  lemma TailOfListing<K(!new), V>(less: (K, K) -> bool, list: seq<(K, V)>)
    requires TotalOrder(less) && AscendingEntries(less, list) && list != []
    ensures AscendingEntries(less, list[1..]) && list[0].0 in Elements(KeysOf(list))
    ensures Elements(KeysOf(list[1..])) == Elements(KeysOf(list)) - {list[0].0}
    ensures forall i :: 0 <= i < |list[1..]| ==> list[1..][i].0 in Elements(KeysOf(list)) && list[1..][i].0 != list[0].0
  {
    hide TotalOrder;
    var rest := list[1..];
    assert KeysOf(list)[1..] == KeysOf(rest);
    KeysAscend(less, list);
    HeadIsLeast(less, KeysOf(list));
    assert KeysOf(list)[0] in Elements(KeysOf(list));
    forall i | 0 <= i < |rest|
      ensures rest[i].0 in Elements(KeysOf(list)) && rest[i].0 != list[0].0
    {
      assert KeysOf(rest)[i] in Elements(KeysOf(rest));
    }
  }

  lemma KeysAscend<K(!new), V>(less: (K, K) -> bool, list: seq<(K, V)>)
    requires AscendingEntries(less, list)
    ensures Ascending(less, KeysOf(list))
  {
  }

  lemma MapLength<K(!new), V>(width: nat, cap: nat, less: (K, K) -> bool, g: Grammar<(K, V)>, m: map<K, V>,
          lens: map<K, nat>)
    requires TotalOrder(less) && lens.Keys == m.Keys
    requires forall k :: k in m ==> |g.write((k, m[k]))| == lens[k]
    ensures |SortedMap(width, cap, less, g).write(m)| == width + Sum(lens)
  {
    hide TotalOrder, Sum;
    CollectOfEntries(less, m);
    var list := Entries(less, m);
    CollectMeans(less, list);
    EntriesAreOf(less, m);
    ListLength(g, list, less, lens);
  }

  lemma {:induction false} SetListLength<K(!new)>(g: Grammar<K>, list: seq<K>, less: (K, K) -> bool, lens: map<K, nat>)
    requires TotalOrder(less) && Ascending(less, list) && lens.Keys == Elements(list)
    requires forall k :: k in lens ==> |g.write(k)| == lens[k]
    ensures |WriteAll(g, list)| == Sum(lens)
  {
    hide TotalOrder;
    if list == [] {
      assert lens.Keys == {};
    } else {
      HeadIsLeast(less, list);
      assert list[0] in Elements(list);
      SumTake(lens, list[0]);
      SetListLength(g, list[1..], less, lens - {list[0]});
    }
  }

  lemma {:induction false} IdsLength(ids: seq<Id>)
    requires forall i :: 0 <= i < |ids| ==> IsId(ids[i])
    ensures |WriteAll(Raw(ID_BYTES), ids)| == 32 * |ids|
  {
    if ids != [] { IdsLength(ids[1..]); }
  }

  lemma WindowLength(window: seq<Id>)
    requires forall i :: 0 <= i < |window| ==> IsId(window[i])
    ensures |WindowFrame().write(window)| == 4 + 32 * |window|
  {
    hide ToBytes, WriteAll;
    IdsLength(window);
  }

  // ---- the image -----------------------------------------------------------------------------------

  lemma PinsLength(pins: map<Text, Pin>)
    requires forall name :: name in pins ==> IsId(pins[name].snapshot)
    ensures |PinsFrame().write(pins)| == 4 + Sum(PinLens(pins))
  {
    hide SortedMap, PinFrame, PinEntryLen, Sum, Below, TotalOrder;
    BelowIsTotal();
    forall name | name in pins
      ensures |PinFrame().write((name, pins[name]))| == PinLens(pins)[name]
    {
      PinLength(name, pins[name]);
    }
    MapLength(4, MAX_PINS, Below, PinFrame(), pins, PinLens(pins));
  }

  lemma PinLength(name: Text, pin: Pin)
    requires IsId(pin.snapshot)
    ensures |PinFrame().write((name, pin))| == PinEntryLen(name, pin.owner)
  {
    hide Write, EncodedLen;
    EncodedLenIsExact(pin.owner);
    assert PinFrame().write((name, pin)) == Str().write(name) + (pin.snapshot + Write(pin.owner));
  }

  lemma StagingLength(staging: map<Id, Staged>)
    requires forall digest :: digest in staging ==> IsId(digest)
    ensures |StagingFrame().write(staging)| == 4 + Sum(StagedLens(staging))
  {
    hide SortedMap, StagedFrame, StagedEntryLen, Sum, Below, TotalOrder;
    BelowIsTotal();
    forall digest | digest in staging
      ensures |StagedFrame().write((digest, staging[digest]))| == StagedLens(staging)[digest]
    {
      StagedLength(digest, staging[digest]);
    }
    MapLength(4, MAX_STAGING_ENTRIES, Below, StagedFrame(), staging, StagedLens(staging));
  }

  lemma StagedLength(digest: Id, staged: Staged)
    requires IsId(digest)
    ensures |StagedFrame().write((digest, staged))| == StagedEntryLen(staged.owner)
  {
    hide Write, EncodedLen, ToBytes;
    EncodedLenIsExact(staged.owner);
    assert StagedFrame().write((digest, staged)) == digest
        + (Write(staged.owner) + (ToBytes(8, staged.len) + ToBytes(8, staged.expires)));
  }

  lemma WatchesLength(watches: set<Watch>)
    ensures |WatchesFrame().write(watches)| == 4 + Sum(WatchLens(watches))
  {
    hide SortedSet, Sorted, Elements, Ascending, WatchFrame, WatchEntryLen, WriteAll, Sum, PairBelow, TotalOrder;
    PairBelowIsTotal();
    var list := Sorted(PairBelow, watches);
    SortedMeans(PairBelow, watches);
    forall watch | watch in watches
      ensures |WatchFrame().write(watch)| == WatchLens(watches)[watch]
    {
      WatchLength(watch);
    }
    SetListLength(WatchFrame(), list, PairBelow, WatchLens(watches));
    SetWrites(4, MAX_WATCHES, PairBelow, WatchFrame(), watches);
  }

  lemma WatchLength(watch: Watch)
    ensures |WatchFrame().write(watch)| == WatchEntryLen(watch.0, watch.1)
  {
    hide ToBytes;
  }

  lemma SetWrites<K(!new)>(width: nat, cap: nat, less: (K, K) -> bool, g: Grammar<K>, s: set<K>)
    requires TotalOrder(less)
    ensures |SortedSet(width, cap, less, g).write(s)| == width + |WriteAll(g, Sorted(less, s))|
  {
    hide TotalOrder, WriteAll, ToBytes;
  }

  // `encoded_refs_len` is the encoder's length, for every value the types allow.
  lemma LengthIsExact(r: Refs)
    requires Widths(r)
    ensures |EncodeRefs(r)| == EncodedRefsLen(r)
  {
    hide EncodeRefs, Sum, PinsFrame, StagingFrame, WatchesFrame, PinLens, StagedLens, WatchLens, ToBytes, Maybe, IdLen,
      WindowFrame, Uint;
    PartsAreWritten(r);
    PinsLength(r.pins);
    StagingLength(r.staging);
    WatchesLength(r.watches);
    WindowLength(r.window);
    NumberLength(r.revision);
    IdLength(r.head);
    IdLength(r.retention);
  }

  lemma PartsAreWritten(r: Refs)
    ensures EncodeRefs(r) == Maybe(Raw(ID_BYTES)).write(r.head)
      + (WindowFrame().write(r.window) + (PinsFrame().write(r.pins) + (StagingFrame().write(r.staging)
      + (WatchesFrame().write(r.watches) + (Uint(8).write(r.revision) + Maybe(Raw(ID_BYTES)).write(r.retention))))))
  {
    hide Maybe, Raw, Uint, WindowFrame, PinsFrame, StagingFrame, WatchesFrame;
  }

  lemma NumberLength(n: nat)
    ensures |Uint(8).write(n)| == 8
  {
    hide ToBytes;
  }

  lemma IdLength(id: Option<Id>)
    requires OptionalId(id)
    ensures |Maybe(Raw(ID_BYTES)).write(id)| == IdLen(id)
  {
    FlagLength(id.Some?);
    hide Flag;
  }

  lemma FlagLength(b: bool)
    ensures |Flag().write(b)| == 1
  {
    hide ToBytes;
    assert Flag().write(b) == ToBytes(1, if b then 1 else 0);
  }
}
