// The refs and their canonical image (crates/duckfs/core/src/state.rs:41-289).
module RefsImage {
  import opened Wrappers
  import opened Texts
  import opened Kinds
  import opened Order
  import opened Sorting
  import opened Grammars
  import opened Layouts
  import opened Objects
  import opened Actors

  const HISTORY_WINDOW: nat := 1024
  const MAX_PINS: nat := 1024
  const MAX_STAGING_ENTRIES: nat := 65_536
  const MAX_WATCHES: nat := 256
  const MAX_REFS_IMAGE_BYTES: nat := 0x10_0000

  datatype Pin = Pin(snapshot: Id, owner: Actor)

  datatype Staged = Staged(owner: Actor, len: nat, expires: nat)

  type Watch = (Text, Text)

  datatype Refs = Refs(revision: nat, head: Option<Id>, window: seq<Id>, pins: map<Text, Pin>,
                       staging: map<Id, Staged>, watches: set<Watch>, retention: Option<Id>)

  const EMPTY_REFS: Refs := Refs(0, None, [], map[], map[], {}, None)

  // ---- what an image can carry ---------------------------------------------------------------------

  predicate PinFits(name: Text, pin: Pin) {
    |name| < Range(8) && Utf8(name) && IsId(pin.snapshot) && Proper(pin.owner) && Typed(pin.owner)
  }

  predicate StagedFits(digest: Id, staged: Staged) {
    IsId(digest) && Proper(staged.owner) && Typed(staged.owner) && staged.len < Range(8) && staged.expires < Range(8)
  }

  predicate WatchFits(watch: Watch) {
    |watch.0| < Range(8) && Utf8(watch.0) && |watch.1| < Range(8) && Utf8(watch.1)
  }

  predicate PinsFit(pins: map<Text, Pin>) {
    |pins| <= MAX_PINS && forall name :: name in pins ==> PinFits(name, pins[name])
  }

  predicate StagingFits(staging: map<Id, Staged>) {
    |staging| <= MAX_STAGING_ENTRIES && forall digest :: digest in staging ==> StagedFits(digest, staging[digest])
  }

  predicate WatchesFit(watches: set<Watch>) {
    |watches| <= MAX_WATCHES && forall watch :: watch in watches ==> WatchFits(watch)
  }

  predicate WindowFits(window: seq<Id>) {
    |window| <= HISTORY_WINDOW && forall i :: 0 <= i < |window| ==> IsId(window[i])
  }

  predicate OptionalId(id: Option<Id>) {
    id.Some? ==> IsId(id.value)
  }

  // Every count within its cap, every owner proper, every string UTF-8, every number a u64.
  predicate RefsFit(r: Refs) {
    && OptionalId(r.head) && WindowFits(r.window) && PinsFit(r.pins) && StagingFits(r.staging)
    && WatchesFit(r.watches) && r.revision < Range(8) && OptionalId(r.retention)
  }

  // ---- the layout ----------------------------------------------------------------------------------

  function PinParts(): Grammar<(Text, (Id, Actor))> {
    Then(Str(), Then(Raw(ID_BYTES), Frame()))
  }

  function PinFrame(): Grammar<(Text, Pin)> {
    As(PinParts(),
       (p: (Text, (Id, Actor))) => (p.0, Pin(p.1.0, p.1.1)),
       (e: (Text, Pin)) => (e.0, (e.1.snapshot, e.1.owner)),
       (e: (Text, Pin)) => PinFits(e.0, e.1))
  }

  function StagedParts(): Grammar<(Id, (Actor, (nat, nat)))> {
    Then(Raw(ID_BYTES), Then(Frame(), Then(Uint(8), Uint(8))))
  }

  function StagedFrame(): Grammar<(Id, Staged)> {
    As(StagedParts(),
       (p: (Id, (Actor, (nat, nat)))) => (p.0, Staged(p.1.0, p.1.1.0, p.1.1.1)),
       (e: (Id, Staged)) => (e.0, (e.1.owner, (e.1.len, e.1.expires))),
       (e: (Id, Staged)) => StagedFits(e.0, e.1))
  }

  function WatchFrame(): Grammar<Watch> {
    Then(Str(), Str())
  }

  function WindowFrame(): Grammar<seq<Id>> {
    Counted(4, HISTORY_WINDOW, Raw(ID_BYTES))
  }

  function PinsFrame(): Grammar<map<Text, Pin>> {
    BelowIsTotal();
    SortedMap(4, MAX_PINS, Below, PinFrame())
  }

  function StagingFrame(): Grammar<map<Id, Staged>> {
    BelowIsTotal();
    SortedMap(4, MAX_STAGING_ENTRIES, Below, StagedFrame())
  }

  function WatchesFrame(): Grammar<set<Watch>> {
    PairBelowIsTotal();
    SortedSet(4, MAX_WATCHES, PairBelow, WatchFrame())
  }

  type RefsTail = (set<Watch>, (nat, Option<Id>))
  type RefsTuple = (Option<Id>, (seq<Id>, (map<Text, Pin>, (map<Id, Staged>, RefsTail))))

  function TailFrame(): Grammar<RefsTail> {
    Then(WatchesFrame(), Then(Uint(8), Maybe(Raw(ID_BYTES))))
  }

  function RefsParts(): Grammar<RefsTuple> {
    Then(Maybe(Raw(ID_BYTES)), Then(WindowFrame(), Then(PinsFrame(), Then(StagingFrame(), TailFrame()))))
  }

  function RefsFrame(): Grammar<Refs> {
    As(RefsParts(),
       (p: RefsTuple) => Refs(p.1.1.1.1.1.0, p.0, p.1.0, p.1.1.0, p.1.1.1.0, p.1.1.1.1.0, p.1.1.1.1.1.1),
       (r: Refs) => (r.head, (r.window, (r.pins, (r.staging, (r.watches, (r.revision, r.retention)))))),
       (r: Refs) => RefsFit(r))
  }

  function EncodeRefs(r: Refs): Text {
    RefsFrame().write(r)
  }

  function DecodeRefs(bytes: Text): Option<Refs> {
    if |bytes| > MAX_REFS_IMAGE_BYTES then None else Whole(RefsFrame(), bytes)
  }

  // ---- the layout is lawful ------------------------------------------------------------------------

  lemma PinFrameLawful()
    ensures Lawful(PinFrame())
  {
    hide Lawful, PinFits, Str, Raw, Frame;
    StrLawful();
    RawLawful(ID_BYTES);
    FrameLawful();
    ThenLawful(Raw(ID_BYTES), Frame());
    ThenLawful(Str(), Then(Raw(ID_BYTES), Frame()));
    forall name: Text, snapshot: Id, owner: Actor
      ensures PinParts().fit((name, (snapshot, owner))) <==> PinFits(name, Pin(snapshot, owner))
    {
      PinPartsFit(name, snapshot, owner);
    }
    hide PinParts;
    AsLawful(PinParts(),
       (p: (Text, (Id, Actor))) => (p.0, Pin(p.1.0, p.1.1)),
       (e: (Text, Pin)) => (e.0, (e.1.snapshot, e.1.owner)),
       (e: (Text, Pin)) => PinFits(e.0, e.1));
  }

  lemma PinPartsFit(name: Text, snapshot: Id, owner: Actor)
    ensures PinParts().fit((name, (snapshot, owner))) <==> PinFits(name, Pin(snapshot, owner))
  {
    hide Then, Raw, Str, Frame, Range, Utf8, Proper, Typed;
    ThenFits(Str(), Then(Raw(ID_BYTES), Frame()), name, (snapshot, owner));
    ThenFits(Raw(ID_BYTES), Frame(), snapshot, owner);
    StrFits(name);
    RawFits(ID_BYTES, snapshot);
    FrameFits(owner);
  }

  lemma StagedFrameLawful()
    ensures Lawful(StagedFrame())
  {
    hide Lawful, StagedFits, Raw, Frame, Uint;
    RawLawful(ID_BYTES);
    FrameLawful();
    UintLawful(8);
    ThenLawful(Uint(8), Uint(8));
    ThenLawful(Frame(), Then(Uint(8), Uint(8)));
    ThenLawful(Raw(ID_BYTES), Then(Frame(), Then(Uint(8), Uint(8))));
    forall digest: Id, owner: Actor, len: nat, expires: nat
      ensures StagedParts().fit((digest, (owner, (len, expires)))) <==> StagedFits(digest, Staged(owner, len, expires))
    {
      StagedPartsFit(digest, owner, len, expires);
    }
    hide StagedParts;
    AsLawful(StagedParts(),
       (p: (Id, (Actor, (nat, nat)))) => (p.0, Staged(p.1.0, p.1.1.0, p.1.1.1)),
       (e: (Id, Staged)) => (e.0, (e.1.owner, (e.1.len, e.1.expires))),
       (e: (Id, Staged)) => StagedFits(e.0, e.1));
  }

  lemma StagedPartsFit(digest: Id, owner: Actor, len: nat, expires: nat)
    ensures StagedParts().fit((digest, (owner, (len, expires)))) <==> StagedFits(digest, Staged(owner, len, expires))
  {
    hide Then, Raw, Uint, Frame, Range, Proper, Typed;
    ThenFits(Raw(ID_BYTES), Then(Frame(), Then(Uint(8), Uint(8))), digest, (owner, (len, expires)));
    ThenFits(Frame(), Then(Uint(8), Uint(8)), owner, (len, expires));
    ThenFits(Uint(8), Uint(8), len, expires);
    RawFits(ID_BYTES, digest);
    FrameFits(owner);
    UintFits(8, len);
    UintFits(8, expires);
  }

  lemma SectionsLawful()
    ensures Lawful(Maybe(Raw(ID_BYTES))) && Lawful(WindowFrame()) && Lawful(PinsFrame()) && Lawful(StagingFrame())
        && Lawful(WatchesFrame())
  {
    hide Lawful, SortedMap, SortedSet;
    Wide();
    RawLawful(ID_BYTES);
    MaybeLawful(Raw(ID_BYTES));
    CountedLawful(4, HISTORY_WINDOW, Raw(ID_BYTES));
    BelowIsTotal();
    PinFrameLawful();
    SortedMapLawful(4, MAX_PINS, Below, PinFrame());
    StagedFrameLawful();
    SortedMapLawful(4, MAX_STAGING_ENTRIES, Below, StagedFrame());
    PairBelowIsTotal();
    StrLawful();
    ThenLawful(Str(), Str());
    SortedSetLawful(4, MAX_WATCHES, PairBelow, WatchFrame());
  }

  lemma RefsPartsLawful()
    ensures Lawful(RefsParts())
  {
    SectionsLawful();
    hide Lawful, WindowFrame, PinsFrame, StagingFrame, WatchesFrame, Maybe, Raw, Uint;
    UintLawful(8);
    ThenLawful(Uint(8), Maybe(Raw(ID_BYTES)));
    ThenLawful(WatchesFrame(), Then(Uint(8), Maybe(Raw(ID_BYTES))));
    ThenLawful(StagingFrame(), TailFrame());
    ThenLawful(PinsFrame(), Then(StagingFrame(), TailFrame()));
    ThenLawful(WindowFrame(), Then(PinsFrame(), Then(StagingFrame(), TailFrame())));
    ThenLawful(Maybe(Raw(ID_BYTES)), Then(WindowFrame(), Then(PinsFrame(), Then(StagingFrame(), TailFrame()))));
  }

  lemma PinFrameFits(name: Text, pin: Pin)
    ensures PinFrame().fit((name, pin)) <==> PinFits(name, pin)
  {
    hide PinFits, PinParts;
  }

  lemma StagedFrameFits(digest: Id, staged: Staged)
    ensures StagedFrame().fit((digest, staged)) <==> StagedFits(digest, staged)
  {
    hide StagedFits, StagedParts;
  }

  lemma SectionsFit(r: Refs)
    ensures Maybe(Raw(ID_BYTES)).fit(r.head) <==> OptionalId(r.head)
    ensures Maybe(Raw(ID_BYTES)).fit(r.retention) <==> OptionalId(r.retention)
    ensures WindowFrame().fit(r.window) <==> WindowFits(r.window)
    ensures PinsFrame().fit(r.pins) <==> PinsFit(r.pins)
    ensures StagingFrame().fit(r.staging) <==> StagingFits(r.staging)
    ensures WatchesFrame().fit(r.watches) <==> WatchesFit(r.watches)
  {
    hide Maybe, Raw, Counted, SortedMap, SortedSet, PinFrame, StagedFrame, WatchFrame, PinFits, StagedFits, WatchFits,
      Below, PairBelow, TotalOrder, Range, Utf8;
    MaybeFits(Raw(ID_BYTES), r.head);
    MaybeFits(Raw(ID_BYTES), r.retention);
    forall id: Text
      ensures Raw(ID_BYTES).fit(id) <==> |id| == ID_BYTES
    {
      RawFits(ID_BYTES, id);
    }
    CountedFits(4, HISTORY_WINDOW, Raw(ID_BYTES), r.window);
    BelowIsTotal();
    SortedMapFits(4, MAX_PINS, Below, PinFrame(), r.pins);
    SortedMapFits(4, MAX_STAGING_ENTRIES, Below, StagedFrame(), r.staging);
    PairBelowIsTotal();
    SortedSetFits(4, MAX_WATCHES, PairBelow, WatchFrame(), r.watches);
    forall name: Text, pin: Pin
      ensures PinFrame().fit((name, pin)) <==> PinFits(name, pin)
    {
      PinFrameFits(name, pin);
    }
    forall digest: Id, staged: Staged
      ensures StagedFrame().fit((digest, staged)) <==> StagedFits(digest, staged)
    {
      StagedFrameFits(digest, staged);
    }
    forall watch: Watch
      ensures WatchFrame().fit(watch) <==> WatchFits(watch)
    {
      WatchFrameFits(watch);
    }
  }

  lemma WatchFrameFits(watch: Watch)
    ensures WatchFrame().fit(watch) <==> WatchFits(watch)
  {
    hide Str, Range, Utf8;
    StrFits(watch.0);
    StrFits(watch.1);
  }

  lemma RefsPartsFit(r: Refs)
    ensures RefsParts().fit((r.head, (r.window, (r.pins, (r.staging, (r.watches, (r.revision, r.retention))))))) <==>
        RefsFit(r)
  {
    hide Then, Maybe, Raw, Uint, WindowFrame, PinsFrame, StagingFrame, WatchesFrame, Range,
      OptionalId, WindowFits, PinsFit, StagingFits, WatchesFit;
    SectionsFit(r);
    UintFits(8, r.revision);
    var tail := (r.watches, (r.revision, r.retention));
    ThenFits(Maybe(Raw(ID_BYTES)), Then(WindowFrame(), Then(PinsFrame(), Then(StagingFrame(), TailFrame()))), r.head,
        (r.window, (r.pins, (r.staging, tail))));
    ThenFits(WindowFrame(), Then(PinsFrame(), Then(StagingFrame(), TailFrame())), r.window,
        (r.pins, (r.staging, tail)));
    ThenFits(PinsFrame(), Then(StagingFrame(), TailFrame()), r.pins, (r.staging, tail));
    ThenFits(StagingFrame(), TailFrame(), r.staging, tail);
    ThenFits(WatchesFrame(), Then(Uint(8), Maybe(Raw(ID_BYTES))), r.watches, (r.revision, r.retention));
    ThenFits(Uint(8), Maybe(Raw(ID_BYTES)), r.revision, r.retention);
  }

  lemma RefsFrameLawful()
    ensures Lawful(RefsFrame())
  {
    RefsPartsLawful();
    hide Lawful, RefsParts, RefsFit;
    forall r: Refs
      ensures RefsParts().fit((r.head, (r.window, (r.pins, (r.staging, (r.watches, (r.revision, r.retention))))))) <==>
          RefsFit(r)
    {
      RefsPartsFit(r);
    }
    var to := (p: RefsTuple) => Refs(p.1.1.1.1.1.0, p.0, p.1.0, p.1.1.0, p.1.1.1.0, p.1.1.1.1.0, p.1.1.1.1.1.1);
    var from := (r: Refs) => (r.head, (r.window, (r.pins, (r.staging, (r.watches, (r.revision, r.retention))))));
    forall p: RefsTuple
      ensures from(to(p)) == p && (RefsParts().fit(p) <==> RefsFit(to(p)))
    {
      assert from(to(p)) == p;
    }
    AsLawful(RefsParts(), to, from, (r: Refs) => RefsFit(r));
  }

  // The refs image is canonical: an image decodes to `r` exactly if `r` fits, its encoding fits
  // the byte cap, and the image is that encoding.
  lemma ImageIsCanonical(bytes: Text, r: Refs)
    ensures DecodeRefs(bytes) == Some(r) <==> RefsFit(r) && |bytes| <= MAX_REFS_IMAGE_BYTES && bytes == EncodeRefs(r)
  {
    RefsFrameLawful();
    hide Lawful, RefsParts, RefsFit, Whole;
    WholeIsCanonical(RefsFrame(), bytes, r);
  }

  // No two images mean the same refs, and no two refs in their caps share an image.
  lemma OneImageEach(a: Text, b: Text, r: Refs, s: Refs)
    ensures DecodeRefs(a).Some? && DecodeRefs(a) == DecodeRefs(b) ==> a == b
    ensures RefsFit(r) && RefsFit(s) && EncodeRefs(r) == EncodeRefs(s) && |EncodeRefs(r)| <= MAX_REFS_IMAGE_BYTES ==>
        r == s
  {
    hide RefsFit, EncodeRefs, DecodeRefs;
    if DecodeRefs(a).Some? && DecodeRefs(a) == DecodeRefs(b) {
      ImageIsCanonical(a, DecodeRefs(a).value);
      ImageIsCanonical(b, DecodeRefs(a).value);
    }
    ImageIsCanonical(EncodeRefs(r), r);
    ImageIsCanonical(EncodeRefs(r), s);
  }
}
