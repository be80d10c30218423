// The retention catalog (crates/duckfs/core/src/retention.rs:57-319): module-owned references to
// snapshots, and beside them how many references name each snapshot.
module Retention {
  import opened Wrappers
  import opened Texts
  import opened Kinds
  import opened Grammars
  import opened Records

  const MAX_MODULE_BYTES: nat := 128
  const MAX_KEY_BYTES: nat := 128
  const MAX_COUNT: nat := 0xFFFF_FFFF_FFFF_FFFF

  datatype Reference = Reference(snapshot: Text, revision: nat)

  // Where a record sits: references by the digest of their name, counts by their snapshot.
  datatype Place = AtReference(digest: Id) | AtMembership(snapshot: Id)

  datatype Record = Holding(reference: Reference) | Membership(snapshot: Id, count: nat)

  type Catalog = map<Place, Record>

  datatype Refusal =
    | BadName | BadSnapshot | ZeroRevision | Mismatch | RevisionMustAdvance
    | WrongEdge | Underflow | Overflow

  // ---- naming --------------------------------------------------------------------------------------

  function NameBytes(moduleId: Text, key: Text): Text {
    Bytes().write(moduleId) + Bytes().write(key)
  }

  function PlaceOf(hash: Blob -> Id, moduleId: Text, key: Text): Place {
    AtReference(hash(Blob(ChunkKind, NameBytes(moduleId, key))))
  }

  predicate ValidName(moduleId: Text, key: Text) {
    moduleId != [] && |moduleId| <= MAX_MODULE_BYTES && key != [] && |key| <= MAX_KEY_BYTES
  }

  lemma ShortNames()
    ensures MAX_MODULE_BYTES < Range(8) && MAX_KEY_BYTES < Range(8)
  {
    assert Range(8) == 256 * Range(7);
  }

  // Length-prefixed names never run together, so no two names share a place.
  lemma PlacesAreDistinct(hash: Blob -> Id, m1: Text, k1: Text, m2: Text, k2: Text)
    requires Injective(hash) && ValidName(m1, k1) && ValidName(m2, k2)
    ensures PlaceOf(hash, m1, k1) == PlaceOf(hash, m2, k2) ==> m1 == m2 && k1 == k2
  {
    ShortNames();
    BytesLawful();
    ThenLawful(Bytes(), Bytes());
    hide Range, Lawful, ToBytes;
    var g := Then(Bytes(), Bytes());
    if PlaceOf(hash, m1, k1) == PlaceOf(hash, m2, k2) {
      assert NameBytes(m1, k1) == NameBytes(m2, k2);
      assert g.fit((m1, k1)) && g.fit((m2, k2));
      assert g.write((m1, k1)) == NameBytes(m1, k1) && g.write((m2, k2)) == NameBytes(m2, k2);
      ReadsBack(g, (m1, k1), []);
      ReadsBack(g, (m2, k2), []);
    }
  }

  // ---- reading -------------------------------------------------------------------------------------

  function Look(catalog: Catalog, place: Place): Result<Option<Reference>, Refusal> {
    if place !in catalog then Ok(None)
    else match catalog[place]
      case Holding(reference) => Ok(Some(reference))
      case Membership(_, _) => Err(WrongEdge)
  }

  function Get(hash: Blob -> Id, catalog: Catalog, moduleId: Text, key: Text): Result<Option<Reference>, Refusal> {
    if !ValidName(moduleId, key) then Err(BadName) else Look(catalog, PlaceOf(hash, moduleId, key))
  }

  function Count(catalog: Catalog, snapshot: Id): Result<nat, Refusal> {
    if AtMembership(snapshot) !in catalog then Ok(0)
    else match catalog[AtMembership(snapshot)]
      case Membership(id, count) => if id == snapshot then Ok(count) else Err(WrongEdge)
      case Holding(_) => Err(WrongEdge)
  }

  function Contains(catalog: Catalog, snapshot: Id): Result<bool, Refusal> {
    match Count(catalog, snapshot)
    case Err(e) => Err(e)
    case Ok(n) => Ok(n != 0)
  }

  // ---- exchanging ----------------------------------------------------------------------------------

  function Checked(reference: Option<Reference>): Option<Refusal> {
    if reference.None? then None
    else if FromHex32(reference.value.snapshot).None? then Some(BadSnapshot)
    else if reference.value.revision == 0 then Some(ZeroRevision)
    else None
  }

  function SnapshotOf(reference: Option<Reference>): Option<Id> {
    if reference.None? then None else FromHex32(reference.value.snapshot)
  }

  function WithReference(catalog: Catalog, place: Place, replacement: Option<Reference>): Catalog {
    if replacement.Some? then catalog[place := Holding(replacement.value)] else catalog - {place}
  }

  function WithCount(catalog: Catalog, snapshot: Id, count: nat): Catalog {
    if count == 0 then catalog - {AtMembership(snapshot)}
    else catalog[AtMembership(snapshot) := Membership(snapshot, count)]
  }

  // One reference less for a snapshot; the count is read in the catalog as it was before the edit.
  function Dropped(was: Catalog, catalog: Catalog, snapshot: Option<Id>): Result<Catalog, Refusal> {
    if snapshot.None? then Ok(catalog)
    else match Count(was, snapshot.value)
      case Err(e) => Err(e)
      case Ok(n) => if n == 0 then Err(Underflow) else Ok(WithCount(catalog, snapshot.value, n - 1))
  }

  function Added(was: Catalog, catalog: Catalog, snapshot: Option<Id>): Result<Catalog, Refusal> {
    if snapshot.None? then Ok(catalog)
    else match Count(was, snapshot.value)
      case Err(e) => Err(e)
      case Ok(n) => if n == MAX_COUNT then Err(Overflow) else Ok(WithCount(catalog, snapshot.value, n + 1))
  }

  function CompareExchange(hash: Blob -> Id, catalog: Catalog, moduleId: Text, key: Text,
                           expected: Option<Reference>, replacement: Option<Reference>): Result<Catalog, Refusal> {
    if !ValidName(moduleId, key) then Err(BadName)
    else if Checked(expected).Some? then Err(Checked(expected).value)
    else if Checked(replacement).Some? then Err(Checked(replacement).value)
    else
      match Get(hash, catalog, moduleId, key)
      case Err(e) => Err(e)
      case Ok(current) =>
        if current != expected then Err(Mismatch)
        else if expected == replacement then Ok(catalog)
        else if expected.Some? && replacement.Some? && replacement.value.revision <= expected.value.revision then
          Err(RevisionMustAdvance)
        else
          var edited := WithReference(catalog, PlaceOf(hash, moduleId, key), replacement);
          var (previous, next) := (SnapshotOf(expected), SnapshotOf(replacement));
          if previous == next then Ok(edited)
          else
            match Dropped(catalog, edited, previous)
            case Err(e) => Err(e)
            case Ok(dropped) => Added(catalog, dropped, next)
  }

  // The same, editing in place.
  class Edit {
    var records: Catalog

    constructor (catalog: Catalog)
      ensures records == catalog
    {
      records := catalog;
    }

    method Put(place: Place, record: Record)
      modifies this
      ensures records == old(records)[place := record]
    {
      records := records[place := record];
    }

    method Remove(place: Place)
      modifies this
      ensures records == old(records) - {place}
    {
      records := records - {place};
    }
  }

  method Exchange(hash: Blob -> Id, catalog: Catalog, moduleId: Text, key: Text,
                  expected: Option<Reference>, replacement: Option<Reference>)
    returns (r: Result<Catalog, Refusal>)
    ensures r == CompareExchange(hash, catalog, moduleId, key, expected, replacement)
  {
    hide NameBytes, FromHexPairs;
    if !ValidName(moduleId, key) {
      return Err(BadName);
    }
    var refusal := Checked(expected);
    if refusal.None? {
      refusal := Checked(replacement);
    }
    if refusal.Some? {
      return Err(refusal.value);
    }
    var current := Get(hash, catalog, moduleId, key);
    if current.Err? {
      return Err(current.error);
    }
    if current.value != expected {
      return Err(Mismatch);
    }
    if expected == replacement {
      return Ok(catalog);
    }
    if expected.Some? && replacement.Some? && replacement.value.revision <= expected.value.revision {
      return Err(RevisionMustAdvance);
    }
    var edit := new Edit(catalog);
    var place := PlaceOf(hash, moduleId, key);
    if replacement.Some? {
      edit.Put(place, Holding(replacement.value));
    } else {
      edit.Remove(place);
    }
    var previous, next := SnapshotOf(expected), SnapshotOf(replacement);
    if previous != next {
      if previous.Some? {
        var count := Count(catalog, previous.value);
        if count.Err? {
          return Err(count.error);
        }
        if count.value == 0 {
          return Err(Underflow);
        }
        if count.value - 1 == 0 {
          edit.Remove(AtMembership(previous.value));
        } else {
          edit.Put(AtMembership(previous.value), Membership(previous.value, count.value - 1));
        }
      }
      if next.Some? {
        var count := Count(catalog, next.value);
        if count.Err? {
          return Err(count.error);
        }
        if count.value == MAX_COUNT {
          return Err(Overflow);
        }
        edit.Put(AtMembership(next.value), Membership(next.value, count.value + 1));
      }
    }
    r := Ok(edit.records);
  }

  // ---- the invariant -------------------------------------------------------------------------------

  // The references that name a snapshot, by the digest of their name.
  function Holders(catalog: Catalog, snapshot: Id): set<Place> {
    set p | p in catalog && p.AtReference? && catalog[p].Holding?
        && FromHex32(catalog[p].reference.snapshot) == Some(snapshot)
  }

  ghost predicate Balanced(catalog: Catalog) {
    && (forall p :: p in catalog && p.AtReference? ==>
          catalog[p].Holding? && Checked(Some(catalog[p].reference)) == None)
    && (forall s :: AtMembership(s) in catalog ==> catalog[AtMembership(s)] == Membership(s, |Holders(catalog, s)|))
    && (forall s :: AtMembership(s) in catalog <==> Holders(catalog, s) != {})
  }

  // The stored count is the number of references that name the snapshot, so membership means that
  // some reference holds it.
  lemma CountsAreExact(catalog: Catalog, snapshot: Id)
    requires Balanced(catalog)
    ensures Count(catalog, snapshot) == Ok(|Holders(catalog, snapshot)|)
    ensures Contains(catalog, snapshot) == Ok(Holders(catalog, snapshot) != {})
  {
    hide FromHex32;
    if AtMembership(snapshot) !in catalog {
      assert Holders(catalog, snapshot) == {};
    }
  }

  lemma HoldersAfter(catalog: Catalog, place: Place, replacement: Option<Reference>, s: Id)
    requires place.AtReference? && Balanced(catalog)
    ensures Holders(WithReference(catalog, place, replacement), s)
         == Holders(catalog, s) - {place} + (if SnapshotOf(replacement) == Some(s) then {place} else {})
    ensures place in Holders(catalog, s) <==> place in catalog && SnapshotOf(Some(catalog[place].reference)) == Some(s)
  {
    hide FromHex32;
  }

  lemma SizeAfter<T>(s: set<T>, x: T)
    ensures |s - {x}| == |s| - (if x in s then 1 else 0)
    ensures |s + {x}| == |s| + (if x in s then 0 else 1)
  {
    if x !in s {
      assert s - {x} == s;
    } else {
      assert s + {x} == s;
    }
  }

  // What an accepted exchange leaves: the reference as asked, every count as it was but for the
  // two snapshots concerned.
  ghost predicate Exchanged(catalog: Catalog, after: Catalog, place: Place, replacement: Option<Reference>) {
    && (forall p: Place ::
      p.AtReference? && p != place ==> (p in after <==> p in catalog) && (p in catalog ==> after[p] == catalog[p]))
    && (if replacement.None? then place !in after else place in after && after[place] == Holding(replacement.value))
  }

  lemma ExchangeIsExact(hash: Blob -> Id, catalog: Catalog, moduleId: Text, key: Text,
                        expected: Option<Reference>, replacement: Option<Reference>)
    requires Balanced(catalog)
    ensures var r := CompareExchange(hash, catalog, moduleId, key, expected, replacement);
      var place := PlaceOf(hash, moduleId, key);
      && (r.Ok? ==> Balanced(r.value) && Exchanged(catalog, r.value, place, replacement))
      && (r.Ok? ==>
            Get(hash, catalog, moduleId, key) == Ok(expected) && Get(hash, r.value, moduleId, key) == Ok(replacement))
      && (r.Ok? && expected != replacement && expected.Some? && replacement.Some? ==>
        replacement.value.revision > expected.value.revision)
      && (r.Err? ==> r.error != Underflow && r.error != WrongEdge)
      && (r.Err? && r.error == Overflow ==>
        replacement.Some? && |Holders(catalog, SnapshotOf(replacement).value)| == MAX_COUNT)
  {
    hide FromHex32, Balanced, Holders, NameBytes;
    var place := PlaceOf(hash, moduleId, key);
    LookIsCurrent(catalog, place);
    var r := CompareExchange(hash, catalog, moduleId, key, expected, replacement);
    var previous, next := SnapshotOf(expected), SnapshotOf(replacement);
    if previous.Some? { CountsAreExact(catalog, previous.value); }
    if next.Some? { CountsAreExact(catalog, next.value); }
    if ValidName(moduleId, key) && Checked(expected).None? && Checked(replacement).None?
        && Look(catalog, place) == Ok(expected) && expected != replacement {
      PreviousHolds(catalog, place, expected);
      if r.Ok? {
        ExchangeBalances(catalog, place, expected, replacement, r.value);
      }
    }
  }

  // A reference a module may hold: to a snapshot, and past revision zero.
  predicate Referable(reference: Option<Reference>) {
    reference.Some? ==> FromHex32(reference.value.snapshot).Some? && reference.value.revision > 0
  }

  // An exchange is accepted exactly if the name and both references are right, the expected one is the
  // current one, and, where anything changes, a reference replaced by another gains a revision and the
  // newly named snapshot's count is not yet the greatest there is.
  lemma ExchangeIsAccepted(hash: Blob -> Id, catalog: Catalog, moduleId: Text, key: Text,
                           expected: Option<Reference>, replacement: Option<Reference>)
    requires Balanced(catalog)
    ensures var place := PlaceOf(hash, moduleId, key);
      CompareExchange(hash, catalog, moduleId, key, expected, replacement).Ok? <==>
      && 0 < |moduleId| <= 128 && 0 < |key| <= 128 && Referable(expected) && Referable(replacement)
      && (if expected.None? then place !in catalog else place in catalog && catalog[place] == Holding(expected.value))
      && (expected == replacement ||
          (&& (expected.Some? && replacement.Some? ==> replacement.value.revision > expected.value.revision)
           && (replacement.Some? && SnapshotOf(replacement) != SnapshotOf(expected) ==>
                 |Holders(catalog, SnapshotOf(replacement).value)| != 0xFFFF_FFFF_FFFF_FFFF)))
  {
    hide FromHex32, Balanced, Holders, NameBytes, WithReference, WithCount;
    var place := PlaceOf(hash, moduleId, key);
    LookIsCurrent(catalog, place);
    var previous, next := SnapshotOf(expected), SnapshotOf(replacement);
    if previous.Some? { CountsAreExact(catalog, previous.value); }
    if next.Some? { CountsAreExact(catalog, next.value); }
    if ValidName(moduleId, key) && Checked(expected).None? && Look(catalog, place) == Ok(expected) {
      PreviousHolds(catalog, place, expected);
    }
  }

  lemma LookIsCurrent(catalog: Catalog, place: Place)
    requires Balanced(catalog) && place.AtReference?
    ensures Look(catalog, place).Ok?
    ensures Look(catalog, place) == Ok(None) <==> place !in catalog
    ensures place in catalog ==> catalog[place].Holding? && Look(catalog, place) == Ok(Some(catalog[place].reference))
  {
  }

  lemma PreviousHolds(catalog: Catalog, place: Place, expected: Option<Reference>)
    requires Balanced(catalog) && place.AtReference? && Look(catalog, place) == Ok(expected) && Checked(expected).None?
    ensures expected.Some? ==> SnapshotOf(expected).Some? && place in Holders(catalog, SnapshotOf(expected).value)
    ensures expected.Some? ==> |Holders(catalog, SnapshotOf(expected).value)| > 0
  {
    hide FromHex32;
    if expected.Some? { HoldersAfter(catalog, place, None, SnapshotOf(expected).value); }
  }

  // An exchange past its checks.
  predicate Made(catalog: Catalog, place: Place, expected: Option<Reference>, replacement: Option<Reference>,
          after: Catalog) {
    var edited := WithReference(catalog, place, replacement);
    var (previous, next) := (SnapshotOf(expected), SnapshotOf(replacement));
    if previous == next then after == edited
    else
      && Dropped(catalog, edited, previous).Ok?
      && Ok(after) == Added(catalog, Dropped(catalog, edited, previous).value, next)
  }

  lemma MadeExchanges(catalog: Catalog, place: Place, expected: Option<Reference>, replacement: Option<Reference>,
          after: Catalog)
    requires place.AtReference? && Made(catalog, place, expected, replacement, after)
    ensures Exchanged(catalog, after, place, replacement)
    ensures forall s :: Holders(after, s) == Holders(WithReference(catalog, place, replacement), s)
  {
    hide FromHex32, Holders;
    var edited := WithReference(catalog, place, replacement);
    forall s
      ensures Holders(after, s) == Holders(edited, s)
    {
      HoldersSame(edited, after, s);
    }
  }

  // How many hold a snapshot afterwards.
  lemma HoldersCount(catalog: Catalog, place: Place, expected: Option<Reference>, replacement: Option<Reference>, s: Id)
    requires Balanced(catalog) && place.AtReference? && Look(catalog, place) == Ok(expected)
    requires Checked(expected).None? && Checked(replacement).None?
    ensures |Holders(WithReference(catalog, place, replacement), s)| == CountAfter(catalog, expected, replacement, s)
  {
    hide FromHex32, Holders, Balanced;
    HoldersAfter(catalog, place, replacement, s);
    LookIsCurrent(catalog, place);
    var held := Holders(catalog, s);
    SizeAfter(held, place);
    SizeAfter(held - {place}, place);
  }

  function CountAfter(catalog: Catalog, expected: Option<Reference>, replacement: Option<Reference>, s: Id): int {
    var (previous, next) := (SnapshotOf(expected), SnapshotOf(replacement));
    |Holders(catalog, s)| - (if previous != next && previous == Some(s) then 1 else 0)
                          + (if previous != next && next == Some(s) then 1 else 0)
  }

  // The counts after an exchange are the counts the references make.
  lemma ExchangeBalances(catalog: Catalog, place: Place, expected: Option<Reference>, replacement: Option<Reference>,
          after: Catalog)
    requires Balanced(catalog) && place.AtReference? && Look(catalog, place) == Ok(expected)
    requires Checked(expected).None? && Checked(replacement).None? && Made(catalog, place, expected, replacement, after)
    ensures Balanced(after) && Exchanged(catalog, after, place, replacement)
  {
    hide FromHex32, Holders, Made, CountAfter, WithReference;
    MadeExchanges(catalog, place, expected, replacement, after);
    forall s
      ensures AtMembership(s) in after <==> Holders(after, s) != {}
      ensures AtMembership(s) in after ==> after[AtMembership(s)] == Membership(s, |Holders(after, s)|)
    {
      HoldersCount(catalog, place, expected, replacement, s);
      CountAt(catalog, place, expected, replacement, after, s);
      EmptyIsNone(Holders(after, s));
    }
  }

  lemma EmptyIsNone<T>(s: set<T>)
    ensures s == {} <==> |s| == 0
  {
  }

  // Only reference places matter for who holds what.
  lemma HoldersSame(a: Catalog, b: Catalog, s: Id)
    requires forall p: Place :: p.AtReference? ==> (p in a <==> p in b) && (p in a ==> a[p] == b[p])
    ensures Holders(a, s) == Holders(b, s)
  {
    hide FromHex32;
  }

  lemma CountAt(catalog: Catalog, place: Place, expected: Option<Reference>, replacement: Option<Reference>,
          after: Catalog, s: Id)
    requires Balanced(catalog) && place.AtReference?
    requires Made(catalog, place, expected, replacement, after)
    ensures var n := CountAfter(catalog, expected, replacement, s);
      && n >= 0 && (AtMembership(s) in after <==> n != 0)
      && (AtMembership(s) in after ==> after[AtMembership(s)] == Membership(s, n))
  {
    hide FromHex32, Holders, Balanced;
    var previous, next := SnapshotOf(expected), SnapshotOf(replacement);
    if previous.Some? { CountsAreExact(catalog, previous.value); }
    if next.Some? { CountsAreExact(catalog, next.value); }
    CountsAreExact(catalog, s);
    EmptyIsNone(Holders(catalog, s));
    MembershipIs(catalog, s);
  }

  lemma MembershipIs(catalog: Catalog, s: Id)
    requires Balanced(catalog)
    ensures AtMembership(s) in catalog <==> Holders(catalog, s) != {}
    ensures AtMembership(s) in catalog ==> catalog[AtMembership(s)] == Membership(s, |Holders(catalog, s)|)
  {
  }

  // ---- runs ----------------------------------------------------------------------------------------

  datatype Call = Call(moduleId: Text, key: Text, expected: Option<Reference>, replacement: Option<Reference>)

  function Step(hash: Blob -> Id, catalog: Catalog, call: Call): Catalog {
    match CompareExchange(hash, catalog, call.moduleId, call.key, call.expected, call.replacement)
    case Ok(after) => after
    case Err(_) => catalog
  }

  function Run(hash: Blob -> Id, calls: seq<Call>): Catalog {
    if calls == [] then map[]
    else Step(hash, Run(hash, calls[..|calls| - 1]), calls[|calls| - 1])
  }

  lemma {:induction false} EveryRunBalances(hash: Blob -> Id, calls: seq<Call>)
    ensures Balanced(Run(hash, calls))
  {
    if calls == [] {
      assert forall s :: Holders(map[], s) == {};
    } else {
      var before, last := calls[..|calls| - 1], calls[|calls| - 1];
      EveryRunBalances(hash, before);
      hide Balanced;
      ExchangeIsExact(hash, Run(hash, before), last.moduleId, last.key, last.expected, last.replacement);
    }
  }

  // After any run, a snapshot is a member exactly if some module's key refers to it.
  lemma MembershipMeansReferred(hash: Blob -> Id, calls: seq<Call>, snapshot: Id)
    ensures var catalog := Run(hash, calls);
      Contains(catalog, snapshot) == Ok(exists p :: p in catalog && p.AtReference? && catalog[p].Holding?
                                          && FromHex32(catalog[p].reference.snapshot) == Some(snapshot))
  {
    hide FromHex32, Run, Balanced;
    var catalog := Run(hash, calls);
    EveryRunBalances(hash, calls);
    CountsAreExact(catalog, snapshot);
    if exists p :: p in catalog && p.AtReference? && catalog[p].Holding? && FromHex32(catalog[p].reference.snapshot)
        == Some(snapshot) {
      var p :| p in catalog && p.AtReference? && catalog[p].Holding?
          && FromHex32(catalog[p].reference.snapshot) == Some(snapshot);
      assert p in Holders(catalog, snapshot);
    } else {
      assert Holders(catalog, snapshot) == {};
    }
  }

  lemma AcceptedNames(hash: Blob -> Id, catalog: Catalog, call: Call)
    requires CompareExchange(hash, catalog, call.moduleId, call.key, call.expected, call.replacement).Ok?
    ensures ValidName(call.moduleId, call.key)
  {
    hide FromHex32, NameBytes;
  }

  // One exchange leaves every other module's and key's reference alone.
  lemma OthersUntouched(hash: Blob -> Id, catalog: Catalog, call: Call, moduleId: Text, key: Text)
    requires Injective(hash) && Balanced(catalog) && (moduleId != call.moduleId || key != call.key)
    ensures Get(hash, Step(hash, catalog, call), moduleId, key) == Get(hash, catalog, moduleId, key)
  {
    hide Balanced, FromHex32, NameBytes, CompareExchange;
    ExchangeIsExact(hash, catalog, call.moduleId, call.key, call.expected, call.replacement);
    var r := CompareExchange(hash, catalog, call.moduleId, call.key, call.expected, call.replacement);
    if r.Ok? && ValidName(moduleId, key) {
      AcceptedNames(hash, catalog, call);
      PlacesAreDistinct(hash, moduleId, key, call.moduleId, call.key);
    }
  }

  // As long as a key keeps a reference, its revision only rises.
  lemma RevisionOnlyRises(hash: Blob -> Id, catalog: Catalog, call: Call, moduleId: Text, key: Text)
    requires Injective(hash) && Balanced(catalog)
    ensures var (before, after) := (Get(hash, catalog, moduleId, key),
        Get(hash, Step(hash, catalog, call), moduleId, key));
      before.Ok? && after.Ok? && before.value.Some? && after.value.Some? ==>
        after.value == before.value || after.value.value.revision > before.value.value.revision
  {
    hide Balanced, FromHex32, NameBytes, CompareExchange;
    if moduleId != call.moduleId || key != call.key {
      OthersUntouched(hash, catalog, call, moduleId, key);
    } else {
      ExchangeIsExact(hash, catalog, call.moduleId, call.key, call.expected, call.replacement);
    }
  }
}
