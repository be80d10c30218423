// Self-heal (crates/duckfs/core/src/fs.rs:985-1133, crates/duckfs/core/src/gc.rs:79-144): ask a peer
// for what is missing, take in what hashes to the id it was asked for, until nothing is missing.
module Healing {
  import opened Wrappers
  import opened Texts
  import opened Kinds
  import opened Order
  import opened Sorting
  import opened Layouts
  import opened Objects
  import opened Reachability
  import opened Collecting
  import opened Marking
  import opened Records
  import Base64
  import Sweeping
  import Chunks

  const MAX_SYNC_IDS: nat := 256
  const MAX_SYNC_REPLY_BYTES: nat := 1_572_864

  // ---- serving -------------------------------------------------------------------------------------

  // The hex id, the body in base64 and the fixed fields.
  function Cost(blob: Blob): nat {
    64 + |Base64.Encode(blob.body)| + 48
  }

  datatype SyncObject = SyncObject(id: Id, found: Option<Blob>)

  // One reply: each id answered in turn, until the byte budget is spent; the first object found is
  // answered whatever it costs.
  function Serve(odb: Odb, ids: seq<Id>, spent: nat, served: nat): seq<SyncObject> {
    if ids == [] then []
    else if ids[0] !in odb || (served > 0 && spent + Cost(odb[ids[0]]) > MAX_SYNC_REPLY_BYTES) then
      [SyncObject(ids[0], None)] + Serve(odb, ids[1..], spent, served)
    else
      [SyncObject(ids[0], Some(odb[ids[0]]))] + Serve(odb, ids[1..], spent + Cost(odb[ids[0]]), served + 1)
  }

  // How many bytes of a reply an object takes: four characters for every three bytes begun, and 112.
  function WireSize(o: SyncObject): nat {
    if o.found.Some? then 4 * ((|o.found.value.body| + 2) / 3) + 112 else 0
  }

  function ReplySize(reply: seq<SyncObject>): nat {
    if reply == [] then 0 else WireSize(reply[0]) + ReplySize(reply[1..])
  }

  lemma CostIs(id: Id, blob: Blob)
    ensures Cost(blob) == WireSize(SyncObject(id, Some(blob)))
  {
    Base64.LengthIs(blob.body);
  }

  predicate AnyFound(reply: seq<SyncObject>) {
    exists i :: 0 <= i < |reply| && reply[i].found.Some?
  }

  // A reply answers in request order, tells only the truth, and says something if it can.
  lemma {:induction false} ServeIsHonest(odb: Odb, ids: seq<Id>, spent: nat, served: nat)
    ensures var reply := Serve(odb, ids, spent, served);
      && |reply| == |ids|
      && (forall i :: 0 <= i < |ids| ==> reply[i].id == ids[i])
      && (forall i :: 0 <= i < |ids| && reply[i].found.Some? ==> ids[i] in odb && reply[i].found.value == odb[ids[i]])
      && (served == 0 && (exists i :: 0 <= i < |ids| && ids[i] in odb) ==> AnyFound(reply))
  {
    if ids != [] {
      var reply := Serve(odb, ids, spent, served);
      var taken := reply[0].found.Some?;
      var rest := if taken then Serve(odb, ids[1..], spent + Cost(odb[ids[0]]), served + 1)
          else Serve(odb, ids[1..], spent, served);
      assert reply == [reply[0]] + rest;
      if taken { ServeIsHonest(odb, ids[1..], spent + Cost(odb[ids[0]]), served + 1); }
      else { ServeIsHonest(odb, ids[1..], spent, served); }
      if served == 0 && !taken && exists i :: 0 <= i < |ids| && ids[i] in odb {
        var i :| 0 <= i < |ids| && ids[i] in odb;
        assert ids[1..][i - 1] == ids[i];
        var j :| 0 <= j < |rest| && rest[j].found.Some?;
        assert reply[j + 1] == rest[j];
      }
    }
  }

  // One id answered, and the reply goes on.
  lemma ServesNext(odb: Odb, ids: seq<Id>, spent: nat, served: nat)
    requires ids != []
    ensures var takes := ids[0] in odb && (served == 0
        || spent + WireSize(SyncObject(ids[0], Some(odb[ids[0]]))) <= MAX_SYNC_REPLY_BYTES);
      var first := SyncObject(ids[0], if takes then Some(odb[ids[0]]) else None);
      Serve(odb, ids, spent, served)
      == [first] + Serve(odb, ids[1..], spent + WireSize(first), if takes then served + 1 else served)
  {
    hide Cost, WireSize;
    if ids[0] in odb { CostIs(ids[0], odb[ids[0]]); }
    NothingTakesNothing(ids[0]);
  }

  lemma NothingTakesNothing(id: Id)
    ensures WireSize(SyncObject(id, None)) == 0
  {
  }

  // A reply stays within the budget, unless its one object alone is over it.
  lemma {:induction false} ServeStaysInBudget(odb: Odb, ids: seq<Id>, spent: nat, served: nat)
    requires served > 0 ==> spent <= MAX_SYNC_REPLY_BYTES
    requires served == 0 ==> spent == 0
    ensures var reply := Serve(odb, ids, spent, served);
      || spent + ReplySize(reply) <= 1_572_864
      || (served == 0 && exists i :: 0 <= i < |reply| && reply[i].found.Some? && ReplySize(reply) == WireSize(reply[i]))
  {
    hide Serve, WireSize;
    if ids != [] {
      var reply := Serve(odb, ids, spent, served);
      ServesNext(odb, ids, spent, served);
      NothingTakesNothing(ids[0]);
      var rest, count := reply[1..], if reply[0].found.Some? then served + 1 else served;
      assert rest == Serve(odb, ids[1..], spent + WireSize(reply[0]), count);
      if !reply[0].found.Some? || spent + WireSize(reply[0]) <= MAX_SYNC_REPLY_BYTES {
        ServeStaysInBudget(odb, ids[1..], spent + WireSize(reply[0]), count);
        assert forall i :: 0 <= i < |rest| ==> reply[i + 1] == rest[i];
      } else {
        NothingMoreFits(odb, ids[1..], spent + WireSize(reply[0]), served + 1);
      }
    } else {
      NoneServed(odb, spent, served);
    }
  }

  lemma NoneServed(odb: Odb, spent: nat, served: nat)
    ensures Serve(odb, [], spent, served) == []
  {
  }

  lemma {:induction false} NothingMoreFits(odb: Odb, ids: seq<Id>, spent: nat, served: nat)
    requires served > 0 && spent > MAX_SYNC_REPLY_BYTES
    ensures ReplySize(Serve(odb, ids, spent, served)) == 0
  {
    hide Serve, WireSize;
    if ids != [] {
      ServesNext(odb, ids, spent, served);
      NothingTakesNothing(ids[0]);
      assert Serve(odb, ids, spent, served)[1..] == Serve(odb, ids[1..], spent, served);
      NothingMoreFits(odb, ids[1..], spent, served);
    } else {
      NoneServed(odb, spent, served);
    }
  }

  // An object that is held and asked for is left out only where the budget has no room for it behind the
  // ones before, and something was served.
  lemma {:induction false} ServeIsGenerous(odb: Odb, ids: seq<Id>, spent: nat, served: nat, i: nat)
    requires i < |ids| && ids[i] in odb && |Serve(odb, ids, spent, served)| == |ids|
    ensures var reply := Serve(odb, ids, spent, served);
      reply[i].found.None? ==>
        && (served > 0 || AnyFound(reply[..i]))
        && spent + ReplySize(reply[..i]) + WireSize(SyncObject(ids[i], Some(odb[ids[i]]))) > 1_572_864
    decreases |ids|
  {
    hide Serve, WireSize;
    var reply := Serve(odb, ids, spent, served);
    ServesNext(odb, ids, spent, served);
    NothingTakesNothing(ids[0]);
    var next, count := spent + WireSize(reply[0]), if reply[0].found.Some? then served + 1 else served;
    assert reply[1..] == Serve(odb, ids[1..], next, count);
    if i == 0 {
      assert reply[..0] == [];
    } else if reply[i].found.None? {
      ServeIsGenerous(odb, ids[1..], next, count, i - 1);
      assert reply[1..][i - 1] == reply[i] && reply[1..][..i - 1] == reply[..i][1..];
      if reply[0].found.Some? {
        assert reply[..i][0].found.Some?;
      } else if AnyFound(reply[1..][..i - 1]) {
        var j :| 0 <= j < i - 1 && reply[1..][..i - 1][j].found.Some?;
        assert reply[..i][j + 1].found.Some?;
      }
    }
  }

  // ---- taking in -----------------------------------------------------------------------------------

  // A file object whose size fits its chunk count.
  predicate Shaped(blob: Blob) {
    blob.kind == FileKind ==>
      match DecodeFile(blob.body)
      case None => false
      case Some(f) => f.size < Chunks.U64_END && Chunks.VerifyFileShape(f.size, |f.chunks|)
  }

  // `ingest_object`: None where the object is refused.
  function Ingest(hash: Blob -> Id, odb: Odb, id: Id, blob: Blob): Option<Odb> {
    if hash(blob) != id || !Shaped(blob) then None else Some(odb[id := blob])
  }

  // Exactly the objects that hash to the id asked for and, if files, are shaped are taken in. Whatever a
  // peer sends, the store stays hashed and no object in it changes.
  lemma IngestIsSafe(hash: Blob -> Id, odb: Odb, id: Id, blob: Blob)
    requires Hashed(hash, odb) && Injective(hash)
    ensures Ingest(hash, odb, id, blob).Some? <==> hash(blob) == id && Shaped(blob)
    ensures var r := Ingest(hash, odb, id, blob); r.Some? ==>
      && Hashed(hash, r.value) && Shaped(blob) && r.value == odb[id := blob]
      && (id in odb ==> r.value == odb)
  {
  }

  function TakeOne(hash: Blob -> Id, odb: Odb, o: SyncObject): Odb {
    if o.found.None? then odb
    else match Ingest(hash, odb, o.id, o.found.value)
      case None => odb
      case Some(after) => after
  }

  function TakeIn(hash: Blob -> Id, odb: Odb, reply: seq<SyncObject>): Odb
    decreases |reply|
  {
    if reply == [] then odb else TakeIn(hash, TakeOne(hash, odb, reply[0]), reply[1..])
  }

  // ---- a round against a peer that has everything -------------------------------------------------

  // What a peer worth asking holds: everything the refs reach, whole and shaped.
  ghost predicate Complete(hash: Blob -> Id, peer: Odb, roots: Roots) {
    && Hashed(hash, peer) && (forall id :: id in peer ==> Shaped(peer[id]))
    && AllSound(View(peer), roots) && Unconfused(Reached(View(peer), roots)) && Shallow(View(peer), roots)
  }

  // Two hashed stores agree on every id they share.
  lemma Agree(hash: Blob -> Id, odb: Odb, peer: Odb)
    requires Hashed(hash, odb) && Hashed(hash, peer) && Injective(hash)
    ensures forall id :: id in odb && id in peer ==> odb[id] == peer[id]
  {
    forall id | id in odb && id in peer
      ensures odb[id] == peer[id]
    {
      assert hash(odb[id]) == id == hash(peer[id]);
    }
  }

  // What this node can reach is part of what the peer reaches, and none of it is corrupt.
  lemma ReachedIsPart(odb: Odb, peer: Odb, roots: Roots)
    requires forall id :: id in odb && id in peer ==> odb[id] == peer[id]
    requires AllSound(View(peer), roots)
    ensures Reached(View(odb), roots) <= Reached(View(peer), roots)
    ensures NoneCorrupt(View(odb), roots)
  {
    hide Reached, Edges, ObjectOf;
    ReachedIsLeast(View(peer), roots);
    ReachedIsLeast(View(odb), roots);
    var all := Reached(View(peer), roots);
    forall n, c | n in all && c in Children(View(odb), n)
      ensures c in all
    {
      assert Sound(View(peer), n);
      SameEdges(odb, peer, n);
      assert c in Children(View(peer), n);
    }
    assert Closed(View(odb), all);
    forall n | n in Reached(View(odb), roots)
      ensures !Corrupt(View(odb), n)
    {
      assert Sound(View(peer), n);
      if n.id in odb { SameEdges(odb, peer, n); }
    }
  }

  lemma SameEdges(odb: Odb, peer: Odb, n: Node)
    requires n.id in odb && n.id in peer && odb[n.id] == peer[n.id]
    ensures Edges(View(odb), n) == Edges(View(peer), n)
        && CatalogChildren(View(odb), n) == CatalogChildren(View(peer), n)
    ensures Children(View(odb), n) == Children(View(peer), n)
  {
    hide ObjectOf;
  }

  lemma ShallowPart(odb: Odb, peer: Odb, roots: Roots)
    requires forall id :: id in odb && id in peer ==> odb[id] == peer[id]
    requires AllSound(View(peer), roots) && Shallow(View(peer), roots)
    ensures Shallow(View(odb), roots)
  {
    hide Reached, Edges, ObjectOf, CatalogChildren, Children;
    if roots.retention.Some? {
      var root := roots.retention.value;
      forall chain | Chain(View(odb), root, chain)
        ensures |chain| <= CATALOG_DEPTH + 1
      {
        ChainReached(odb, peer, roots, chain, |chain| - 1);
        assert Chain(View(peer), root, chain);
      }
    }
  }

  // Every link of a chain in this store is reached in the peer's, where it leads on just the same.
  lemma {:induction false} ChainReached(odb: Odb, peer: Odb, roots: Roots, chain: seq<Node>, k: nat)
    requires forall id :: id in odb && id in peer ==> odb[id] == peer[id]
    requires AllSound(View(peer), roots) && roots.retention.Some?
    requires Chain(View(odb), roots.retention.value, chain) && k < |chain|
    ensures chain[k] in Reached(View(peer), roots)
    ensures forall i :: 0 <= i < k ==> Sound(View(peer), chain[i]) && chain[i + 1] in CatalogChildren(View(peer),
        chain[i])
  {
    hide Reached, ObjectOf;
    ReachedIsLeast(View(peer), roots);
    if k == 0 {
      assert Catalog(roots)[0] in Ordinary(roots) + Catalog(roots);
    } else {
      ChainReached(odb, peer, roots, chain, k - 1);
      var n := chain[k - 1];
      assert Sound(View(odb), n) && Sound(View(peer), n);
      SameEdges(odb, peer, n);
      CatalogChildIsChild(View(peer), n, chain[k]);
    }
  }

  lemma CatalogChildIsChild(store: Store, n: Node, c: Node)
    requires Sound(store, n) && n.role == AsCatalogDir && c in CatalogChildren(store, n)
    ensures c in Children(store, n)
  {
  }

  // What is still missing is known exactly, and all of it is the peer's to give.
  lemma MissingIsThePeers(hash: Blob -> Id, odb: Odb, peer: Odb, roots: Roots)
    requires Hashed(hash, odb) && Injective(hash) && Complete(hash, peer, roots)
    ensures CollectMissing(View(odb), roots) == Some(Absentees(View(odb), roots))
    ensures Absentees(View(odb), roots) <= Ids(Reached(View(peer), roots)) <= peer.Keys
  {
    hide Reached, Mark, CollectMissing, Edges, Shallow, ObjectOf, Shaped;
    Agree(hash, odb, peer);
    ReachedIsPart(odb, peer, roots);
    ShallowPart(odb, peer, roots);
    MissingIsExact(View(odb), roots);
  }

  // The objects the refs need that this store lacks.
  ghost function Gap(odb: Odb, peer: Odb, roots: Roots): set<Id> {
    Ids(Reached(View(peer), roots)) - odb.Keys
  }

  // Nothing is missing exactly once everything the refs reach is here.
  lemma NoGapIffNothingMissing(hash: Blob -> Id, odb: Odb, peer: Odb, roots: Roots)
    requires Hashed(hash, odb) && Injective(hash) && Complete(hash, peer, roots)
    ensures Gap(odb, peer, roots) == {} <==> CollectMissing(View(odb), roots) == Some({})
    ensures Gap(odb, peer, roots) == {} <==> Mark(View(odb), roots).Some?
  {
    hide Reached, Mark, CollectMissing, Edges, Shallow, ObjectOf, Shaped, Children;
    MissingIsThePeers(hash, odb, peer, roots);
    Agree(hash, odb, peer);
    ReachedIsPart(odb, peer, roots);
    Sweeping.NothingMissingIffMarked(View(odb), roots);
    if Absentees(View(odb), roots) == {} {
      ReachedIsLeast(View(odb), roots);
      ReachedIsLeast(View(peer), roots);
      var all := Reached(View(odb), roots);
      forall n, c | n in all && c in Children(View(peer), n)
        ensures c in all
      {
        assert n.id !in View(odb) ==> n.id in Absentees(View(odb), roots);
        assert Sound(View(peer), n);
        SameEdges(odb, peer, n);
      }
      assert Closed(View(peer), all);
      assert Reached(View(peer), roots) <= all;
      forall id | id in Ids(Reached(View(peer), roots))
        ensures id in odb
      {
        assert id !in View(odb) ==> id in Absentees(View(odb), roots);
      }
    } else {
      var id :| id in Absentees(View(odb), roots);
      assert id in Gap(odb, peer, roots);
    }
  }

  // The ids to ask for next: the first so many of what is missing.
  function Wanted(missing: set<Id>, limit: nat): (ids: seq<Id>)
    ensures |ids| == if |missing| < limit then |missing| else limit
  {
    BelowIsTotal();
    var sorted := Sorted(Below, missing);
    if |sorted| < limit then sorted else sorted[..limit]
  }

  // A request asks for as many missing ids as it may, each once and in order.
  lemma WantedAreMissing(missing: set<Id>, limit: nat)
    ensures forall i :: 0 <= i < |Wanted(missing, limit)| ==> Wanted(missing, limit)[i] in missing
    ensures |Wanted(missing, limit)| == if |missing| < limit then |missing| else limit
    ensures Ascending(Below, Wanted(missing, limit))
  {
    BelowIsTotal();
    SortedMeans(Below, missing);
    var sorted := Sorted(Below, missing);
    assert forall i :: 0 <= i < |sorted| ==> sorted[i] in Elements(sorted);
  }

  // Taking in a reply an honest peer gave adds exactly what it found.
  lemma {:induction false} TakesInWhatIsFound(hash: Blob -> Id, odb: Odb, peer: Odb, reply: seq<SyncObject>)
    requires Hashed(hash, odb) && Hashed(hash, peer) && forall id :: id in peer ==> Shaped(peer[id])
    requires forall i :: 0 <= i < |reply| && reply[i].found.Some? ==>
               reply[i].id in peer && reply[i].found.value == peer[reply[i].id]
    ensures var after := TakeIn(hash, odb, reply);
      && Hashed(hash, after) && odb.Keys <= after.Keys
      && forall i :: 0 <= i < |reply| && reply[i].found.Some? ==> reply[i].id in after
    decreases |reply|
  {
    hide Shaped, Ingest;
    if reply != [] {
      var first := reply[0];
      var next := TakeOne(hash, odb, first);
      TakesOne(hash, odb, peer, first);
      TakesInWhatIsFound(hash, next, peer, reply[1..]);
      assert forall i :: 0 < i < |reply| ==> reply[1..][i - 1] == reply[i];
    }
  }

  lemma TakesOne(hash: Blob -> Id, odb: Odb, peer: Odb, o: SyncObject)
    requires Hashed(hash, odb) && Hashed(hash, peer) && forall id :: id in peer ==> Shaped(peer[id])
    requires o.found.Some? ==> o.id in peer && o.found.value == peer[o.id]
    ensures var after := TakeOne(hash, odb, o);
      Hashed(hash, after) && odb.Keys <= after.Keys && (o.found.Some? ==> o.id in after)
  {
    hide Shaped;
  }

  function Round(hash: Blob -> Id, odb: Odb, peer: Odb, missing: set<Id>, limit: nat): Odb {
    TakeIn(hash, odb, Serve(peer, Wanted(missing, limit), 0, 0))
  }

  // Each round that asks for anything lands something: the gap strictly shrinks, and what was here
  // stays.
  lemma RoundLands(hash: Blob -> Id, odb: Odb, peer: Odb, roots: Roots, limit: nat)
    requires Hashed(hash, odb) && Injective(hash) && Complete(hash, peer, roots) && limit > 0
    requires CollectMissing(View(odb), roots) != Some({})
    ensures var missing := CollectMissing(View(odb), roots);
      && missing.Some?
      && var after := Round(hash, odb, peer, missing.value, limit);
        && Hashed(hash, after) && odb.Keys <= after.Keys
        && Gap(after, peer, roots) < Gap(odb, peer, roots)
  {
    hide Reached, Mark, CollectMissing, Edges, Shallow, ObjectOf, Shaped, TakeIn, Serve, Wanted, View;
    MissingIsThePeers(hash, odb, peer, roots);
    var missing := CollectMissing(View(odb), roots).value;
    var ids := Wanted(missing, limit);
    WantedAreMissing(missing, limit);
    assert |ids| > 0 && ids[0] in peer by {
      assert missing != {} ==> |missing| > 0;
    }
    ServeIsHonest(peer, ids, 0, 0);
    var reply := Serve(peer, ids, 0, 0);
    TakesInWhatIsFound(hash, odb, peer, reply);
    var i :| 0 <= i < |reply| && reply[i].found.Some?;
    assert ids[i] in missing;
    assert reply[i].id == ids[i] && ids[i] in Gap(odb, peer, roots) by {
      assert ids[i] in Absentees(View(odb), roots);
      AbsentIsAbsent(odb, roots, ids[i]);
    }
    var after := TakeIn(hash, odb, reply);
    assert ids[i] in after;
  }

  lemma AbsentIsAbsent(odb: Odb, roots: Roots, id: Id)
    requires id in Absentees(View(odb), roots)
    ensures id !in odb
  {
    hide Reached;
  }

  // ---- the driver ----------------------------------------------------------------------------------

  class Healer {
    const hash: Blob -> Id
    const roots: Roots
    var odb: Odb

    constructor (hash: Blob -> Id, odb: Odb, roots: Roots)
      ensures this.hash == hash && this.odb == odb && this.roots == roots
    {
      this.hash, this.odb, this.roots := hash, odb, roots;
    }

    method IngestObject(id: Id, blob: Blob) returns (ok: bool)
      modifies this
      ensures var r := Ingest(hash, old(odb), id, blob); ok == r.Some? && odb == if ok then r.value else old(odb)
    {
      if hash(blob) != id {
        return false;
      }
      if blob.kind == FileKind {
        var file := DecodeFile(blob.body);
        if file.None? || file.value.size >= Chunks.U64_END
            || !Chunks.VerifyFileShape(file.value.size, |file.value.chunks|) {
          return false;
        }
      }
      odb := odb[id := blob];
      ok := true;
    }

    method TakeInAll(reply: seq<SyncObject>)
      modifies this
      ensures odb == TakeIn(hash, old(odb), reply)
    {
      hide Shaped, Ingest;
      var index := 0;
      while index < |reply|
        invariant index <= |reply|
        invariant TakeIn(hash, odb, reply[index..]) == TakeIn(hash, old(odb), reply)
      {
        assert reply[index..][0] == reply[index] && reply[index..][1..] == reply[index + 1..];
        if reply[index].found.Some? {
          var _ := IngestObject(reply[index].id, reply[index].found.value);
        }
        index := index + 1;
      }
    }

    // Rounds against a complete peer come to an end, and then `mark` succeeds here.
    method Heal(peer: Odb, limit: nat) returns (rounds: nat)
      requires Hashed(hash, odb) && Injective(hash) && Complete(hash, peer, roots) && 0 < limit <= MAX_SYNC_IDS
      modifies this
      ensures Hashed(hash, odb) && old(odb).Keys <= odb.Keys
      ensures CollectMissing(View(odb), roots) == Some({}) && Mark(View(odb), roots).Some?
      ensures rounds <= |Gap(old(odb), peer, roots)|
    {
      hide *;
      var missing := CollectMissing(View(odb), roots);
      rounds := 0;
      while missing != Some({})
        invariant Hashed(hash, odb) && old(odb).Keys <= odb.Keys
        invariant missing == CollectMissing(View(odb), roots)
        invariant rounds + |Gap(odb, peer, roots)| <= |Gap(old(odb), peer, roots)|
        decreases |Gap(odb, peer, roots)|
      {
        RoundLands(hash, odb, peer, roots, limit);
        Fewer(Gap(Round(hash, odb, peer, missing.value, limit), peer, roots), Gap(odb, peer, roots));
        var reply := Serve(peer, Wanted(missing.value, limit), 0, 0);
        RoundIs(hash, odb, peer, missing.value, limit);
        TakeInAll(reply);
        missing := CollectMissing(View(odb), roots);
        rounds := rounds + 1;
      }
      NoGapIffNothingMissing(hash, odb, peer, roots);
    }
  }

  lemma RoundIs(hash: Blob -> Id, odb: Odb, peer: Odb, missing: set<Id>, limit: nat)
    ensures Round(hash, odb, peer, missing, limit) == TakeIn(hash, odb, Serve(peer, Wanted(missing, limit), 0, 0))
  {
  }

  lemma Fewer<T>(part: set<T>, whole: set<T>)
    requires part < whole
    ensures |part| < |whole|
  {
    assert whole == part + (whole - part);
  }

  // The server's side: too many ids or one that is not hex refuses the whole request.
  method ServeSync(odb: Odb, hexes: seq<Text>) returns (r: Option<seq<SyncObject>>)
    ensures r.Some? <==> |hexes| <= MAX_SYNC_IDS && forall i :: 0 <= i < |hexes| ==> FromHex32(hexes[i]).Some?
    ensures r.Some? ==> r.value == Serve(odb, Parsed(hexes), 0, 0)
  {
    if |hexes| > MAX_SYNC_IDS {
      return None;
    }
    hide FromHex32, Cost, Serve;
    var out, index := [], 0;
    var spent: nat, served: nat := 0, 0;
    while index < |hexes|
      invariant index <= |hexes|
      invariant forall i :: 0 <= i < index ==> FromHex32(hexes[i]).Some?
      invariant AllHex(hexes) ==>
          out + Serve(odb, Parsed(hexes[index..]), spent, served) == Serve(odb, Parsed(hexes), 0, 0)
    {
      var id := FromHex32(hexes[index]);
      if id.None? {
        return None;
      }
      OneReply(odb, hexes, index, spent, served, out);
      var found := None;
      if id.value in odb {
        var cost := Cost(odb[id.value]);
        if served == 0 || spent + cost <= MAX_SYNC_REPLY_BYTES {
          found := Some(odb[id.value]);
          spent := spent + cost;
          served := served + 1;
        }
      }
      out := out + [SyncObject(id.value, found)];
      index := index + 1;
    }
    assert hexes[index..] == [];
    NoneServed(odb, spent, served);
    assert Parsed([]) == [] && out + [] == out;
    r := Some(out);
  }

  predicate AllHex(hexes: seq<Text>) {
    forall i :: 0 <= i < |hexes| ==> FromHex32(hexes[i]).Some?
  }

  function Parsed(hexes: seq<Text>): seq<Id> {
    if hexes == [] then []
    else (match FromHex32(hexes[0]) case Some(id) => [id] case None => []) + Parsed(hexes[1..])
  }

  lemma ParsedNext(hexes: seq<Text>, index: nat)
    requires index < |hexes| && FromHex32(hexes[index]).Some?
    ensures Parsed(hexes[index..]) == [FromHex32(hexes[index]).value] + Parsed(hexes[index + 1..])
  {
    hide FromHex32;
    assert hexes[index..][1..] == hexes[index + 1..];
  }

  // One id answered: the rest of the reply follows.
  lemma OneReply(odb: Odb, hexes: seq<Text>, index: nat, spent: nat, served: nat, out: seq<SyncObject>)
    requires index < |hexes| && FromHex32(hexes[index]).Some?
    ensures var id := FromHex32(hexes[index]).value;
      var skip := id !in odb || (served > 0 && spent + Cost(odb[id]) > MAX_SYNC_REPLY_BYTES);
      var more := if skip then Serve(odb, Parsed(hexes[index + 1..]), spent, served)
        else Serve(odb, Parsed(hexes[index + 1..]), spent + Cost(odb[id]), served + 1);
      out + Serve(odb, Parsed(hexes[index..]), spent, served)
        == (out + [SyncObject(id, if skip then None else Some(odb[id]))]) + more
  {
    hide FromHex32, Cost, Parsed;
    ParsedNext(hexes, index);
    var id, ids := FromHex32(hexes[index]).value, Parsed(hexes[index..]);
    assert ids[0] == id && ids[1..] == Parsed(hexes[index + 1..]);
  }
}
