// The decoders and the encoder as they run: a cursor over one frame (crates/duckfs/core/src/codec.rs),
// the object decoders (crates/duckfs/core/src/objects.rs:91-288) and the refs codec
// (crates/duckfs/core/src/state.rs:89-289), each equal to the layout it reads or writes.
module Readers {
  import opened Wrappers
  import opened Texts
  import opened Kinds
  import opened Sorting
  import opened Grammars
  import opened Objects
  import opened Actors

  // ---- counted entries, one at a time --------------------------------------------------------------

  // Each value accepted by the one before it.
  predicate Climbs<T>(ok: (T, T) -> bool, list: seq<T>) {
    forall i :: 0 < i < |list| ==> ok(list[i - 1], list[i])
  }

  function Joined<T>(got: seq<T>, more: Option<(seq<T>, Text)>): Option<(seq<T>, Text)> {
    match more
    case None => None
    case Some((list, rest)) => Some((got + list, rest))
  }

  // So many of `count` values have been read and they climb; the rest is still to come.
  ghost predicate Reading<T>(g: Grammar<T>, ok: (T, T) -> bool, count: nat, start: Text, got: seq<T>, rest: Text) {
    |got| <= count && Climbs(ok, got) && ReadAll(g, count, start) == Joined(got, ReadAll(g, count - |got|, rest))
  }

  lemma ReadingStarts<T>(g: Grammar<T>, ok: (T, T) -> bool, count: nat, start: Text)
    ensures Reading(g, ok, count, start, [], start)
  {
    hide ReadAll;
    var all := ReadAll(g, count, start);
    if all.Some? { assert [] + all.value.0 == all.value.0; }
  }

  // One value more: it climbs and reading goes on, or whatever comes after, the list does not climb.
  lemma ReadingGoesOn<T>(g: Grammar<T>, ok: (T, T) -> bool, count: nat, start: Text, got: seq<T>, rest: Text)
    requires Reading(g, ok, count, start, got, rest) && |got| < count
    ensures g.read(rest).None? ==> ReadAll(g, count, start).None?
    ensures g.read(rest).Some? ==>
      var (v, after) := g.read(rest).value;
      if got == [] || ok(got[|got| - 1], v) then Reading(g, ok, count, start, got + [v], after)
      else ReadAll(g, count, start).Some? ==> !Climbs(ok, ReadAll(g, count, start).value.0)
  {
    hide ReadAll, Climbs;
    ReadAllNext(g, count - |got|, rest);
    if g.read(rest).Some? {
      var (v, after) := g.read(rest).value;
      var left := ReadAll(g, count - |got| - 1, after);
      if left.Some? {
        assert got + ([v] + left.value.0) == (got + [v]) + left.value.0;
        if got != [] && !ok(got[|got| - 1], v) { ClimbsNoMore(ok, got, v, left.value.0); }
      }
      if got == [] || ok(got[|got| - 1], v) { ClimbsOn(ok, got, v); }
    }
  }

  lemma ReadAllNext<T>(g: Grammar<T>, count: nat, bytes: Text)
    requires count > 0
    ensures ReadAll(g, count, bytes) ==
      match g.read(bytes)
      case None => None
      case Some((v, after)) => Joined([v], ReadAll(g, count - 1, after))
  {
  }

  lemma ClimbsOn<T>(ok: (T, T) -> bool, got: seq<T>, v: T)
    requires Climbs(ok, got) && (got == [] || ok(got[|got| - 1], v))
    ensures Climbs(ok, got + [v])
  {
  }

  lemma ClimbsNoMore<T>(ok: (T, T) -> bool, got: seq<T>, v: T, more: seq<T>)
    requires got != [] && !ok(got[|got| - 1], v)
    ensures !Climbs(ok, got + ([v] + more))
  {
    var all := got + ([v] + more);
    assert all[|got| - 1] == got[|got| - 1] && all[|got|] == v;
  }

  lemma ReadingEnds<T>(g: Grammar<T>, ok: (T, T) -> bool, count: nat, start: Text, got: seq<T>, rest: Text)
    requires Reading(g, ok, count, start, got, rest) && |got| == count
    ensures ReadAll(g, count, start) == Some((got, rest))
  {
    assert got + [] == got;
  }

  function Anything<T>(): (T, T) -> bool {
    (a, b) => true
  }

  function ByKey<K, V>(less: (K, K) -> bool): ((K, V), (K, V)) -> bool {
    (a: (K, V), b: (K, V)) => less(a.0, b.0)
  }

  lemma Inserted<K, V>(got: seq<(K, V)>, k: K, v: V)
    ensures Collect(got + [(k, v)]) == Collect(got)[k := v]
  {
    assert (got + [(k, v)])[..|got|] == got;
  }

  // ---- the cursor ----------------------------------------------------------------------------------

  class Reader {
    const bytes: Text
    var off: nat

    constructor (bytes: Text)
      ensures Valid() && this.bytes == bytes && Rest() == bytes
    {
      this.bytes := bytes;
      off := 0;
    }

    predicate Valid()
      reads this
    {
      off <= |bytes|
    }

    function Rest(): Text
      requires Valid()
      reads this
    {
      bytes[off..]
    }

    // What a read promises: the value the layout has here, and the cursor right after it.
    ghost predicate Reads<T>(g: Grammar<T>, before: Text, r: Option<T>)
      requires Valid()
      reads this
    {
      match g.read(before)
      case None => r == None
      case Some((v, rest)) => r == Some(v) && Rest() == rest
    }

    method Array(width: nat) returns (r: Option<Text>)
      requires Valid()
      modifies this
      ensures Valid() && Reads(Raw(width), old(Rest()), r)
    {
      var end := off + width;
      if end > |bytes| {
        return None;
      }
      r := Some(bytes[off..end]);
      off := end;
      assert bytes[off - width..][..width] == bytes[off - width..off];
    }

    method Number(width: nat) returns (r: Option<nat>)
      requires Valid()
      modifies this
      ensures Valid() && Reads(Uint(width), old(Rest()), r)
    {
      var raw := Array(width);
      if raw.None? {
        return None;
      }
      r := Some(FromBytes(raw.value));
    }

    method Boolean() returns (r: Option<bool>)
      requires Valid()
      modifies this
      ensures Valid() && Reads(Flag(), old(Rest()), r)
    {
      hide Uint;
      var n := Number(1);
      if n.None? {
        return None;
      }
      r := if n.value == 0 then Some(false) else if n.value == 1 then Some(true) else None;
    }

    method Blob() returns (r: Option<Text>)
      requires Valid()
      modifies this
      ensures Valid() && Reads(Bytes(), old(Rest()), r)
    {
      hide Uint;
      var len := Number(8);
      if len.None? {
        return None;
      }
      r := Array(len.value);
    }

    method String() returns (r: Option<Text>)
      requires Valid()
      modifies this
      ensures Valid() && Reads(Str(), old(Rest()), r)
    {
      hide Bytes, Utf8;
      r := Blob();
      if r.Some? && !Utf8(r.value) {
        return None;
      }
    }

    // An optional id: a flag, and 32 bytes if it is set.
    method OptionalBytes32() returns (r: Option<Option<Id>>)
      requires Valid()
      modifies this
      ensures Valid() && Reads(Maybe(Raw(ID_BYTES)), old(Rest()), r)
    {
      hide Flag, Raw;
      var present := Boolean();
      if present.None? {
        return None;
      }
      if !present.value {
        return Some(None);
      }
      var id := Array(ID_BYTES);
      r := if id.None? then None else Some(id);
    }

    method ReadActor() returns (r: Option<Actor>)
      requires Valid()
      modifies this
      ensures Valid() && Reads(Frame(), old(Rest()), r)
    {
      hide Uint, Bytes, Str, Utf8, Range, FromBytes, ToBytes, Take, Typed, Write;
      TagByte(Rest());
      var tag := Number(1);
      if tag.None? {
        return None;
      }
      match tag.value {
        case 0 =>
          var number := Number(8);
          return if number.None? || number.value == 0 then None else Some(Account(number.value));
        case 1 =>
          var key := Blob();
          return if key.None? || key.value == [] then None else Some(Key(key.value));
        case 2 =>
          var name := String();
          return if name.None? || name.value == [] then None else Some(Module(name.value));
        case 3 =>
          return Some(System);
        case _ =>
          return None;
      }
    }

    // Nothing may be left over.
    method Finish() returns (ok: bool)
      requires Valid()
      ensures ok == (Rest() == [])
    {
      ok := off == |bytes|;
    }

    // ---- lists of ids ------------------------------------------------------------------------------

    method Ids(cap: nat) returns (r: Option<seq<Id>>)
      requires Valid()
      modifies this
      ensures Valid() && Reads(Counted(4, cap, Raw(ID_BYTES)), old(Rest()), r)
    {
      hide Uint, Raw, ReadAll;
      var count := Number(4);
      if count.None? || count.value > cap {
        return None;
      }
      ghost var start := Rest();
      ghost var ok := Anything<Text>();
      var ids := [];
      ReadingStarts(Raw(ID_BYTES), ok, count.value, start);
      while |ids| < count.value
        invariant Valid() && Reading(Raw(ID_BYTES), ok, count.value, start, ids, Rest())
      {
        ReadingGoesOn(Raw(ID_BYTES), ok, count.value, start, ids, Rest());
        var id := Array(ID_BYTES);
        if id.None? {
          return None;
        }
        ids := ids + [id.value];
      }
      ReadingEnds(Raw(ID_BYTES), ok, count.value, start, ids, Rest());
      r := Some(ids);
    }
  }

  lemma TagByte(bytes: Text)
    ensures Uint(1).read(bytes) == if bytes == [] then None else Some((bytes[0] as nat, bytes[1..]))
  {
    if bytes != [] { assert FromBytes(bytes[..1]) == bytes[0] + 256 * FromBytes([]); }
  }
}
