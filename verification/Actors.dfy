// Authenticated principals (crates/duckfs/core/src/actor.rs).
module Actors {
  import opened Wrappers
  import opened Texts
  import opened Grammars

  datatype Actor = Account(number: nat) | Key(key: Text) | Module(name: Text) | System

  datatype Authority =
    | External(key: Text, account: Option<nat>)
    | Program(number: nat)
    | OfModule(name: Text)
    | OfSystem
  {
    function Actor(): Actor {
      match this
      case External(key, None) => Key(key)
      case External(_, Some(number)) => Account(number)
      case Program(number) => Account(number)
      case OfModule(name) => Module(name)
      case OfSystem => System
    }

    // An authority may be an actor exactly if that actor is one the images accept.
    predicate Valid() {
      Proper(Actor())
    }

    predicate Controls(owner: Actor) {
      match owner
      case Key(key) => External? && this.key == key
      case _ => owner == Actor()
    }
  }

  // Whatever an authority owns as an actor it also controls.
  lemma OwnerControls(authority: Authority)
    ensures authority.Controls(authority.Actor())
  {
  }

  // No account zero, no empty key, no empty module.
  predicate Proper(actor: Actor) {
    match actor
    case Account(number) => number != 0
    case Key(key) => key != []
    case Module(name) => name != []
    case System => true
  }

  // What the source's types guarantee of an actor: a u64, and a UTF-8 string that a machine can hold.
  predicate Typed(actor: Actor) {
    match actor
    case Account(number) => number < Range(8)
    case Key(key) => |key| < Range(8)
    case Module(name) => |name| < Range(8) && Utf8(name)
    case System => true
  }

  function EncodedLen(actor: Actor): nat {
    match actor
    case Account(_) => 9
    case Key(key) => 9 + |key|
    case Module(name) => 9 + |name|
    case System => 1
  }

  function Write(actor: Actor): Text {
    match actor
    case Account(number) => [0] + ToBytes(8, number)
    case Key(key) => [1] + Prefixed(key)
    case Module(name) => [2] + Prefixed(name)
    case System => [3]
  }

  function Read(bytes: Text): Option<(Actor, Text)> {
    if bytes == [] then None
    else
      var rest := bytes[1..];
      match bytes[0]
      case 0 => Checked(Uint(8).read(rest), n => Account(n))
      case 1 => Checked(Bytes().read(rest), key => Key(key))
      case 2 => Checked(Str().read(rest), name => Module(name))
      case 3 => Some((System, rest))
      case _ => None
  }

  function Checked<T>(got: Option<(T, Text)>, make: T -> Actor): Option<(Actor, Text)> {
    match got
    case None => None
    case Some((v, rest)) => if Proper(make(v)) then Some((make(v), rest)) else None
  }

  function Frame(): Grammar<Actor> {
    Grammar(a => Write(a), bytes => Read(bytes), a => Proper(a) && Typed(a))
  }

  // A tag byte in front of a shape.
  lemma TaggedReadsBack<T(!new)>(tag: Byte, g: Grammar<T>, v: T, rest: Text)
    requires Lawful(g) && g.fit(v)
    ensures var bytes := ([tag] + g.write(v)) + rest;
      bytes != [] && bytes[0] == tag && g.read(bytes[1..]) == Some((v, rest))
  {
    Regroup([tag], g.write(v), rest);
    assert ([tag] + (g.write(v) + rest))[1..] == g.write(v) + rest;
    ReadsBack(g, v, rest);
  }

  lemma TaggedWasWritten<T(!new)>(tag: Byte, g: Grammar<T>, bytes: Text)
    requires Lawful(g) && bytes != [] && bytes[0] == tag && g.read(bytes[1..]).Some?
    ensures var (v, rest) := g.read(bytes[1..]).value; g.fit(v) && bytes == ([tag] + g.write(v)) + rest
  {
    WasWritten(g, bytes[1..]);
    var (v, rest) := g.read(bytes[1..]).value;
    assert bytes == [bytes[0]] + bytes[1..];
    Regroup([tag], g.write(v), rest);
  }

  lemma ReadsBackActor(actor: Actor, rest: Text)
    requires Proper(actor) && Typed(actor)
    ensures Read(Write(actor) + rest) == Some((actor, rest))
  {
    hide Lawful, ToBytes, FromBytes, Range, Take;
    UintLawful(8);
    BytesLawful();
    StrLawful();
    match actor
    case Account(number) => TaggedReadsBack(0, Uint(8), number, rest);
    case Key(key) => TaggedReadsBack(1, Bytes(), key, rest);
    case Module(name) => TaggedReadsBack(2, Str(), name, rest);
    case System =>
  }

  lemma ActorWasWritten(bytes: Text)
    requires Read(bytes).Some?
    ensures Written(Frame(), bytes, Read(bytes).value)
  {
    hide Lawful, ToBytes, FromBytes, Range, Take, Utf8;
    UintLawful(8);
    BytesLawful();
    StrLawful();
    match bytes[0]
    case 0 => TaggedWasWritten(0, Uint(8), bytes);
    case 1 => TaggedWasWritten(1, Bytes(), bytes);
    case 2 => TaggedWasWritten(2, Str(), bytes);
    case _ => assert bytes == [bytes[0]] + bytes[1..];
  }

  lemma FrameLawful()
    ensures Lawful(Frame())
  {
    hide Read, Write;
    forall actor, rest | Frame().fit(actor)
      ensures Frame().read(Frame().write(actor) + rest) == Some((actor, rest))
    {
      ReadsBackActor(actor, rest);
    }
    forall bytes | Frame().read(bytes).Some?
      ensures Written(Frame(), bytes, Frame().read(bytes).value)
    {
      ActorWasWritten(bytes);
    }
  }

  lemma FrameFits(actor: Actor)
    ensures Frame().fit(actor) <==> Proper(actor) && Typed(actor)
  {
  }

  // `encoded_len` is the length of what `encode_into` pushes.
  lemma EncodedLenIsExact(actor: Actor)
    ensures |Write(actor)| == EncodedLen(actor)
  {
  }
}
