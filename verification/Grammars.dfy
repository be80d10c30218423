// The canonical byte grammar (crates/duckfs/core/src/codec.rs): how each shape is written, how it
// is read back, and which values it can carry. Every frame is put together from these pieces, and
// what holds of the pieces holds of the frame.
module Grammars {
  import opened Wrappers
  import opened Texts

  // `read` takes a value off the front and leaves the rest; `fit` are the values it can deliver.
  datatype Grammar<!T> = Grammar(write: T -> Text, read: Text -> Option<(T, Text)>, fit: T -> bool)

  // Canonical both ways: what is written reads back, whatever follows it, and whatever is read
  // was written exactly so.
  ghost predicate Lawful<T(!new)>(g: Grammar<T>) {
    && (forall v, rest :: g.fit(v) ==> g.read(g.write(v) + rest) == Some((v, rest)))
    && (forall bytes :: g.read(bytes).Some? ==> Written(g, bytes, g.read(bytes).value))
  }

  predicate Written<T>(g: Grammar<T>, bytes: Text, got: (T, Text)) {
    g.fit(got.0) && bytes == g.write(got.0) + got.1
  }

  lemma ReadsBack<T(!new)>(g: Grammar<T>, v: T, rest: Text)
    requires Lawful(g) && g.fit(v)
    ensures g.read(g.write(v) + rest) == Some((v, rest))
  {
  }

  lemma WasWritten<T(!new)>(g: Grammar<T>, bytes: Text)
    requires Lawful(g) && g.read(bytes).Some?
    ensures Written(g, bytes, g.read(bytes).value)
  {
  }

  // A whole frame: nothing may be left over.
  function Whole<T>(g: Grammar<T>, bytes: Text): Option<T> {
    match g.read(bytes)
    case None => None
    case Some((v, rest)) => if rest == [] then Some(v) else None
  }

  // The decoder takes exactly the images the encoder makes.
  lemma WholeIsCanonical<T(!new)>(g: Grammar<T>, bytes: Text, v: T)
    requires Lawful(g)
    ensures Whole(g, bytes) == Some(v) <==> g.fit(v) && bytes == g.write(v)
  {
    assert g.write(v) + [] == g.write(v);
    if g.read(bytes).Some? { assert Written(g, bytes, g.read(bytes).value); }
  }

  // ---- little-endian integers ----------------------------------------------------------------------

  function Range(width: nat): (n: nat)
    ensures n >= 1
  {
    if width == 0 then 1 else 256 * Range(width - 1)
  }

  function ToBytes(width: nat, value: nat): (bytes: Text)
    ensures |bytes| == width
  {
    if width == 0 then [] else [value % 256] + ToBytes(width - 1, value / 256)
  }

  function FromBytes(bytes: Text): nat {
    if bytes == [] then 0 else bytes[0] + 256 * FromBytes(bytes[1..])
  }

  lemma {:induction false} FromToBytes(width: nat, value: nat)
    requires value < Range(width)
    ensures FromBytes(ToBytes(width, value)) == value
  {
    if width > 0 {
      FromToBytes(width - 1, value / 256);
      assert ToBytes(width, value)[1..] == ToBytes(width - 1, value / 256);
    }
  }

  lemma {:induction false} ToFromBytes(bytes: Text)
    ensures FromBytes(bytes) < Range(|bytes|) && ToBytes(|bytes|, FromBytes(bytes)) == bytes
  {
    if bytes != [] {
      ToFromBytes(bytes[1..]);
      assert bytes == [bytes[0]] + bytes[1..];
    }
  }

  function Take(width: nat, bytes: Text): Option<(Text, Text)> {
    if |bytes| < width then None else Some((bytes[..width], bytes[width..]))
  }

  lemma TakeBack(a: Text, rest: Text)
    ensures Take(|a|, a + rest) == Some((a, rest))
  {
  }

  function Uint(width: nat): Grammar<nat> {
    Grammar(v => ToBytes(width, v),
            bytes => match Take(width, bytes)
              case None => None
              case Some((front, rest)) => Some((FromBytes(front), rest)),
            v => v < Range(width))
  }

  lemma UintLawful(width: nat)
    ensures Lawful(Uint(width))
  {
    var g := Uint(width);
    forall v: nat, rest | g.fit(v)
      ensures g.read(g.write(v) + rest) == Some((v, rest))
    {
      TakeBack(g.write(v), rest);
      FromToBytes(width, v);
    }
    forall bytes | g.read(bytes).Some?
      ensures Written(g, bytes, g.read(bytes).value)
    {
      ToFromBytes(bytes[..width]);
    }
  }

  // ---- raw bytes -----------------------------------------------------------------------------------

  // Exactly this many bytes; ids are 32.
  function Raw(width: nat): Grammar<Text> {
    Grammar(v => v, bytes => Take(width, bytes), v => |v| == width)
  }

  lemma RawLawful(width: nat)
    ensures Lawful(Raw(width))
  {
    var g := Raw(width);
    forall v: Text, rest | g.fit(v)
      ensures g.read(g.write(v) + rest) == Some((v, rest))
    {
      TakeBack(v, rest);
    }
  }

  // A u64 length and that many bytes.
  function Prefixed(v: Text): Text {
    ToBytes(8, |v|) + v
  }

  function Bytes(): Grammar<Text> {
    Grammar(v => ToBytes(8, |v|) + v,
            bytes => match Uint(8).read(bytes)
              case None => None
              case Some((n, rest)) => Take(n, rest),
            v => |v| < Range(8))
  }

  lemma BytesReadBack(v: Text, rest: Text)
    requires |v| < Range(8)
    ensures Bytes().read(Bytes().write(v) + rest) == Some((v, rest))
  {
    hide ToBytes, FromBytes, Range, Lawful;
    var len := Uint(8);
    UintLawful(8);
    Regroup(len.write(|v|), v, rest);
    ReadsBack(len, |v|, v + rest);
    TakeBack(v, rest);
  }

  lemma BytesWereWritten(bytes: Text)
    requires Bytes().read(bytes).Some?
    ensures Written(Bytes(), bytes, Bytes().read(bytes).value)
  {
    hide ToBytes, FromBytes, Range, Lawful;
    var len := Uint(8);
    UintLawful(8);
    var (n, rest) := len.read(bytes).value;
    WasWritten(len, bytes);
    Regroup(len.write(n), rest[..n], rest[n..]);
    assert rest == rest[..n] + rest[n..];
  }

  lemma BytesLawful()
    ensures Lawful(Bytes())
  {
    var g := Bytes();
    forall v: Text, rest | g.fit(v)
      ensures g.read(g.write(v) + rest) == Some((v, rest))
    {
      BytesReadBack(v, rest);
    }
    forall bytes | g.read(bytes).Some?
      ensures Written(g, bytes, g.read(bytes).value)
    {
      BytesWereWritten(bytes);
    }
  }

  // ---- putting pieces together ---------------------------------------------------------------------

  // Only the values that pass a check.
  function Where<T>(g: Grammar<T>, check: T -> bool): Grammar<T> {
    Grammar(g.write,
            bytes => match g.read(bytes)
              case None => None
              case Some((v, rest)) => if check(v) then Some((v, rest)) else None,
            v => g.fit(v) && check(v))
  }

  lemma WhereLawful<T(!new)>(g: Grammar<T>, check: T -> bool)
    requires Lawful(g)
    ensures Lawful(Where(g, check))
  {
    forall bytes | Where(g, check).read(bytes).Some?
      ensures Written(Where(g, check), bytes, Where(g, check).read(bytes).value)
    {
      assert Written(g, bytes, g.read(bytes).value);
    }
  }

  // One shape after another.
  function Then<A, B>(a: Grammar<A>, b: Grammar<B>): Grammar<(A, B)> {
    Grammar((v: (A, B)) => a.write(v.0) + b.write(v.1),
            bytes => match a.read(bytes)
              case None => None
              case Some((x, middle)) =>
                match b.read(middle)
                case None => None
                case Some((y, rest)) => Some(((x, y), rest)),
            (v: (A, B)) => a.fit(v.0) && b.fit(v.1))
  }

  lemma ThenLawful<A(!new), B(!new)>(a: Grammar<A>, b: Grammar<B>)
    requires Lawful(a) && Lawful(b)
    ensures Lawful(Then(a, b))
  {
    var g := Then(a, b);
    forall v: (A, B), rest | g.fit(v)
      ensures g.read(g.write(v) + rest) == Some((v, rest))
    {
      assert g.write(v) + rest == a.write(v.0) + (b.write(v.1) + rest);
    }
    forall bytes | g.read(bytes).Some?
      ensures Written(g, bytes, g.read(bytes).value)
    {
      var (x, middle) := a.read(bytes).value;
      var (y, rest) := b.read(middle).value;
      assert Written(a, bytes, (x, middle)) && Written(b, middle, (y, rest));
      assert a.write(x) + (b.write(y) + rest) == (a.write(x) + b.write(y)) + rest;
    }
  }

  lemma ThenFits<A, B>(a: Grammar<A>, b: Grammar<B>, x: A, y: B)
    ensures Then(a, b).fit((x, y)) <==> a.fit(x) && b.fit(y)
  {
  }

  lemma WhereFits<T>(g: Grammar<T>, check: T -> bool, v: T)
    ensures Where(g, check).fit(v) <==> g.fit(v) && check(v)
  {
  }

  // The same bytes, read as another type.
  function As<A, B>(g: Grammar<A>, to: A -> B, from: B -> A, fit: B -> bool): Grammar<B> {
    Grammar(v => g.write(from(v)),
            bytes => match g.read(bytes)
              case None => None
              case Some((v, rest)) => Some((to(v), rest)),
            fit)
  }

  // The two directions undo each other on the values that fit.
  ghost predicate Matching<A(!new), B(!new)>(g: Grammar<A>, to: A -> B, from: B -> A, fit: B -> bool) {
    && (forall a :: g.fit(a) ==> fit(to(a)) && from(to(a)) == a)
    && (forall b :: fit(b) ==> g.fit(from(b)) && to(from(b)) == b)
  }

  lemma AsLawful<A(!new), B(!new)>(g: Grammar<A>, to: A -> B, from: B -> A, fit: B -> bool)
    requires Lawful(g) && Matching(g, to, from, fit)
    ensures Lawful(As(g, to, from, fit))
  {
    forall bytes | As(g, to, from, fit).read(bytes).Some?
      ensures Written(As(g, to, from, fit), bytes, As(g, to, from, fit).read(bytes).value)
    {
      assert Written(g, bytes, g.read(bytes).value);
    }
  }

  // ---- booleans, options, text ---------------------------------------------------------------------

  // One byte, 0 or 1.
  function Flag(): Grammar<bool> {
    As(Where(Uint(1), v => v < 2), v => v == 1, (b: bool) => if b then 1 else 0, (b: bool) => true)
  }

  lemma FlagLawful()
    ensures Lawful(Flag())
  {
    hide ToBytes, FromBytes, Take, Lawful;
    UintLawful(1);
    WhereLawful(Uint(1), (v: nat) => v < 2);
    AsLawful(Where(Uint(1), (v: nat) => v < 2), v => v == 1, (b: bool) => if b then 1 else 0, (b: bool) => true);
  }

  // A flag, and the value only where the flag says so.
  function Maybe<T>(g: Grammar<T>): Grammar<Option<T>> {
    Grammar((v: Option<T>) => if v.Some? then Flag().write(true) + g.write(v.value) else Flag().write(false),
            bytes => match Flag().read(bytes)
              case None => None
              case Some((present, middle)) =>
                if !present then Some((None, middle))
                else match g.read(middle)
                  case None => None
                  case Some((v, rest)) => Some((Some(v), rest)),
            (v: Option<T>) => v.Some? ==> g.fit(v.value))
  }

  lemma MaybeReadsBack<T(!new)>(g: Grammar<T>, v: Option<T>, rest: Text)
    requires Lawful(g) && Maybe(g).fit(v)
    ensures Maybe(g).read(Maybe(g).write(v) + rest) == Some((v, rest))
  {
    FlagLawful();
    assert Flag().fit(true) && Flag().fit(false);
    hide Flag, Lawful;
    if v.Some? {
      Regroup(Flag().write(true), g.write(v.value), rest);
      ReadsBack(Flag(), true, g.write(v.value) + rest);
      ReadsBack(g, v.value, rest);
    } else {
      ReadsBack(Flag(), false, rest);
    }
  }

  lemma MaybeWasWritten<T(!new)>(g: Grammar<T>, bytes: Text)
    requires Lawful(g) && Maybe(g).read(bytes).Some?
    ensures Written(Maybe(g), bytes, Maybe(g).read(bytes).value)
  {
    FlagLawful();
    hide Flag, Lawful;
    var (present, middle) := Flag().read(bytes).value;
    WasWritten(Flag(), bytes);
    if present {
      var (v, rest) := g.read(middle).value;
      WasWritten(g, middle);
      Regroup(Flag().write(true), g.write(v), rest);
    }
  }

  lemma MaybeLawful<T(!new)>(g: Grammar<T>)
    requires Lawful(g)
    ensures Lawful(Maybe(g))
  {
    forall v: Option<T>, rest | Maybe(g).fit(v)
      ensures Maybe(g).read(Maybe(g).write(v) + rest) == Some((v, rest))
    {
      MaybeReadsBack(g, v, rest);
    }
    forall bytes | Maybe(g).read(bytes).Some?
      ensures Written(Maybe(g), bytes, Maybe(g).read(bytes).value)
    {
      MaybeWasWritten(g, bytes);
    }
  }

  // Well-formed UTF-8 (section 4 of RFC 3629), one character at a time.
  predicate Utf8(bytes: Text) {
    bytes == [] || (var n := CharLength(bytes); n > 0 && Utf8(bytes[n..]))
  }

  // How many bytes the character at the front has; 0 where there is none.
  function CharLength(bytes: Text): (n: nat)
    ensures n <= |bytes|
  {
    if bytes == [] then 0
    else
      var b := bytes[0];
      if b <= 0x7F then 1
      else if 0xC2 <= b <= 0xDF then if Tail(bytes, 1, 1) then 2 else 0
      else if 0xE0 <= b <= 0xEF then
        if Tail(bytes, 1, 2) && (b == 0xE0 ==> bytes[1] >= 0xA0) && (b == 0xED ==> bytes[1] <= 0x9F) then 3 else 0
      else if 0xF0 <= b <= 0xF4 then
        if Tail(bytes, 1, 3) && (b == 0xF0 ==> bytes[1] >= 0x90) && (b == 0xF4 ==> bytes[1] <= 0x8F) then 4 else 0
      else 0
  }

  predicate Tail(bytes: Text, from: nat, count: nat) {
    from + count <= |bytes| && forall i :: from <= i < from + count ==> 0x80 <= bytes[i] <= 0xBF
  }

  function Str(): Grammar<Text> {
    Where(Bytes(), v => Utf8(v))
  }

  lemma StrLawful()
    ensures Lawful(Str())
  {
    BytesLawful();
    WhereLawful(Bytes(), v => Utf8(v));
  }

  // ---- lists ---------------------------------------------------------------------------------------

  function WriteAll<T>(g: Grammar<T>, values: seq<T>): Text {
    if values == [] then [] else g.write(values[0]) + WriteAll(g, values[1..])
  }

  function ReadAll<T>(g: Grammar<T>, count: nat, bytes: Text): Option<(seq<T>, Text)> {
    if count == 0 then Some(([], bytes))
    else
      match g.read(bytes)
      case None => None
      case Some((v, middle)) =>
        match ReadAll(g, count - 1, middle)
        case None => None
        case Some((more, rest)) => Some(([v] + more, rest))
  }

  predicate FitAll<T>(g: Grammar<T>, values: seq<T>) {
    forall i :: 0 <= i < |values| ==> g.fit(values[i])
  }

  lemma {:induction false} WrittenAllReads<T(!new)>(g: Grammar<T>, values: seq<T>, rest: Text)
    requires Lawful(g) && FitAll(g, values)
    ensures ReadAll(g, |values|, WriteAll(g, values) + rest) == Some((values, rest))
  {
    if values == [] {
      assert WriteAll(g, values) + rest == rest;
    } else {
      var more := WriteAll(g, values[1..]) + rest;
      assert WriteAll(g, values) + rest == g.write(values[0]) + more;
      WrittenAllReads(g, values[1..], rest);
      assert values == [values[0]] + values[1..];
    }
  }

  lemma {:induction false} ReadAllWasWritten<T(!new)>(g: Grammar<T>, count: nat, bytes: Text)
    requires Lawful(g) && ReadAll(g, count, bytes).Some?
    ensures var (values, rest) := ReadAll(g, count, bytes).value;
      |values| == count && FitAll(g, values) && bytes == WriteAll(g, values) + rest
  {
    if count > 0 {
      var (v, middle) := g.read(bytes).value;
      assert Written(g, bytes, (v, middle));
      ReadAllWasWritten(g, count - 1, middle);
      var (more, rest) := ReadAll(g, count - 1, middle).value;
      var values := [v] + more;
      assert values[1..] == more;
      assert g.write(v) + (WriteAll(g, more) + rest) == (g.write(v) + WriteAll(g, more)) + rest;
    }
  }

  // A count of this width, at most the cap, and that many values.
  function Counted<T>(width: nat, cap: nat, g: Grammar<T>): Grammar<seq<T>> {
    Grammar((vs: seq<T>) => ToBytes(width, |vs|) + WriteAll(g, vs),
            bytes => match Uint(width).read(bytes)
              case None => None
              case Some((count, middle)) => if count > cap then None else ReadAll(g, count, middle),
            (vs: seq<T>) => |vs| <= cap && FitAll(g, vs))
  }

  lemma CountedReadsBack<T(!new)>(width: nat, cap: nat, g: Grammar<T>, vs: seq<T>, rest: Text)
    requires Lawful(g) && cap < Range(width) && Counted(width, cap, g).fit(vs)
    ensures Counted(width, cap, g).read(Counted(width, cap, g).write(vs) + rest) == Some((vs, rest))
  {
    hide ToBytes, FromBytes, Range, WriteAll, ReadAll, Lawful;
    UintLawful(width);
    Regroup(Uint(width).write(|vs|), WriteAll(g, vs), rest);
    ReadsBack(Uint(width), |vs|, WriteAll(g, vs) + rest);
    WrittenAllReads(g, vs, rest);
  }

  lemma CountedWasWritten<T(!new)>(width: nat, cap: nat, g: Grammar<T>, bytes: Text)
    requires Lawful(g) && Counted(width, cap, g).read(bytes).Some?
    ensures Written(Counted(width, cap, g), bytes, Counted(width, cap, g).read(bytes).value)
  {
    hide ToBytes, FromBytes, Range, WriteAll, ReadAll, Lawful;
    UintLawful(width);
    var (count, middle) := Uint(width).read(bytes).value;
    WasWritten(Uint(width), bytes);
    ReadAllWasWritten(g, count, middle);
    var (vs, rest) := ReadAll(g, count, middle).value;
    Regroup(ToBytes(width, count), WriteAll(g, vs), rest);
  }

  lemma CountedLawful<T(!new)>(width: nat, cap: nat, g: Grammar<T>)
    requires Lawful(g) && cap < Range(width)
    ensures Lawful(Counted(width, cap, g))
  {
    hide Range;
    forall vs: seq<T>, rest | Counted(width, cap, g).fit(vs)
      ensures Counted(width, cap, g).read(Counted(width, cap, g).write(vs) + rest) == Some((vs, rest))
    {
      CountedReadsBack(width, cap, g, vs, rest);
    }
    forall bytes | Counted(width, cap, g).read(bytes).Some?
      ensures Written(Counted(width, cap, g), bytes, Counted(width, cap, g).read(bytes).value)
    {
      CountedWasWritten(width, cap, g, bytes);
    }
  }

  lemma CountedFits<T>(width: nat, cap: nat, g: Grammar<T>, vs: seq<T>)
    ensures Counted(width, cap, g).fit(vs) <==> |vs| <= cap && FitAll(g, vs)
  {
  }

  // Strings and ids.
  lemma StrFits(v: Text)
    ensures Str().fit(v) <==> |v| < Range(8) && Utf8(v)
  {
  }

  lemma RawFits(width: nat, v: Text)
    ensures Raw(width).fit(v) <==> |v| == width
  {
  }

  lemma UintFits(width: nat, v: nat)
    ensures Uint(width).fit(v) <==> v < Range(width)
  {
  }

  lemma MaybeFits<T>(g: Grammar<T>, v: Option<T>)
    ensures Maybe(g).fit(v) <==> v.Some? ==> g.fit(v.value)
  {
  }
}
