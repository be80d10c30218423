// Base64 text (section 4 of RFC 4648), as objects travel between nodes: three bytes to four characters,
// padded, and read back strictly.
module Base64 {
  import opened Wrappers
  import opened Texts

  const PAD: Byte := 61

  // `A` to `Z`, `a` to `z`, `0` to `9`, `+` and `/`.
  function Symbol(n: nat): (c: Byte)
    requires n < 64
    ensures c != PAD
  {
    if n < 26 then 65 + n
    else if n < 52 then 97 + (n - 26)
    else if n < 62 then 48 + (n - 52)
    else if n == 62 then 43 else 47
  }

  function Worth(c: Byte): (n: Option<nat>)
    ensures n.Some? ==> n.value < 64
  {
    if 65 <= c <= 90 then Some(c - 65)
    else if 97 <= c <= 122 then Some(c - 97 + 26)
    else if 48 <= c <= 57 then Some(c - 48 + 52)
    else if c == 43 then Some(62)
    else if c == 47 then Some(63)
    else None
  }

  lemma SymbolsAreExact(n: nat, c: Byte)
    requires n < 64
    ensures Worth(c) == Some(n) <==> c == Symbol(n)
  {
  }

  // Three bytes as four groups of six bits.
  function Group(a: Byte, b: Byte, c: Byte): (four: Text)
    ensures |four| == 4
  {
    [Symbol(a / 4), Symbol(a % 4 * 16 + b / 16), Symbol(b % 16 * 4 + c / 64), Symbol(c % 64)]
  }

  function Encode(bytes: Text): (text: Text)
  {
    if bytes == [] then []
    else if |bytes| == 1 then Group(bytes[0], 0, 0)[..2] + [PAD, PAD]
    else if |bytes| == 2 then Group(bytes[0], bytes[1], 0)[..3] + [PAD]
    else Group(bytes[0], bytes[1], bytes[2]) + Encode(bytes[3..])
  }

  // Four characters for every three bytes begun.
  lemma {:induction false} LengthIs(bytes: Text)
    ensures |Encode(bytes)| == 4 * ((|bytes| + 2) / 3)
  {
    if |bytes| > 2 {
      LengthIs(bytes[3..]);
      assert (|bytes| + 2) / 3 == (|bytes[3..]| + 2) / 3 + 1;
    }
  }

  // ---- reading -------------------------------------------------------------------------------------

  // The bytes of four symbols.
  function Ungroup(w: nat, x: nat, y: nat, z: nat): (three: Text)
    requires w < 64 && x < 64 && y < 64 && z < 64
    ensures |three| == 3
  {
    [w * 4 + x / 16, x % 16 * 16 + y / 4, y % 4 * 64 + z]
  }

  // The last four characters: padding may stand for one byte or two, and the bits it cuts off must be
  // zero.
  function ReadLast(text: Text): Option<Text>
    requires |text| == 4
  {
    match (Worth(text[0]), Worth(text[1]))
    case (Some(w), Some(x)) =>
      if text[2] == PAD && text[3] == PAD then
        if x % 16 != 0 then None else Some(Ungroup(w, x, 0, 0)[..1])
      else
        (match Worth(text[2])
         case None => None
         case Some(y) =>
           if text[3] == PAD then if y % 4 != 0 then None else Some(Ungroup(w, x, y, 0)[..2])
           else match Worth(text[3])
             case None => None
             case Some(z) => Some(Ungroup(w, x, y, z)))
    case _ => None
  }

  function Decode(text: Text): Option<Text> {
    if text == [] then Some([])
    else if |text| < 4 then None
    else if |text| == 4 then ReadLast(text)
    else
      match (Worth(text[0]), Worth(text[1]), Worth(text[2]), Worth(text[3]), Decode(text[4..]))
      case (Some(w), Some(x), Some(y), Some(z), Some(rest)) => Some(Ungroup(w, x, y, z) + rest)
      case _ => None
  }

  lemma SixBits(a: Byte, b: Byte, c: Byte)
    ensures a / 4 < 64 && a % 4 * 16 + b / 16 < 64 && b % 16 * 4 + c / 64 < 64
    ensures Ungroup(a / 4, a % 4 * 16 + b / 16, b % 16 * 4 + c / 64, c % 64) == [a, b, c]
  {
    BySixteen(a % 4, b / 16);
    ByFour(b % 16, c / 64);
    assert a == a / 4 * 4 + a % 4 && b == b / 16 * 16 + b % 16 && c == c / 64 * 64 + c % 64;
  }

  lemma BySixteen(high: nat, low: nat)
    requires low < 16
    ensures (high * 16 + low) / 16 == high && (high * 16 + low) % 16 == low
  {
  }

  lemma ByFour(high: nat, low: nat)
    requires low < 4
    ensures (high * 4 + low) / 4 == high && (high * 4 + low) % 4 == low
  {
  }

  lemma EightBits(w: nat, x: nat, y: nat, z: nat)
    requires w < 64 && x < 64 && y < 64 && z < 64
    ensures var three := Ungroup(w, x, y, z); Group(three[0], three[1], three[2]) == [Symbol(w), Symbol(x), Symbol(y),
                                                                                   Symbol(z)]
  {
    hide Symbol;
    var three := Ungroup(w, x, y, z);
    assert three[0] / 4 == w && three[0] % 4 == x / 16;
    assert three[1] / 16 == x % 16 && three[1] % 16 == y / 4;
    assert three[2] / 64 == y % 4 && three[2] % 64 == z;
  }

  lemma GroupReads(a: Byte, b: Byte, c: Byte)
    ensures var four := Group(a, b, c);
      && Worth(four[0]) == Some(a / 4) && Worth(four[1]) == Some(a % 4 * 16 + b / 16)
      && Worth(four[2]) == Some(b % 16 * 4 + c / 64) && Worth(four[3]) == Some(c % 64)
  {
    hide Symbol, Worth;
    SymbolsAreExact(a / 4, Symbol(a / 4));
    SymbolsAreExact(a % 4 * 16 + b / 16, Symbol(a % 4 * 16 + b / 16));
    SymbolsAreExact(b % 16 * 4 + c / 64, Symbol(b % 16 * 4 + c / 64));
    SymbolsAreExact(c % 64, Symbol(c % 64));
  }

  lemma LastReadsBack(bytes: Text)
    requires 0 < |bytes| <= 3
    ensures |Encode(bytes)| == 4 && ReadLast(Encode(bytes)) == Some(bytes)
  {
    hide Group, Worth, Ungroup;
    PadIsNoSymbol();
    if |bytes| == 1 {
      GroupReads(bytes[0], 0, 0);
      SixBits(bytes[0], 0, 0);
      assert bytes[0] % 4 * 16 % 16 == 0;
      assert bytes == [bytes[0], 0, 0][..1];
    } else if |bytes| == 2 {
      GroupReads(bytes[0], bytes[1], 0);
      SixBits(bytes[0], bytes[1], 0);
      assert bytes[1] % 16 * 4 % 4 == 0;
      assert bytes == [bytes[0], bytes[1], 0][..2];
    } else {
      GroupReads(bytes[0], bytes[1], bytes[2]);
      SixBits(bytes[0], bytes[1], bytes[2]);
      assert bytes[3..] == [] && Encode([]) == [];
      assert Encode(bytes) == Group(bytes[0], bytes[1], bytes[2]);
      assert bytes == [bytes[0], bytes[1], bytes[2]];
    }
  }

  lemma PadIsNoSymbol()
    ensures Worth(PAD) == None
  {
  }

  // What is written reads back.
  lemma {:induction false} ReadsBack(bytes: Text)
    ensures Decode(Encode(bytes)) == Some(bytes)
  {
    hide Group, Worth, Ungroup, ReadLast;
    if 0 < |bytes| <= 3 {
      LastReadsBack(bytes);
    } else if |bytes| > 3 {
      var text, rest := Encode(bytes), Encode(bytes[3..]);
      LengthIs(bytes[3..]);
      ReadsBack(bytes[3..]);
      GroupReads(bytes[0], bytes[1], bytes[2]);
      SixBits(bytes[0], bytes[1], bytes[2]);
      assert text[4..] == rest;
      assert bytes == [bytes[0], bytes[1], bytes[2]] + bytes[3..];
    }
  }

  lemma LastWasWritten(text: Text)
    requires |text| == 4 && ReadLast(text).Some?
    ensures Encode(ReadLast(text).value) == text && 0 < |ReadLast(text).value| <= 3
  {
    hide Symbol, Worth;
    var w, x := Worth(text[0]).value, Worth(text[1]).value;
    SymbolsAreExact(w, text[0]);
    SymbolsAreExact(x, text[1]);
    if text[2] == PAD && text[3] == PAD {
      EightBits(w, x, 0, 0);
    } else {
      var y := Worth(text[2]).value;
      SymbolsAreExact(y, text[2]);
      if text[3] == PAD {
        EightBits(w, x, y, 0);
      } else {
        var z := Worth(text[3]).value;
        SymbolsAreExact(z, text[3]);
        EightBits(w, x, y, z);
        assert Ungroup(w, x, y, z)[3..] == [] && Encode([]) == [];
      }
    }
  }

  // And a text reads exactly if it is what some bytes are written as: padding and unused bits included.
  lemma {:induction false} TextIsCanonical(text: Text, bytes: Text)
    ensures Decode(text) == Some(bytes) <==> text == Encode(bytes)
  {
    ReadsBack(bytes);
    if Decode(text).Some? { WasWritten(text); }
  }

  lemma {:induction false} WasWritten(text: Text)
    requires Decode(text).Some?
    ensures Encode(Decode(text).value) == text
  {
    hide Worth, Ungroup, ReadLast, Group, Symbol;
    if |text| == 4 {
      LastWasWritten(text);
    } else if text != [] {
      var rest := Decode(text[4..]).value;
      WasWritten(text[4..]);
      var w, x, y, z := Worth(text[0]).value, Worth(text[1]).value, Worth(text[2]).value, Worth(text[3]).value;
      SymbolsAreExact(w, text[0]);
      SymbolsAreExact(x, text[1]);
      SymbolsAreExact(y, text[2]);
      SymbolsAreExact(z, text[3]);
      EightBits(w, x, y, z);
      var all := Ungroup(w, x, y, z) + rest;
      assert rest != [] && all[3..] == rest;
      assert text == [text[0], text[1], text[2], text[3]] + text[4..];
    }
  }
}
