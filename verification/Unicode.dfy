// Text as characters: the UTF-8 check every decoder makes, the character boundaries strings are cut at
// and the characters they are counted by, against the encoding of section 3 of RFC 3629.
module Unicode {
  import opened Texts
  import opened Grammars
  import opened Sanitizing

  // Every code point but the surrogates.
  predicate IsScalar(c: int) {
    0 <= c < 0xD800 || 0xE000 <= c < 0x11_0000
  }

  type Scalar = c: int | 0 <= c < 0xD800 || 0xE000 <= c < 0x11_0000

  // Six bits at a time.
  function High(c: nat): (high: nat)
    ensures c == 0x40 * high + c % 0x40
  {
    c / 0x40
  }

  function Low(c: nat): (byte: Byte)
    ensures 0x80 <= byte < 0xC0 && c == 0x40 * High(c) + (byte - 0x80)
  {
    0x80 + c % 0x40
  }

  function Encode(c: Scalar): (bytes: Text)
    ensures 0 < |bytes| <= 4
  {
    if c < 0x80 then [c]
    else if c < 0x800 then [0xC0 + High(c), Low(c)]
    else if c < 0x1_0000 then [0xE0 + High(High(c)), Low(High(c)), Low(c)]
    else [0xF0 + High(High(High(c))), Low(High(High(c))), Low(High(c)), Low(c)]
  }

  function EncodeAll(scalars: seq<Scalar>): Text {
    if scalars == [] then [] else Encode(scalars[0]) + EncodeAll(scalars[1..])
  }

  // ---- well-formed text ----------------------------------------------------------------------------

  lemma EncodedHasLength(c: Scalar, rest: Text)
    ensures CharLength(Encode(c) + rest) == |Encode(c)| && (Encode(c) + rest)[|Encode(c)|..] == rest
  {
    hide High, Low;
    var bytes := Encode(c) + rest;
    assert forall i :: 0 <= i < |Encode(c)| ==> bytes[i] == Encode(c)[i];
  }

  // Six bits behind others.
  function More(high: int, byte: Byte): int {
    high * 0x40 + (byte as int - 0x80)
  }

  lemma SixBits(high: int, byte: Byte)
    requires 0x80 <= byte < 0xC0
    ensures high >= 0 ==> More(high, byte) >= 0 && High(More(high, byte)) == high && Low(More(high, byte)) == byte
  {
  }

  lemma BitsBack(c: nat)
    ensures More(High(c), Low(c)) == c
  {
  }

  // The character at the front of well-formed bytes.
  function Decode(bytes: Text): int
    requires CharLength(bytes) > 0
  {
    var n, b := CharLength(bytes), bytes[0] as int;
    if n == 1 then b
    else if n == 2 then More(b - 0xC0, bytes[1])
    else if n == 3 then More(More(b - 0xE0, bytes[1]), bytes[2])
    else More(More(More(b - 0xF0, bytes[1]), bytes[2]), bytes[3])
  }

  lemma FrontIsEncoded(bytes: Text)
    requires CharLength(bytes) > 0
    ensures IsScalar(Decode(bytes)) && bytes[..CharLength(bytes)] == Encode(Decode(bytes))
  {
    hide More;
    var n, b := CharLength(bytes), bytes[0] as int;
    if n == 2 {
      SixBits(b - 0xC0, bytes[1]);
      TwoBytes(b, bytes[1]);
    } else if n == 3 {
      SixBits(b - 0xE0, bytes[1]);
      SixBits(More(b - 0xE0, bytes[1]), bytes[2]);
      ThreeBytes(b, bytes[1], bytes[2]);
    } else if n == 4 {
      SixBits(b - 0xF0, bytes[1]);
      SixBits(More(b - 0xF0, bytes[1]), bytes[2]);
      SixBits(More(More(b - 0xF0, bytes[1]), bytes[2]), bytes[3]);
      FourBytes(b, bytes[1], bytes[2], bytes[3]);
    }
  }

  lemma TwoBytes(b: int, x: Byte)
    requires 0xC2 <= b <= 0xDF && 0x80 <= x < 0xC0
    ensures 0x80 <= More(b - 0xC0, x) < 0x800
  {
  }

  lemma ThreeBytes(b: int, x: Byte, y: Byte)
    requires 0xE0 <= b <= 0xEF && 0x80 <= x < 0xC0 && 0x80 <= y < 0xC0
    requires (b == 0xE0 ==> x >= 0xA0) && (b == 0xED ==> x <= 0x9F)
    ensures var c := More(More(b - 0xE0, x), y); 0x800 <= c < 0x1_0000 && !(0xD800 <= c < 0xE000)
  {
  }

  lemma FourBytes(b: int, x: Byte, y: Byte, z: Byte)
    requires 0xF0 <= b <= 0xF4 && 0x80 <= x < 0xC0 && 0x80 <= y < 0xC0 && 0x80 <= z < 0xC0
    requires (b == 0xF0 ==> x >= 0x90) && (b == 0xF4 ==> x <= 0x8F)
    ensures 0x1_0000 <= More(More(More(b - 0xF0, x), y), z) < 0x11_0000
  {
  }

  function DecodeAll(bytes: Text): seq<Scalar>
    requires Utf8(bytes)
  {
    if bytes == [] then []
    else
      FrontIsEncoded(bytes);
      [Decode(bytes)] + DecodeAll(bytes[CharLength(bytes)..])
  }

  lemma DecodesNext(bytes: Text)
    requires Utf8(bytes) && bytes != []
    ensures CharLength(bytes) > 0 && Utf8(bytes[CharLength(bytes)..]) && IsScalar(Decode(bytes))
    ensures DecodeAll(bytes) == [Decode(bytes)] + DecodeAll(bytes[CharLength(bytes)..])
  {
    hide Decode, Encode, CharLength;
    FrontIsEncoded(bytes);
  }

  // Bytes pass the check exactly if they are the encoding of some characters, and of those only.
  lemma {:induction false} Utf8IsEncoded(bytes: Text)
    requires Utf8(bytes)
    ensures EncodeAll(DecodeAll(bytes)) == bytes
  {
    hide Decode, Encode, CharLength;
    if bytes != [] {
      var n := CharLength(bytes);
      DecodesNext(bytes);
      Utf8IsEncoded(bytes[n..]);
      FrontIsEncoded(bytes);
      assert ([Decode(bytes)] + DecodeAll(bytes[n..]))[1..] == DecodeAll(bytes[n..]);
      assert bytes == bytes[..n] + bytes[n..];
    }
  }

  lemma {:induction false} EncodedIsUtf8(scalars: seq<Scalar>)
    ensures Utf8(EncodeAll(scalars)) && DecodeAll(EncodeAll(scalars)) == scalars
  {
    hide Decode, Encode, CharLength;
    if scalars != [] {
      EncodedIsUtf8(scalars[1..]);
      EncodedHasLength(scalars[0], EncodeAll(scalars[1..]));
      EncodedDecodes(scalars[0], EncodeAll(scalars[1..]));
      assert scalars == [scalars[0]] + scalars[1..];
    }
  }

  lemma EncodedDecodes(c: Scalar, rest: Text)
    requires CharLength(Encode(c) + rest) == |Encode(c)|
    ensures Decode(Encode(c) + rest) == c
  {
    hide More, CharLength, High, Low;
    var bytes := Encode(c) + rest;
    assert forall i :: 0 <= i < |Encode(c)| ==> bytes[i] == Encode(c)[i];
    BitsBack(c);
    BitsBack(High(c));
    BitsBack(High(High(c)));
  }

  lemma Utf8Exactly(bytes: Text)
    ensures Utf8(bytes) <==> exists scalars :: EncodeAll(scalars) == bytes
  {
    hide Utf8, EncodeAll, DecodeAll;
    if Utf8(bytes) { Utf8IsEncoded(bytes); }
    if exists scalars :: EncodeAll(scalars) == bytes {
      var scalars :| EncodeAll(scalars) == bytes;
      EncodedIsUtf8(scalars);
    }
  }

  // ---- boundaries and counts -----------------------------------------------------------------------

  // Only the first byte of a character does not continue one.
  lemma OnlyTheFirstStarts(c: Scalar)
    ensures !(0x80 <= Encode(c)[0] < 0xC0)
    ensures forall i :: 0 < i < |Encode(c)| ==> 0x80 <= Encode(c)[i] < 0xC0
  {
  }

  lemma {:induction false} EncodedFrontStarts(scalars: seq<Scalar>)
    ensures scalars != [] ==> EncodeAll(scalars) != [] && !(0x80 <= EncodeAll(scalars)[0] < 0xC0)
  {
    hide Encode;
    if scalars != [] { OnlyTheFirstStarts(scalars[0]); }
  }

  // A place in a text is a character boundary exactly if whole characters are on both sides of it.
  lemma {:induction false} BoundariesAreBetweenCharacters(scalars: seq<Scalar>, at: nat)
    requires at <= |EncodeAll(scalars)|
    ensures CharBoundary(EncodeAll(scalars), at) <==>
            exists k :: 0 <= k <= |scalars| && EncodeAll(scalars[..k]) == EncodeAll(scalars)[..at]
  {
    hide Encode;
    var bytes := EncodeAll(scalars);
    if at == 0 {
      assert EncodeAll(scalars[..0]) == bytes[..at];
    } else {
      var first, rest := Encode(scalars[0]), EncodeAll(scalars[1..]);
      OnlyTheFirstStarts(scalars[0]);
      EncodedFrontStarts(scalars[1..]);
      if at < |first| {
        assert bytes[at] == first[at];
        forall k | 0 <= k <= |scalars|
          ensures EncodeAll(scalars[..k]) != bytes[..at]
        {
          if k > 0 { FrontEncodes(scalars, k); }
        }
      } else {
        BoundariesAreBetweenCharacters(scalars[1..], at - |first|);
        assert bytes[..at] == first + rest[..at - |first|];
        Shifted(scalars, at);
        forall k | 0 < k <= |scalars|
          ensures EncodeAll(scalars[..k]) == first + EncodeAll(scalars[1..][..k - 1])
        {
          FrontEncodes(scalars, k);
        }
        if CharBoundary(rest, at - |first|) {
          var k :| 0 <= k <= |scalars[1..]| && EncodeAll(scalars[1..][..k]) == rest[..at - |first|];
          assert EncodeAll(scalars[..k + 1]) == bytes[..at];
        }
        if exists k :: 0 <= k <= |scalars| && EncodeAll(scalars[..k]) == bytes[..at] {
          var k :| 0 <= k <= |scalars| && EncodeAll(scalars[..k]) == bytes[..at];
          assert k > 0;
          assert first + EncodeAll(scalars[1..][..k - 1]) == first + rest[..at - |first|];
          SameBehind(first, EncodeAll(scalars[1..][..k - 1]), rest[..at - |first|]);
        }
      }
    }
  }

  lemma SameBehind(front: Text, a: Text, b: Text)
    requires front + a == front + b
    ensures a == b
  {
    assert (front + a)[|front|..] == a && (front + b)[|front|..] == b;
  }

  lemma FrontEncodes(scalars: seq<Scalar>, k: nat)
    requires 0 < k <= |scalars|
    ensures EncodeAll(scalars[..k]) == Encode(scalars[0]) + EncodeAll(scalars[1..][..k - 1])
  {
    assert scalars[..k][1..] == scalars[1..][..k - 1];
  }

  lemma Shifted(scalars: seq<Scalar>, at: nat)
    requires scalars != [] && |Encode(scalars[0])| <= at <= |EncodeAll(scalars)|
    ensures CharBoundary(EncodeAll(scalars), at)
        <==> CharBoundary(EncodeAll(scalars[1..]), at - |Encode(scalars[0])|)
  {
    hide Encode;
    EncodedFrontStarts(scalars[1..]);
  }

  // A text holds as many characters as the sanitizer counts in it.
  lemma {:induction false} CharsAreCounted(scalars: seq<Scalar>)
    ensures Chars(EncodeAll(scalars)) == |scalars|
  {
    if scalars != [] {
      CharsAreCounted(scalars[1..]);
      OneCharacter(scalars[0], EncodeAll(scalars[1..]));
    }
  }

  lemma OneCharacter(c: Scalar, rest: Text)
    ensures Chars(Encode(c) + rest) == 1 + Chars(rest)
  {
    hide Encode;
    OnlyTheFirstStarts(c);
    assert (Encode(c) + rest)[1..] == Encode(c)[1..] + rest;
    ContinuationsCountNothing(Encode(c)[1..], rest);
  }

  lemma {:induction false} ContinuationsCountNothing(tail: Text, rest: Text)
    requires forall i :: 0 <= i < |tail| ==> 0x80 <= tail[i] < 0xC0
    ensures Chars(tail + rest) == Chars(rest)
  {
    if tail == [] {
      assert tail + rest == rest;
    } else {
      assert (tail + rest)[1..] == tail[1..] + rest;
      ContinuationsCountNothing(tail[1..], rest);
    }
  }
}
