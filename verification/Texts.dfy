// Strings are byte sequences: every length the system checks is a byte length.
module Texts {
  type Byte = n: int | 0 <= n < 256
  type Text = seq<Byte>

  // `str::is_char_boundary`: the two ends, and every byte that does not continue a character.
  predicate CharBoundary(t: Text, at: int) {
    at == 0 || at == |t| || (0 < at < |t| && !(0x80 <= t[at] < 0xC0))
  }

  lemma Regroup<T>(a: seq<T>, b: seq<T>, c: seq<T>)
    ensures a + (b + c) == (a + b) + c
  {
  }
}
