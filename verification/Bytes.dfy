/** Byte strings and their UTF-8 validity. */
module Bytes {
  type Byte = b: nat | b < 256

  const LF: Byte := 10
  const CR: Byte := 13
  const SPACE: Byte := 32
  const COLON: Byte := 58

  predicate Continuation(b: Byte) {
    0x80 <= b <= 0xBF
  }

  /** The second byte a lead byte of three or four allows (Table 3-7 of the Unicode Standard). */
  predicate SecondByte(lead: Byte, b: Byte) {
    if lead == 0xE0 then 0xA0 <= b <= 0xBF
    else if lead == 0xED then 0x80 <= b <= 0x9F
    else if lead == 0xF0 then 0x90 <= b <= 0xBF
    else if lead == 0xF4 then 0x80 <= b <= 0x8F
    else Continuation(b)
  }

  /** The length of the scalar value `s` starts with, or 0 when it is ill-formed. */
  function ScalarLength(s: seq<Byte>): (n: nat)
    requires s != []
    ensures n <= |s|
  {
    if s[0] < 0x80 then 1
    else if 0xC2 <= s[0] <= 0xDF && |s| >= 2 && Continuation(s[1]) then 2
    else if 0xE0 <= s[0] <= 0xEF && |s| >= 3 && SecondByte(s[0], s[1]) && Continuation(s[2]) then 3
    else if 0xF0 <= s[0] <= 0xF4 && |s| >= 4 && SecondByte(s[0], s[1])
            && Continuation(s[2]) && Continuation(s[3]) then 4
    else 0
  }

  predicate ValidUtf8(s: seq<Byte>) {
    s == [] || (ScalarLength(s) > 0 && ValidUtf8(s[ScalarLength(s)..]))
  }

  predicate AllAscii(s: seq<Byte>) {
    forall i | 0 <= i < |s| :: s[i] < 0x80
  }

  lemma {:induction false} AsciiPrefixKeepsValid(a: seq<Byte>, s: seq<Byte>)
    requires AllAscii(a)
    ensures ValidUtf8(a + s) == ValidUtf8(s)
  {
    if a == [] {
      assert a + s == s;
    } else {
      assert (a + s)[1..] == a[1..] + s;
      AsciiPrefixKeepsValid(a[1..], s);
    }
  }
}
