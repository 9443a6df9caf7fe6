/** Valid UTF-8 is exactly what encoding scalar values gives (section 3.9 of the Unicode Standard). */
module Utf8 {
  import opened Bytes
  import opened Sequences

  predicate IsScalar(n: nat) {
    n < 0xD800 || 0xE000 <= n < 0x11_0000
  }

  /** The bytes of a scalar value (Table 3-6 of the Unicode Standard). */
  function Encode(n: nat): (bytes: seq<Byte>)
    requires IsScalar(n)
    ensures bytes != []
  {
    if n < 0x80 then [n]
    else if n < 0x800 then [0xC0 + n / 0x40, 0x80 + n % 0x40]
    else if n < 0x1_0000 then [0xE0 + n / 0x1000, 0x80 + n / 0x40 % 0x40, 0x80 + n % 0x40]
    else [0xF0 + n / 0x4_0000, 0x80 + n / 0x1000 % 0x40, 0x80 + n / 0x40 % 0x40, 0x80 + n % 0x40]
  }

  function EncodeAll(scalars: seq<nat>): seq<Byte>
    requires forall i | 0 <= i < |scalars| :: IsScalar(scalars[i])
  {
    if scalars == [] then [] else Encode(scalars[0]) + EncodeAll(scalars[1..])
  }

  lemma TwoBytes(n: nat, s: seq<Byte>)
    requires 0x80 <= n < 0x800 && Encode(n) <= s
    ensures ScalarLength(s) == 2
  {
  }

  lemma ThreeBytes(n: nat, s: seq<Byte>)
    requires 0x800 <= n < 0x1_0000 && IsScalar(n) && Encode(n) <= s
    ensures ScalarLength(s) == 3
  {
    var (a, b) := (n / 0x1000, n / 0x40 % 0x40);
    assert s[0] == 0xE0 + a && s[1] == 0x80 + b && Continuation(s[2]);
    assert n / 0x40 == 0x40 * a + b;
  }

  lemma FourBytes(n: nat, s: seq<Byte>)
    requires 0x1_0000 <= n && IsScalar(n) && Encode(n) <= s
    ensures ScalarLength(s) == 4
  {
    var (a, b) := (n / 0x4_0000, n / 0x1000 % 0x40);
    assert s[0] == 0xF0 + a && s[1] == 0x80 + b && Continuation(s[2]) && Continuation(s[3]);
    assert n / 0x1000 == 0x40 * a + b;
  }

  lemma EncodedIsRead(n: nat, s: seq<Byte>)
    requires IsScalar(n) && Encode(n) <= s
    ensures ScalarLength(s) == |Encode(n)|
  {
    if n < 0x80 {
      assert s[0] == n;
    } else if n < 0x800 {
      TwoBytes(n, s);
    } else if n < 0x1_0000 {
      ThreeBytes(n, s);
    } else {
      FourBytes(n, s);
    }
  }

  lemma DecodeTwo(s: seq<Byte>) returns (n: nat)
    requires |s| == 2 && ScalarLength(s) == 2
    ensures IsScalar(n) && Encode(n) == s
  {
    var (a: nat, b: nat) := (s[0] - 0xC0, s[1] - 0x80);
    n := a * 0x40 + b;
    assert n / 0x40 == a && n % 0x40 == b;
  }

  lemma DecodeThree(s: seq<Byte>) returns (n: nat)
    requires |s| == 3 && ScalarLength(s) == 3
    ensures IsScalar(n) && Encode(n) == s
  {
    var (a: nat, b: nat, c: nat) := (s[0] - 0xE0, s[1] - 0x80, s[2] - 0x80);
    n := (a * 0x40 + b) * 0x40 + c;
    assert n / 0x40 == a * 0x40 + b && n % 0x40 == c;
    assert n / 0x1000 == a && n / 0x40 % 0x40 == b;
  }

  lemma DecodeFour(s: seq<Byte>) returns (n: nat)
    requires |s| == 4 && ScalarLength(s) == 4
    ensures IsScalar(n) && Encode(n) == s
  {
    var (a: nat, b: nat, c: nat, d: nat) := (s[0] - 0xF0, s[1] - 0x80, s[2] - 0x80, s[3] - 0x80);
    n := ((a * 0x40 + b) * 0x40 + c) * 0x40 + d;
    assert n / 0x40 == (a * 0x40 + b) * 0x40 + c && n % 0x40 == d;
    assert n / 0x1000 == a * 0x40 + b && n / 0x40 % 0x40 == c;
    assert n / 0x4_0000 == a && n / 0x1000 % 0x40 == b;
  }

  lemma HeadIsEncoded(s: seq<Byte>) returns (n: nat)
    requires s != [] && ScalarLength(s) > 0
    ensures IsScalar(n) && s[..ScalarLength(s)] == Encode(n)
  {
    var head := s[..ScalarLength(s)];
    assert ScalarLength(head) == ScalarLength(s);
    if |head| == 1 {
      n := s[0];
    } else if |head| == 2 {
      n := DecodeTwo(head);
    } else if |head| == 3 {
      n := DecodeThree(head);
    } else {
      n := DecodeFour(head);
    }
  }

  lemma {:induction false} ScalarsOf(s: seq<Byte>) returns (scalars: seq<nat>)
    requires ValidUtf8(s)
    ensures (forall i | 0 <= i < |scalars| :: IsScalar(scalars[i])) && EncodeAll(scalars) == s
    decreases |s|
  {
    if s == [] {
      return [];
    }
    var n := HeadIsEncoded(s);
    var rest := ScalarsOf(s[ScalarLength(s)..]);
    scalars := [n] + rest;
    assert scalars[1..] == rest;
  }

  lemma {:induction false} EncodedIsValid(scalars: seq<nat>)
    requires forall i | 0 <= i < |scalars| :: IsScalar(scalars[i])
    ensures ValidUtf8(EncodeAll(scalars))
  {
    if scalars != [] {
      var s := EncodeAll(scalars);
      EncodedIsRead(scalars[0], s);
      assert s[|Encode(scalars[0])|..] == EncodeAll(scalars[1..]);
      EncodedIsValid(scalars[1..]);
    }
  }

  /** Bytes are valid exactly when they encode some scalar values, one behind the other. */
  lemma ValidExactly(s: seq<Byte>)
    ensures ValidUtf8(s) <==>
            exists scalars: seq<nat> ::
              (forall i | 0 <= i < |scalars| :: IsScalar(scalars[i])) && s == EncodeAll(scalars)
  {
    if ValidUtf8(s) {
      var scalars := ScalarsOf(s);
    }
    if scalars: seq<nat> :| (forall i | 0 <= i < |scalars| :: IsScalar(scalars[i])) && s == EncodeAll(scalars) {
      EncodedIsValid(scalars);
    }
  }
}
