/** Decimal digits: reading and writing natural numbers. */
module Decimal {
  predicate IsDigit(c: char) {
    '0' <= c <= '9'
  }

  predicate AllDigits(s: string) {
    forall i | 0 <= i < |s| :: IsDigit(s[i])
  }

  function DigitValue(c: char): nat
    requires IsDigit(c)
  {
    c as int - '0' as int
  }

  lemma DigitIsListed(c: char)
    ensures IsDigit(c) <==> c in "0123456789"
    ensures IsDigit(c) ==> "0123456789"[DigitValue(c)] == c
  {
    if IsDigit(c) {
      var d := DigitValue(c);
      assert "0123456789"[d] == ['0', '1', '2', '3', '4', '5', '6', '7', '8', '9'][d];
    }
  }

  /** The number a digit string spells, most significant digit first. */
  function DecimalValue(s: string): nat
    requires AllDigits(s)
  {
    if s == "" then 0 else 10 * DecimalValue(s[..|s| - 1]) + DigitValue(s[|s| - 1])
  }

  function DigitChar(n: nat): char
    requires n < 10
  {
    '0' + n as char
  }

  function ShowNat(n: nat): string {
    if n < 10 then [DigitChar(n)] else ShowNat(n / 10) + [DigitChar(n % 10)]
  }

  lemma {:induction false} ShowNatSpells(n: nat)
    ensures ShowNat(n) != "" && AllDigits(ShowNat(n)) && DecimalValue(ShowNat(n)) == n
  {
    if n < 10 {
      assert ShowNat(n)[..0] == "";
    } else {
      ShowNatSpells(n / 10);
      assert ShowNat(n)[..|ShowNat(n)| - 1] == ShowNat(n / 10);
    }
  }

  function Pow10(w: nat): nat {
    if w == 0 then 1 else 10 * Pow10(w - 1)
  }

  /** `n` in decimal, with leading zeros up to `width` digits. */
  function Padded(n: nat, width: nat): string {
    if n < 10 && width <= 1 then [DigitChar(n)]
    else Padded(n / 10, if width == 0 then 0 else width - 1) + [DigitChar(n % 10)]
  }

  lemma {:induction false} PaddedSpells(n: nat, width: nat)
    ensures AllDigits(Padded(n, width)) && DecimalValue(Padded(n, width)) == n
    ensures |Padded(n, width)| >= width && |Padded(n, width)| > 0
    ensures width > 0 ==> (|Padded(n, width)| == width <==> n < Pow10(width))
    decreases n, width
  {
    var s := Padded(n, width);
    if n < 10 && width <= 1 {
      assert s[..0] == "";
    } else {
      var w := if width == 0 then 0 else width - 1;
      PaddedSpells(n / 10, w);
      assert s[..|s| - 1] == Padded(n / 10, w);
    }
  }

  lemma OneMoreDigit(s: string, c: char)
    requires AllDigits(s) && IsDigit(c)
    ensures AllDigits(s + [c]) && DecimalValue(s + [c]) == 10 * DecimalValue(s) + DigitValue(c)
  {
    assert (s + [c])[..|s|] == s;
  }

  lemma TimesTen(a: nat, b: nat)
    ensures 10 * (a * b) == a * (10 * b)
  {
  }

  /** Digits in front weigh powers of ten; a leading zero weighs nothing. */
  lemma {:induction false} DecimalValueAppend(s: string, t: string)
    requires AllDigits(s) && AllDigits(t)
    ensures AllDigits(s + t) && DecimalValue(s + t) == DecimalValue(s) * Pow10(|t|) + DecimalValue(t)
    decreases |t|
  {
    if t == "" {
      assert s + t == s;
    } else {
      var (front, last) := (t[..|t| - 1], t[|t| - 1]);
      DecimalValueAppend(s, front);
      OneMoreDigit(s + front, last);
      OneMoreDigit(front, last);
      assert s + t == (s + front) + [last] && t == front + [last];
      TimesTen(DecimalValue(s), Pow10(|front|));
    }
  }
}
