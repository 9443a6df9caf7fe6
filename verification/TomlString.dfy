/** Quoting text as a TOML basic string (crates/harness/src/mined_harbor.rs, `toml_basic_string`),
    against a reader for the basic strings of TOML v1.0.0, section "String". */
module TomlString {
  import opened Outcomes
  import opened Sequences

  predicate IsControl(c: char) {
    c <= '\U{1F}' || c == '\U{7F}'
  }

  function HexDigit(n: nat): char
    requires n < 16
  {
    if n < 10 then '0' + n as char else 'A' + (n - 10) as char
  }

  /** The code point in four upper-case hex digits. */
  function Hex4(n: nat): string
    requires n < 0x1_0000
  {
    [HexDigit(n / 4096), HexDigit(n / 256 % 16), HexDigit(n / 16 % 16), HexDigit(n % 16)]
  }

  function Escaped(c: char): string {
    if c == '\\' then "\\\\"
    else if c == '"' then "\\\""
    else if c == '\n' then "\\n"
    else if c == '\t' then "\\t"
    else if c == '\r' then "\\r"
    else if IsControl(c) then "\\u" + Hex4(c as nat)
    else [c]
  }

  function Body(s: string): string {
    if s == "" then "" else Escaped(s[0]) + Body(s[1..])
  }

  function Quoted(s: string): string {
    "\"" + (Body(s) + "\"")
  }

  lemma {:induction false} BodyOneMore(s: string, c: char)
    ensures Body(s + [c]) == Body(s) + Escaped(c)
  {
    if s == "" {
      assert s + [c] == [c] && [c][1..] == "";
    } else {
      assert (s + [c])[1..] == s[1..] + [c];
      BodyOneMore(s[1..], c);
    }
  }

  method PushEscaped(before: string, c: char) returns (out: string)
    ensures out == before + Escaped(c)
  {
    match c {
      case '\\' => out := before + "\\\\";
      case '"' => out := before + "\\\"";
      case '\n' => out := before + "\\n";
      case '\t' => out := before + "\\t";
      case '\r' => out := before + "\\r";
      case _ =>
        if c <= '\U{1F}' || c == '\U{7F}' {
          out := before + ("\\u" + Hex4(c as nat));
        } else {
          out := before + [c];
        }
    }
  }

  method TomlBasicString(s: string) returns (out: string)
    ensures out == Quoted(s)
  {
    ghost var body := "";
    out := "\"";
    for i := 0 to |s|
      invariant body == Body(s[..i]) && out == "\"" + body
    {
      assert s[..i + 1] == s[..i] + [s[i]];
      BodyOneMore(s[..i], s[i]);
      out := PushEscaped(out, s[i]);
      Associate("\"", body, Escaped(s[i]));
      body := body + Escaped(s[i]);
    }
    assert s[..|s|] == s;
    out := out + "\"";
  }

  // ----- A basic-string reader -----

  function HexValue(c: char): Option<nat> {
    if '0' <= c <= '9' then Some(c as nat - '0' as nat)
    else if 'A' <= c <= 'F' then Some(c as nat - 'A' as nat + 10)
    else if 'a' <= c <= 'f' then Some(c as nat - 'a' as nat + 10)
    else None
  }

  function HexNumber(s: string): Option<nat> {
    if s == "" then Some(0)
    else
      match (HexNumber(s[..|s| - 1]), HexValue(s[|s| - 1]))
      case (Some(n), Some(d)) => Some(16 * n + d)
      case _ => None
  }

  /** A Unicode escape may name any scalar value. */
  function ScalarOf(n: Option<nat>): Option<char> {
    if n.Some? && (n.value < 0xD800 || 0xE000 <= n.value < 0x11_0000) then Some(n.value as char) else None
  }

  /** One character of a basic string's inside, and how much text it takes. */
  function ReadChar(t: string): Option<(char, nat)>
    requires t != "" && t[0] != '"'
    ensures ReadChar(t).Some? ==> 0 < ReadChar(t).value.1 <= |t|
  {
    if t[0] != '\\' then (if IsControl(t[0]) && t[0] != '\t' then None else Some((t[0], 1)))
    else if |t| < 2 then None
    else
      match t[1]
      case 'b' => Some(('\U{8}', 2))
      case 't' => Some(('\t', 2))
      case 'n' => Some(('\n', 2))
      case 'f' => Some(('\U{C}', 2))
      case 'r' => Some(('\r', 2))
      case '"' => Some(('"', 2))
      case '\\' => Some(('\\', 2))
      case 'u' => ReadScalar(t, 4)
      case 'U' => ReadScalar(t, 8)
      case _ => None
  }

  function ReadScalar(t: string, digits: nat): (r: Option<(char, nat)>)
    requires |t| >= 2
    ensures r.Some? ==> 0 < r.value.1 <= |t|
  {
    if |t| < 2 + digits then None
    else
      match ScalarOf(HexNumber(t[2..2 + digits]))
      case Some(c) => Some((c, 2 + digits))
      case None => None
  }

  /** The string up to the closing quote, and the text behind it. */
  function ReadBody(t: string): Option<(string, string)>
    decreases |t|
  {
    if t == "" then None
    else if t[0] == '"' then Some(("", t[1..]))
    else
      match ReadChar(t)
      case None => None
      case Some((c, n)) =>
        match ReadBody(t[n..])
        case None => None
        case Some((s, rest)) => Some(([c] + s, rest))
  }

  /** A basic string at the front of `t`: its value, and what follows it. */
  function Read(t: string): Option<(string, string)> {
    if t == "" || t[0] != '"' then None else ReadBody(t[1..])
  }

  // ----- Reading undoes quoting -----

  lemma OneMoreHexDigit(s: string, c: char, value: nat, d: nat)
    requires HexNumber(s) == Some(value) && HexValue(c) == Some(d)
    ensures HexNumber(s + [c]) == Some(16 * value + d)
  {
    assert (s + [c])[..|s|] == s;
  }

  lemma FourHexDigits(a: char, b: char, c: char, d: char, x: nat, y: nat)
    requires HexValue(a) == Some(0) && HexValue(b) == Some(0) && HexValue(c) == Some(x) && HexValue(d) == Some(y)
    ensures HexNumber([a, b, c, d]) == Some(16 * x + y)
  {
    OneMoreHexDigit([], a, 0, 0);
    assert [] + [a] == [a];
    OneMoreHexDigit([a], b, 0, 0);
    assert [a] + [b] == [a, b];
    OneMoreHexDigit([a, b], c, 0, x);
    assert [a, b] + [c] == [a, b, c];
    OneMoreHexDigit([a, b, c], d, x, y);
    assert [a, b, c] + [d] == [a, b, c, d];
  }

  lemma Hex4Reads(n: nat)
    requires n < 0x100
    ensures HexNumber(Hex4(n)) == Some(n)
  {
    var (x, y) := (n / 16, n % 16);
    HexDigitReads(0);
    HexDigitReads(x);
    HexDigitReads(y);
    FourHexDigits(HexDigit(0), HexDigit(0), HexDigit(x), HexDigit(y), x, y);
    assert Hex4(n) == [HexDigit(0), HexDigit(0), HexDigit(x), HexDigit(y)];
  }

  lemma HexDigitReads(n: nat)
    requires n < 16
    ensures HexValue(HexDigit(n)) == Some(n)
  {
  }

  lemma EscapedReads(c: char, rest: string)
    ensures Escaped(c) != "" && Escaped(c)[0] != '"'
    ensures ReadChar(Escaped(c) + rest) == Some((c, |Escaped(c)|))
  {
    if IsControl(c) {
      Hex4Reads(c as nat);
      assert ("\\u" + Hex4(c as nat) + rest)[2..6] == Hex4(c as nat);
    }
  }

  lemma ReadBodyStep(t: string, c: char, n: nat)
    requires t != "" && t[0] != '"' && ReadChar(t) == Some((c, n)) && ReadBody(t[n..]).Some?
    ensures ReadBody(t) == Some(([c] + ReadBody(t[n..]).value.0, ReadBody(t[n..]).value.1))
  {
  }

  lemma {:induction false} BodyReads(s: string, rest: string)
    ensures ReadBody(Body(s) + ("\"" + rest)) == Some((s, rest))
    decreases |s|
  {
    var t := Body(s) + ("\"" + rest);
    if s == "" {
      assert t == "\"" + rest && t[1..] == rest;
    } else {
      var tail := Body(s[1..]) + ("\"" + rest);
      var e := Escaped(s[0]);
      assert t == e + tail;
      EscapedReads(s[0], tail);
      assert t[|e|..] == tail;
      BodyReads(s[1..], rest);
      ReadBodyStep(t, s[0], |e|);
      assert s == [s[0]] + s[1..];
    }
  }

  /** Whatever text follows it, a quoted string reads back as itself. */
  lemma QuotedReadsBack(s: string, rest: string)
    ensures Read(Quoted(s) + rest) == Some((s, rest))
  {
    assert (Quoted(s) + rest)[1..] == Body(s) + ("\"" + rest);
    BodyReads(s, rest);
  }

  /** So quoting is injective, even inside a larger text. */
  lemma QuotedIsInjective(s: string, a: string, t: string, b: string)
    requires Quoted(s) + a == Quoted(t) + b
    ensures s == t && a == b
  {
    QuotedReadsBack(s, a);
    QuotedReadsBack(t, b);
  }

  /** A quoted string is one line of printable text, whatever it quotes. */
  lemma QuotedHasNoControl(s: string)
    ensures forall i | 0 <= i < |Quoted(s)| :: !IsControl(Quoted(s)[i])
  {
    BodyHasNoControl(s);
    forall i | 0 <= i < |Quoted(s)| ensures !IsControl(Quoted(s)[i]) {
      assert 1 <= i <= |Body(s)| ==> Quoted(s)[i] == Body(s)[i - 1];
    }
  }

  lemma {:induction false} BodyHasNoControl(s: string)
    ensures forall i | 0 <= i < |Body(s)| :: !IsControl(Body(s)[i])
    decreases |s|
  {
    if s != "" {
      BodyHasNoControl(s[1..]);
      EscapedHasNoControl(s[0]);
    }
  }

  lemma EscapedHasNoControl(c: char)
    ensures forall i | 0 <= i < |Escaped(c)| :: !IsControl(Escaped(c)[i])
  {
  }

  // ----- What a quoted string looks like -----

  /** Only quotes, backslashes and control characters are escaped: five of them by a letter or
      themselves, the others by their code point in four upper-case hex digits. */
  lemma EscapesExactly(c: char)
    ensures Escaped(c) ==
            if c == '"' then ['\\', '"']
            else if c == '\\' then ['\\', '\\']
            else if c as int == 9 then ['\\', 't']
            else if c as int == 10 then ['\\', 'n']
            else if c as int == 13 then ['\\', 'r']
            else if c as int < 0x20 || c as int == 0x7F then
              ['\\', 'u', '0', '0', "01234567"[c as int / 16], "0123456789ABCDEF"[c as int % 16]]
            else [c]
  {
    if c as int < 0x20 || c as int == 0x7F {
      HexDigitListed(0);
      HexDigitListed(c as nat / 16);
      HexDigitListed(c as nat % 16);
    }
  }

  lemma HexDigitListed(n: nat)
    requires n < 16
    ensures HexDigit(n) == "0123456789ABCDEF"[n]
    ensures n < 8 ==> HexDigit(n) == "01234567"[n]
  {
  }

  /** Between the quotes stands each character's own spelling, in order. */
  lemma QuotedSpells(s: string)
    ensures Quoted(s) == "\"" + (Concat(seq(|s|, i requires 0 <= i < |s| => Escaped(s[i]))) + "\"")
  {
    BodySpells(s, seq(|s|, i requires 0 <= i < |s| => Escaped(s[i])));
  }

  lemma {:induction false} BodySpells(s: string, parts: seq<string>)
    requires |parts| == |s| && forall i | 0 <= i < |s| :: parts[i] == Escaped(s[i])
    ensures Body(s) == Concat(parts)
  {
    if s != "" {
      BodySpells(s[1..], parts[1..]);
    }
  }
}
