/** The calculator's tokenizer (fixtures/calc/src/lexer.rs). */
module CalcLexer {
  import opened Decimal
  import opened Outcomes

  // A literal's value is kept as the exact natural number its digits spell.
  datatype Token = Number(value: nat) | Plus | Minus | Star | Slash | LParen | RParen

  datatype LexError = UnknownToken(ch: char)

  type Lexed = Result<seq<Token>, LexError>

  predicate IsSpace(c: char) {
    c == ' ' || c == '\t' || c == '\n'
  }

  function Symbol(c: char): Option<Token> {
    match c
    case '+' => Some(Plus)
    case '-' => Some(Minus)
    case '*' => Some(Star)
    case '/' => Some(Slash)
    case '(' => Some(LParen)
    case ')' => Some(RParen)
    case _ => None
  }

  predicate InAlphabet(c: char) {
    IsSpace(c) || IsDigit(c) || Symbol(c).Some?
  }

  /** The length of the longest digit prefix (maximal munch). */
  function DigitRun(s: string): (n: nat)
    ensures n <= |s| && AllDigits(s[..n])
    ensures n < |s| ==> !IsDigit(s[n])
  {
    if s != "" && IsDigit(s[0]) then
      var n := 1 + DigitRun(s[1..]);
      assert s[..n] == [s[0]] + s[1..][..n - 1];
      n
    else 0
  }

  function Then(a: Lexed, b: Lexed): Lexed {
    match a
    case Err(_) => a
    case Ok(x) =>
      match b
      case Err(_) => b
      case Ok(y) => Ok(x + y)
  }

  /** How many characters the first lexical step takes. */
  function HeadLength(s: string): (n: nat)
    requires s != ""
    ensures 0 < n <= |s|
  {
    if IsDigit(s[0]) then DigitRun(s) else 1
  }

  /** What the first lexical step yields: no token for a blank, else one token or an error. */
  function LexHead(s: string): Lexed
    requires s != ""
  {
    if IsSpace(s[0]) then Ok([])
    else if IsDigit(s[0]) then Ok([Number(DecimalValue(s[..DigitRun(s)]))])
    else
      match Symbol(s[0])
      case Some(t) => Ok([t])
      case None => Err(UnknownToken(s[0]))
  }

  /** What tokenizing means: the specification the loop is proved against. */
  function Lex(s: string): Lexed
    decreases |s|
  {
    if s == "" then Ok([]) else Then(LexHead(s), Lex(s[HeadLength(s)..]))
  }

  lemma ThenAssociates(a: Lexed, b: Lexed, c: Lexed)
    ensures Then(a, Then(b, c)) == Then(Then(a, b), c)
  {
    if a.Ok? && b.Ok? && c.Ok? {
      assert a.value + (b.value + c.value) == (a.value + b.value) + c.value;
    }
  }

  lemma ThenUnit(a: Lexed)
    ensures Then(Ok([]), a) == a && (a.Ok? ==> Then(a, Ok([])) == a)
  {
    if a.Ok? {
      assert [] + a.value == a.value + [] == a.value;
    }
  }

  lemma DigitsOfPrefix(s: string, k: nat)
    requires k <= |s| && AllDigits(s[..k])
    ensures forall i | 0 <= i < k :: IsDigit(s[i])
  {
    assert forall i | 0 <= i < k :: s[i] == s[..k][i];
  }

  lemma DigitRunIs(s: string, n: nat)
    requires n <= |s| && AllDigits(s[..n])
    requires n < |s| ==> !IsDigit(s[n])
    ensures DigitRun(s) == n
  {
    DigitsOfPrefix(s, n);
    DigitsOfPrefix(s, DigitRun(s));
  }

  /** The digit run at `i`, and where it ends. */
  method TakeDigits(input: string, i: nat) returns (s: string, end: nat)
    requires i < |input| && IsDigit(input[i])
    ensures i < end <= |input| && end - i == HeadLength(input[i..]) && AllDigits(s) && s == input[i..][..end - i]
  {
    s, end := "", i;
    while end < |input| && IsDigit(input[end])
      invariant i <= end <= |input|
      invariant s == input[i..end] && AllDigits(s)
    {
      s := s + [input[end]];
      end := end + 1;
    }
    assert s == input[i..][..end - i];
    DigitRunIs(input[i..], end - i);
  }

  method Tokenize(input: string) returns (r: Lexed)
    ensures r == Lex(input)
  {
    var tokens: seq<Token> := [];
    var i := 0;
    assert input[0..] == input;
    ThenUnit(Lex(input));
    while i < |input|
      invariant 0 <= i <= |input|
      invariant Lex(input) == Then(Ok(tokens), Lex(input[i..]))
    {
      var ch := input[i];
      ghost var rest := input[i..];
      ThenAssociates(Ok(tokens), LexHead(rest), Lex(rest[HeadLength(rest)..]));
      assert rest[HeadLength(rest)..] == input[i + HeadLength(rest)..];
      if IsSpace(ch) {
        assert tokens + [] == tokens;
        i := i + 1;
      } else if IsDigit(ch) {
        var s, end := TakeDigits(input, i);
        tokens := tokens + [Number(DecimalValue(s))];
        i := end;
      } else {
        match Symbol(ch)
        case Some(t) =>
          tokens := tokens + [t];
          i := i + 1;
        case None =>
          return Err(UnknownToken(ch));
      }
    }
    ThenUnit(Ok(tokens));
    r := Ok(tokens);
  }

  // ----- Where the text may be cut -----

  predicate EndsInDigit(s: string) {
    s != "" && IsDigit(s[|s| - 1])
  }

  predicate StartsWithDigit(s: string) {
    s != "" && IsDigit(s[0])
  }

  predicate Glued(a: string, b: string) {
    EndsInDigit(a) && StartsWithDigit(b)
  }

  lemma DigitRunAppend(a: string, b: string)
    ensures DigitRun(a + b) == if DigitRun(a) == |a| then |a| + DigitRun(b) else DigitRun(a)
  {
    var n := if DigitRun(a) == |a| then |a| + DigitRun(b) else DigitRun(a);
    if DigitRun(a) == |a| {
      assert (a + b)[..n] == a[..|a|] + b[..DigitRun(b)];
    } else {
      assert (a + b)[..n] == a[..n];
    }
    DigitRunIs(a + b, n);
  }

  lemma CutAppend(a: string, b: string, n: nat)
    requires n <= |a|
    ensures (a + b)[..n] == a[..n] && (a + b)[n..] == a[n..] + b
  {
  }

  lemma HeadOfAppend(a: string, b: string)
    requires a != "" && (IsDigit(a[0]) && DigitRun(a) == |a| ==> !StartsWithDigit(b))
    ensures HeadLength(a + b) == HeadLength(a) && LexHead(a + b) == LexHead(a)
    ensures (a + b)[HeadLength(a)..] == a[HeadLength(a)..] + b
  {
    var ab := a + b;
    assert ab[0] == a[0];
    CutAppend(a, b, HeadLength(a));
    if IsDigit(a[0]) {
      DigitRunAppend(a, b);
      assert DigitRun(ab) == DigitRun(a);
    }
  }

  lemma FullRunEndsInDigit(a: string)
    requires a != "" && IsDigit(a[0]) && DigitRun(a) == |a|
    ensures EndsInDigit(a)
  {
    assert IsDigit(a[..|a|][|a| - 1]);
  }

  /** Tokenizing is compositional at every cut that does not split a number. */
  lemma {:induction false} LexAppend(a: string, b: string)
    requires !Glued(a, b)
    ensures Lex(a + b) == Then(Lex(a), Lex(b))
    decreases |a|
  {
    if a == "" {
      assert a + b == b;
      ThenUnit(Lex(b));
    } else {
      if IsDigit(a[0]) && DigitRun(a) == |a| {
        FullRunEndsInDigit(a);
      }
      HeadOfAppend(a, b);
      LexAppend(a[HeadLength(a)..], b);
      ThenAssociates(LexHead(a), Lex(a[HeadLength(a)..]), Lex(b));
    }
  }

  /** A cut inside a number fuses two literals into one token. */
  lemma {:induction false} GluedFuses(a: string, b: string)
    requires Glued(a, b) && Lex(a).Ok? && Lex(b).Ok?
    ensures Lex(a + b).Ok? && |Lex(a + b).value| == |Lex(a).value| + |Lex(b).value| - 1
    decreases |a|
  {
    if IsDigit(a[0]) && DigitRun(a) == |a| {
      DigitRunAppend(a, b);
      assert (a + b)[DigitRun(a + b)..] == b[DigitRun(b)..];
      assert a[|a|..] == "";
    } else {
      HeadOfAppend(a, b);
      assert a[HeadLength(a)..] != "" ==> EndsInDigit(a[HeadLength(a)..]);
      GluedFuses(a[HeadLength(a)..], b);
    }
  }

  /** The exact condition under which two well-formed texts tokenize separately. */
  lemma LexSplitsExactlyWhenNotGlued(a: string, b: string)
    requires Lex(a).Ok? && Lex(b).Ok?
    ensures Lex(a + b) == Then(Lex(a), Lex(b)) <==> !Glued(a, b)
  {
    if Glued(a, b) {
      GluedFuses(a, b);
    } else {
      LexAppend(a, b);
    }
  }

  /** The first character outside the alphabet, or the length when there is none. */
  function FirstForeign(s: string): (i: nat)
    ensures i <= |s| && (forall j | 0 <= j < i :: InAlphabet(s[j])) && (i < |s| ==> !InAlphabet(s[i]))
  {
    if s == "" || !InAlphabet(s[0]) then 0 else 1 + FirstForeign(s[1..])
  }

  lemma HeadIsInAlphabet(s: string)
    requires s != "" && InAlphabet(s[0])
    ensures forall j | 0 <= j < HeadLength(s) :: InAlphabet(s[j])
  {
    if IsDigit(s[0]) {
      DigitsOfPrefix(s, DigitRun(s));
    }
  }

  lemma {:induction false} ForeignBehindPrefix(s: string, n: nat)
    requires n <= |s| && forall j | 0 <= j < n :: InAlphabet(s[j])
    ensures FirstForeign(s) == n + FirstForeign(s[n..])
    decreases n
  {
    if n == 0 {
      assert s[0..] == s;
    } else {
      assert s[1..][n - 1..] == s[n..];
      ForeignBehindPrefix(s[1..], n - 1);
    }
  }

  lemma FailsBehindHead(s: string)
    requires s != "" && InAlphabet(s[0])
    ensures Lex(s).Ok? <==> Lex(s[HeadLength(s)..]).Ok?
    ensures Lex(s).Err? ==> Lex(s) == Lex(s[HeadLength(s)..])
  {
    assert LexHead(s).Ok?;
  }

  /** Tokenizing fails exactly on text outside the alphabet, at its first foreign character. */
  lemma {:induction false} LexFailsExactlyOnForeignCharacters(s: string)
    ensures if FirstForeign(s) == |s| then Lex(s).Ok? else Lex(s) == Err(UnknownToken(s[FirstForeign(s)]))
    decreases |s|
  {
    if s != "" && !InAlphabet(s[0]) {
      assert LexHead(s) == Err(UnknownToken(s[0]));
    } else if s != "" {
      var (n, tail) := (HeadLength(s), s[HeadLength(s)..]);
      HeadIsInAlphabet(s);
      ForeignBehindPrefix(s, n);
      LexFailsExactlyOnForeignCharacters(tail);
      FailsBehindHead(s);
      assert FirstForeign(tail) < |tail| ==> s[n + FirstForeign(tail)] == tail[FirstForeign(tail)];
    }
  }

  // ----- Writing tokens back as text -----

  function Spell(t: Token): string {
    match t
    case Number(n) => ShowNat(n)
    case Plus => "+"
    case Minus => "-"
    case Star => "*"
    case Slash => "/"
    case LParen => "("
    case RParen => ")"
  }

  lemma SpellLexes(t: Token)
    ensures Spell(t) != "" && Lex(Spell(t)) == Ok([t])
    ensures forall i | 0 <= i < |Spell(t)| :: IsDigit(Spell(t)[i]) <==> t.Number?
  {
    var s := Spell(t);
    if t.Number? {
      ShowNatSpells(t.value);
      assert s[..|s|] == s;
      DigitRunIs(s, |s|);
    }
    assert s[HeadLength(s)..] == "";
    ThenUnit(LexHead(s));
  }

  /** `ts` written with `gaps[i]` before token `i` and the last gap at the end. */
  function Spaced(ts: seq<Token>, gaps: seq<string>): string
    requires |gaps| == |ts| + 1
  {
    if ts == [] then gaps[0] else gaps[0] + (Spell(ts[0]) + Spaced(ts[1..], gaps[1..]))
  }

  predicate AllSpace(s: string) {
    forall i | 0 <= i < |s| :: IsSpace(s[i])
  }

  /** Gaps are whitespace, and only two adjacent numbers need a non-empty one. */
  predicate GapsSeparate(ts: seq<Token>, gaps: seq<string>) {
    && |gaps| == |ts| + 1
    && (forall i | 0 <= i < |gaps| :: AllSpace(gaps[i]))
    && (forall i | 0 < i < |ts| && ts[i - 1].Number? && ts[i].Number? :: gaps[i] != "")
  }

  lemma {:induction false} LexSkipsSpace(gap: string, s: string)
    requires AllSpace(gap)
    ensures Lex(gap + s) == Lex(s)
    decreases |gap|
  {
    if gap == "" {
      assert gap + s == s;
    } else {
      assert (gap + s)[1..] == gap[1..] + s;
      ThenUnit(Lex(gap[1..] + s));
      LexSkipsSpace(gap[1..], s);
    }
  }

  /** However tokens are spaced out, tokenizing gives exactly them back. */
  lemma {:induction false} SpacedTokensLexBack(ts: seq<Token>, gaps: seq<string>)
    requires GapsSeparate(ts, gaps)
    ensures Lex(Spaced(ts, gaps)) == Ok(ts)
    decreases |ts|
  {
    if ts == [] {
      LexSkipsSpace(gaps[0], "");
      assert gaps[0] + "" == gaps[0];
    } else {
      var tail := Spaced(ts[1..], gaps[1..]);
      SpacedTokensLexBack(ts[1..], gaps[1..]);
      SpellLexes(ts[0]);
      assert !Glued(Spell(ts[0]), tail) by {
        if |ts| > 1 {
          SpellLexes(ts[1]);
          assert gaps[1..][0] == gaps[1];
        }
      }
      LexAppend(Spell(ts[0]), tail);
      LexSkipsSpace(gaps[0], Spell(ts[0]) + tail);
      assert [ts[0]] + ts[1..] == ts;
    }
  }

  /** The tightest spacing: one blank, and only between two numbers. */
  function TightGaps(ts: seq<Token>): (gaps: seq<string>)
    ensures GapsSeparate(ts, gaps)
  {
    seq(|ts| + 1, i requires 0 <= i <= |ts| =>
      if 0 < i < |ts| && ts[i - 1].Number? && ts[i].Number? then " " else "")
  }

  function Render(ts: seq<Token>): string {
    Spaced(ts, TightGaps(ts))
  }

  lemma RenderRoundTrip(ts: seq<Token>)
    ensures Lex(Render(ts)) == Ok(ts)
  {
    SpacedTokensLexBack(ts, TightGaps(ts));
  }

  // ----- Single texts -----

  /** Any digit string, leading zeros and all, is one number token with its decimal value. */
  lemma DigitsLex(s: string)
    requires s != "" && AllDigits(s)
    ensures Lex(s) == Ok([Number(DecimalValue(s))])
  {
    assert s[..|s|] == s;
    DigitRunIs(s, |s|);
    assert s[|s|..] == "";
    ThenUnit(LexHead(s));
  }

  lemma OneCharacter(c: char)
    requires !IsDigit(c)
    ensures Lex([c]) == LexHead([c])
  {
    assert [c][1..] == "";
    ThenUnit(LexHead([c]));
  }

  /** What each character of the alphabet is. */
  lemma CharactersLex(c: char)
    ensures Lex("+") == Ok([Plus]) && Lex("-") == Ok([Minus]) && Lex("*") == Ok([Star]) && Lex("/") == Ok([Slash])
    ensures Lex("(") == Ok([LParen]) && Lex(")") == Ok([RParen])
    ensures Lex(" ") == Lex("\t") == Lex("\n") == Ok([])
    ensures InAlphabet(c) <==> c in " \t\n+-*/()0123456789"
  {
    OneCharacter('+');
    OneCharacter('-');
    OneCharacter('*');
    OneCharacter('/');
    OneCharacter('(');
    OneCharacter(')');
    OneCharacter(' ');
    OneCharacter('\t');
    OneCharacter('\n');
    assert IsDigit(c) ==> c in "0123456789" by {
      DigitIsListed(c);
    }
  }
}
