/** Which error the calculator's parser reports (fixtures/calc/src/parser.rs), against a reader that goes
    over the tokens once and knows only whether an operand is due and how many parentheses are open. */
module CalcErrors {
  import opened Outcomes
  import opened CalcLexer
  import opened CalcParser
  import opened CalcGrammar

  // What the tokens read so far leave open.
  datatype Place = OperandDue(open: nat) | OperandDone(open: nat)

  predicate IsOperator(t: Token) {
    t == Plus || t == Minus || t == Star || t == Slash
  }

  /** Where one more token leads, if it can stand there at all. */
  function Read(p: Place, t: Token): Option<Place> {
    match p
    case OperandDue(open) =>
      if t.Number? then Some(OperandDone(open))
      else if t == Minus then Some(OperandDue(open))
      else if t == LParen then Some(OperandDue(open + 1))
      else None
    case OperandDone(open) =>
      if IsOperator(t) then Some(OperandDue(open))
      else if t == RParen && open > 0 then Some(OperandDone(open - 1))
      else None
  }

  /** Where all of `ts` leads from `p`. */
  function After(p: Place, ts: seq<Token>): Option<Place>
    decreases |ts|
  {
    if ts == [] then Some(p)
    else
      match Read(p, ts[0])
      case Some(q) => After(q, ts[1..])
      case None => None
  }

  const START: Place := OperandDue(0)

  // ----- What goes wrong, and where -----

  /** What is wrong at place `p` with `ts` ahead and `pos` tokens read; nothing while reading can go on. */
  function ErrorAt(p: Place, ts: seq<Token>, pos: nat): Option<ParseError> {
    if ts != [] && Read(p, ts[0]).Some? then None
    else
      match p
      case OperandDue(_) => Some(if ts == [] then UnexpectedEnd else UnexpectedToken(ts[0]))
      case OperandDone(open) =>
        if open > 0 then Some(ExpectedRParen)
        else if ts == [] then None
        else Some(TrailingToken(pos))
  }

  /** The first thing that is wrong. */
  function FirstError(p: Place, ts: seq<Token>, pos: nat): Option<ParseError>
    decreases |ts|
  {
    if ts != [] && Read(p, ts[0]).Some? then FirstError(Read(p, ts[0]).value, ts[1..], pos + 1)
    else ErrorAt(p, ts, pos)
  }

  /** A parsing step seen by the reader: on success it goes on behind what was consumed, operand in hand. */
  ghost predicate Follows(s: Step, p: Place, open: nat, ts: seq<Token>, pos: nat)
    requires |s.rest| <= |ts|
  {
    FirstError(p, ts, pos) ==
    match s
    case Parsed(_, rest) => FirstError(OperandDone(open), rest, pos + (|ts| - |rest|))
    case Failed(error, _) => Some(error)
  }

  lemma {:induction false} PrefixFollows(ts: seq<Token>, open: nat, pos: nat)
    ensures Follows(Prefix(ts), OperandDue(open), open, ts, pos)
    decreases |ts|, 0
  {
    if ts != [] {
      match ts[0]
      case Minus =>
        ExpressionFollows(ts[1..], 5, open, pos + 1);
      case LParen =>
        ExpressionFollows(ts[1..], 0, open + 1, pos + 1);
      case _ =>
    }
  }

  lemma {:induction false} ExpressionFollows(ts: seq<Token>, minBp: nat, open: nat, pos: nat)
    ensures Follows(Expression(ts, minBp), OperandDue(open), open, ts, pos)
    decreases |ts|, 1
  {
    PrefixFollows(ts, open, pos);
    var s := Prefix(ts);
    if s.Parsed? {
      ContinueFollows(s.expr, s.rest, minBp, open, pos + (|ts| - |s.rest|));
    }
  }

  lemma {:induction false} ContinueFollows(lhs: Expr, ts: seq<Token>, minBp: nat, open: nat, pos: nat)
    ensures Follows(Continue(lhs, ts, minBp), OperandDone(open), open, ts, pos)
    decreases |ts|, 2
  {
    if !Stops(ts, minBp) {
      ContinueStep(lhs, ts, minBp);
      var s := Expression(ts[1..], InfixBp(ts[0]).value.1);
      ExpressionFollows(ts[1..], InfixBp(ts[0]).value.1, open, pos + 1);
      if s.Parsed? {
        ContinueFollows(Binary(ts[0], lhs, s.expr), s.rest, minBp, open, pos + 1 + (|ts| - 1 - |s.rest|));
      }
    }
  }

  /** The parser reports exactly the first thing that is wrong, and nothing when nothing is. */
  lemma ErrorIsFirst(tokens: seq<Token>)
    ensures FirstError(START, tokens, 0) ==
            match ParseTokens(tokens)
            case Ok(_) => None
            case Err(error) => Some(error)
  {
    ExpressionFollows(tokens, 0, 0, 0);
  }

  // ----- The four errors, one by one -----

  /** The first `n` tokens can be read, and they lead to `p`. */
  predicate LeadsTo(tokens: seq<Token>, n: nat, p: Place) {
    n <= |tokens| && After(START, tokens[..n]) == Some(p)
  }

  /** There is one place where reading stops. */
  lemma {:induction false} StopsSomewhere(p: Place, ts: seq<Token>, pos: nat) returns (n: nat, q: Place)
    ensures n <= |ts| && After(p, ts[..n]) == Some(q) && (n < |ts| ==> Read(q, ts[n]).None?)
    ensures FirstError(p, ts, pos) == ErrorAt(q, ts[n..], pos + n)
    decreases |ts|
  {
    n, q := 0, p;
    assert ts[0..] == ts;
    if ts != [] && Read(p, ts[0]).Some? {
      n, q := StopsSomewhere(Read(p, ts[0]).value, ts[1..], pos + 1);
      assert ts[..n + 1][1..] == ts[1..][..n] && ts[n + 1..] == ts[1..][n..];
      n := n + 1;
    }
  }

  lemma {:induction false} StopsOnce(p: Place, ts: seq<Token>, n: nat, q: Place, m: nat, r: Place)
    requires n <= |ts| && After(p, ts[..n]) == Some(q) && (n < |ts| ==> Read(q, ts[n]).None?)
    requires m <= |ts| && After(p, ts[..m]) == Some(r) && (m < |ts| ==> Read(r, ts[m]).None?)
    ensures n == m && q == r
    decreases |ts|
  {
    if n > 0 && m > 0 {
      assert ts[..n][1..] == ts[1..][..n - 1] && ts[..m][1..] == ts[1..][..m - 1];
      StopsOnce(Read(p, ts[0]).value, ts[1..], n - 1, q, m - 1, r);
    }
  }

  /** Reading stops behind the first `n` tokens, at `p`. */
  predicate StopsAt(tokens: seq<Token>, n: nat, p: Place) {
    LeadsTo(tokens, n, p) && (n < |tokens| ==> Read(p, tokens[n]).None?)
  }

  lemma StopDecides(tokens: seq<Token>, n: nat, p: Place)
    requires StopsAt(tokens, n, p)
    ensures match ParseTokens(tokens)
            case Ok(_) => n == |tokens| && p == OperandDone(0)
            case Err(error) => ErrorAt(p, tokens[n..], n) == Some(error)
  {
    var m, q := StopsSomewhere(START, tokens, 0);
    StopsOnce(START, tokens, n, p, m, q);
    ErrorIsFirst(tokens);
  }

  lemma ParseStops(tokens: seq<Token>) returns (n: nat, p: Place)
    ensures StopsAt(tokens, n, p)
  {
    n, p := StopsSomewhere(START, tokens, 0);
  }

  /** An expression is complete at the end, with no parenthesis open. */
  lemma AcceptedExactly(tokens: seq<Token>)
    ensures ParseTokens(tokens).Ok? <==> LeadsTo(tokens, |tokens|, OperandDone(0))
  {
    var n, p := ParseStops(tokens);
    StopDecides(tokens, n, p);
    if LeadsTo(tokens, |tokens|, OperandDone(0)) {
      StopDecides(tokens, |tokens|, OperandDone(0));
    }
  }

  /** The list ends where an operand is due. */
  lemma UnexpectedEndExactly(tokens: seq<Token>)
    ensures ParseTokens(tokens) == Err(UnexpectedEnd)
       <==> exists open: nat :: LeadsTo(tokens, |tokens|, OperandDue(open))
  {
    var n, p := ParseStops(tokens);
    StopDecides(tokens, n, p);
    if open: nat :| LeadsTo(tokens, |tokens|, OperandDue(open)) {
      StopDecides(tokens, |tokens|, OperandDue(open));
    }
  }

  /** Behind the first `n` tokens an operand is due, and `t` stands there, which starts none. */
  predicate Misplaced(tokens: seq<Token>, n: nat, open: nat, t: Token) {
    && LeadsTo(tokens, n, OperandDue(open)) && n < |tokens| && tokens[n] == t
    && (t == Plus || t == Star || t == Slash || t == RParen)
  }

  lemma UnexpectedTokenExactly(tokens: seq<Token>, t: Token)
    ensures ParseTokens(tokens) == Err(UnexpectedToken(t))
       <==> exists n: nat, open: nat :: Misplaced(tokens, n, open, t)
  {
    var n, p := ParseStops(tokens);
    StopDecides(tokens, n, p);
    if ParseTokens(tokens) == Err(UnexpectedToken(t)) {
      assert Misplaced(tokens, n, p.open, t);
    }
    if m: nat, open: nat :| Misplaced(tokens, m, open, t) {
      StopDecides(tokens, m, OperandDue(open));
    }
  }

  /** Inside an open parenthesis an operand is complete, and neither an operator nor ')' follows. */
  predicate Unclosed(tokens: seq<Token>, n: nat, open: nat) {
    && open > 0 && LeadsTo(tokens, n, OperandDone(open))
    && (n < |tokens| ==> tokens[n].Number? || tokens[n] == LParen)
  }

  lemma ExpectedRParenExactly(tokens: seq<Token>)
    ensures ParseTokens(tokens) == Err(ExpectedRParen) <==> exists n: nat, open: nat :: Unclosed(tokens, n, open)
  {
    var n, p := ParseStops(tokens);
    StopDecides(tokens, n, p);
    if ParseTokens(tokens) == Err(ExpectedRParen) {
      assert Unclosed(tokens, n, p.open);
    }
    if m: nat, open: nat :| Unclosed(tokens, m, open) {
      StopDecides(tokens, m, OperandDone(open));
    }
  }

  lemma DerivedFront(tokens: seq<Token>, n: nat, s: Sum)
    requires n < |tokens| && YieldSum(s) == tokens[..n] && !IsOperator(tokens[n])
    ensures Expression(tokens, 0) == Parsed(TreeSum(s), tokens[n..])
  {
    assert tokens == YieldSum(s) + tokens[n..];
    SumParses(s, tokens[n..]);
  }

  /** A whole expression is derived in front of position `n`, and the token there is no operator. */
  lemma TrailingTokenExactly(tokens: seq<Token>, n: nat)
    ensures ParseTokens(tokens) == Err(TrailingToken(n)) <==>
            n < |tokens| && !IsOperator(tokens[n]) && exists e :: Derives(tokens[..n], e)
  {
    ErrorIsFirst(tokens);
    var step := Expression(tokens, 0);
    if ParseTokens(tokens) == Err(TrailingToken(n)) {
      ExpressionFailsOtherwise(tokens, 0);
      var s := SumDerives(tokens);
      assert tokens[..n] == YieldSum(s);
      assert Derives(tokens[..n], TreeSum(s));
      assert tokens[n] == step.rest[0];
    }
    if n < |tokens| && !IsOperator(tokens[n]) {
      if e :| Derives(tokens[..n], e) {
        var s: Sum :| YieldSum(s) == tokens[..n] && TreeSum(s) == e;
        DerivedFront(tokens, n, s);
      }
    }
  }

  /** Only the outermost check reports a trailing token. */
  lemma {:induction false} ExpressionFailsOtherwise(ts: seq<Token>, minBp: nat)
    ensures Expression(ts, minBp).Failed? ==> !Expression(ts, minBp).error.TrailingToken?
    decreases |ts|, 1
  {
    PrefixFailsOtherwise(ts);
    if Prefix(ts).Parsed? {
      ContinueFailsOtherwise(Prefix(ts).expr, Prefix(ts).rest, minBp);
    }
  }

  lemma {:induction false} PrefixFailsOtherwise(ts: seq<Token>)
    ensures Prefix(ts).Failed? ==> !Prefix(ts).error.TrailingToken?
    decreases |ts|, 0
  {
    if ts != [] {
      ExpressionFailsOtherwise(ts[1..], 5);
      ExpressionFailsOtherwise(ts[1..], 0);
    }
  }

  lemma {:induction false} ContinueFailsOtherwise(lhs: Expr, ts: seq<Token>, minBp: nat)
    ensures Continue(lhs, ts, minBp).Failed? ==> !Continue(lhs, ts, minBp).error.TrailingToken?
    decreases |ts|, 2
  {
    if !Stops(ts, minBp) {
      ContinueStep(lhs, ts, minBp);
      var s := Expression(ts[1..], InfixBp(ts[0]).value.1);
      ExpressionFailsOtherwise(ts[1..], InfixBp(ts[0]).value.1);
      if s.Parsed? {
        ContinueFailsOtherwise(Binary(ts[0], lhs, s.expr), s.rest, minBp);
      }
    }
  }
}
