/** The calculator's binding-power parser (fixtures/calc/src/parser.rs). */
module CalcParser {
  import opened Outcomes
  import opened CalcLexer

  datatype Expr =
    | Num(n: nat)
    | Neg(e: Expr)
    | Add(l: Expr, r: Expr)
    | Sub(l: Expr, r: Expr)
    | Mul(l: Expr, r: Expr)
    | Div(l: Expr, r: Expr)

  datatype ParseError =
    | TrailingToken(pos: nat)
    | ExpectedRParen
    | UnexpectedToken(tok: Token)
    | UnexpectedEnd

  // How far a parsing step got: `rest` is what the cursor still has ahead of it,
  // on success and on failure.
  datatype Step = Parsed(expr: Expr, rest: seq<Token>) | Failed(error: ParseError, rest: seq<Token>)

  function Outcome(s: Step): Result<Expr, ParseError> {
    match s
    case Parsed(e, _) => Ok(e)
    case Failed(err, _) => Err(err)
  }

  /** Left and right binding power; every operator is left-associative. */
  function InfixBp(t: Token): Option<(nat, nat)> {
    match t
    case Plus => Some((1, 2))
    case Minus => Some((1, 2))
    case Star => Some((3, 4))
    case Slash => Some((3, 4))
    case _ => None
  }

  function Binary(op: Token, l: Expr, r: Expr): Expr
    requires InfixBp(op).Some?
  {
    match op
    case Plus => Add(l, r)
    case Minus => Sub(l, r)
    case Star => Mul(l, r)
    case Slash => Div(l, r)
  }

  /** The loop at `minBp` has nothing left to consume at the front of `ts`. */
  predicate Stops(ts: seq<Token>, minBp: nat) {
    ts == [] || InfixBp(ts[0]).None? || InfixBp(ts[0]).value.0 < minBp
  }

  // ----- What parsing a token list means -----

  /** An operand: a number, a negated operand, or a parenthesized expression. */
  function Prefix(ts: seq<Token>): (s: Step)
    ensures |s.rest| <= |ts|
    ensures s.Parsed? ==> |s.rest| < |ts|
    decreases |ts|, 0
  {
    if ts == [] then Failed(UnexpectedEnd, ts)
    else
      match ts[0]
      case Number(n) => Parsed(Num(n), ts[1..])
      case Minus =>
        (match Expression(ts[1..], 5)
         case Parsed(e, rest) => Parsed(Neg(e), rest)
         case Failed(err, rest) => Failed(err, rest))
      case LParen =>
        (match Expression(ts[1..], 0)
         case Parsed(e, rest) =>
           if rest != [] && rest[0] == RParen then Parsed(e, rest[1..]) else Failed(ExpectedRParen, rest)
         case Failed(err, rest) => Failed(err, rest))
      case tok => Failed(UnexpectedToken(tok), ts)
  }

  /** Operands joined by every operator that binds at least as tightly as `minBp`. */
  function Expression(ts: seq<Token>, minBp: nat): (s: Step)
    ensures |s.rest| <= |ts|
    ensures s.Parsed? ==> |s.rest| < |ts| && Stops(s.rest, minBp)
    decreases |ts|, 1
  {
    match Prefix(ts)
    case Parsed(lhs, rest) => Continue(lhs, rest, minBp)
    case Failed(err, rest) => Failed(err, rest)
  }

  /** The operator loop, holding `lhs` with `ts` ahead. */
  function Continue(lhs: Expr, ts: seq<Token>, minBp: nat): (s: Step)
    ensures |s.rest| <= |ts|
    ensures s.Parsed? ==> Stops(s.rest, minBp)
    decreases |ts|, 2
  {
    if Stops(ts, minBp) then Parsed(lhs, ts)
    else
      match Expression(ts[1..], InfixBp(ts[0]).value.1)
      case Parsed(rhs, rest) => Continue(Binary(ts[0], lhs, rhs), rest, minBp)
      case Failed(err, rest) => Failed(err, rest)
  }

  lemma ContinueStep(lhs: Expr, ts: seq<Token>, minBp: nat)
    requires !Stops(ts, minBp)
    ensures Continue(lhs, ts, minBp) ==
            var s := Expression(ts[1..], InfixBp(ts[0]).value.1);
            if s.Parsed? then Continue(Binary(ts[0], lhs, s.expr), s.rest, minBp) else s
  {
  }

  /** The whole token list must be consumed. */
  function ParseTokens(tokens: seq<Token>): Result<Expr, ParseError> {
    match Expression(tokens, 0)
    case Failed(err, _) => Err(err)
    case Parsed(e, rest) => if rest == [] then Ok(e) else Err(TrailingToken(|tokens| - |rest|))
  }

  // ----- The parser itself: a shared cursor over the token slice -----

  class Cursor {
    var pos: nat

    constructor ()
      ensures pos == 0
    {
      pos := 0;
    }

    /** The tokens still ahead. */
    ghost function Ahead(tokens: seq<Token>): seq<Token>
      requires pos <= |tokens|
      reads this
    {
      tokens[pos..]
    }

    /** The cursor stands where `s` left off, and `r` is what `s` produced. */
    ghost predicate Agrees(tokens: seq<Token>, s: Step, r: Result<Expr, ParseError>)
      reads this
    {
      && pos <= |tokens|
      && Ahead(tokens) == s.rest
      && r == Outcome(s)
    }
  }

  method ParsePrefix(tokens: seq<Token>, cur: Cursor) returns (r: Result<Expr, ParseError>)
    requires cur.pos <= |tokens|
    modifies cur
    ensures cur.Agrees(tokens, Prefix(old(cur.Ahead(tokens))), r)
    decreases |tokens| - cur.pos, 0
  {
    if cur.pos == |tokens| {
      return Err(UnexpectedEnd);
    }
    match tokens[cur.pos]
    case Number(n) =>
      cur.pos := cur.pos + 1;
      return Ok(Num(n));
    case Minus =>
      cur.pos := cur.pos + 1;
      var operand := ParseExpr(tokens, cur, 5);
      return match operand case Ok(e) => Ok(Neg(e)) case Err(_) => operand;
    case LParen =>
      cur.pos := cur.pos + 1;
      var inner := ParseExpr(tokens, cur, 0);
      if inner.Err? {
        return inner;
      }
      if cur.pos < |tokens| && tokens[cur.pos] == RParen {
        cur.pos := cur.pos + 1;
        return inner;
      }
      return Err(ExpectedRParen);
    case tok =>
      return Err(UnexpectedToken(tok));
  }

  method ParseExpr(tokens: seq<Token>, cur: Cursor, minBp: nat) returns (r: Result<Expr, ParseError>)
    requires cur.pos <= |tokens|
    modifies cur
    ensures cur.Agrees(tokens, Expression(old(cur.Ahead(tokens)), minBp), r)
    decreases |tokens| - cur.pos, 1
  {
    ghost var whole := Expression(cur.Ahead(tokens), minBp);
    r := ParsePrefix(tokens, cur);
    if r.Err? {
      return;
    }
    var lhs := r.value;
    while cur.pos < |tokens| && InfixBp(tokens[cur.pos]).Some?
      invariant old(cur.pos) < cur.pos <= |tokens|
      invariant whole == Continue(lhs, cur.Ahead(tokens), minBp)
      decreases |tokens| - cur.pos
    {
      ghost var ahead := cur.Ahead(tokens);
      var tok := tokens[cur.pos];
      assert ahead[0] == tok && ahead[1..] == tokens[cur.pos + 1..];
      var (lBp, rBp) := InfixBp(tok).value;
      if lBp < minBp {
        break;
      }
      ContinueStep(lhs, ahead, minBp);
      cur.pos := cur.pos + 1;
      r := ParseExpr(tokens, cur, rBp);
      if r.Err? {
        return;
      }
      lhs := Binary(tok, lhs, r.value);
    }
    r := Ok(lhs);
  }

  method Parse(tokens: seq<Token>) returns (r: Result<Expr, ParseError>)
    ensures r == ParseTokens(tokens)
  {
    var cur := new Cursor();
    assert tokens[0..] == tokens;
    r := ParseExpr(tokens, cur, 0);
    if r.Ok? && cur.pos != |tokens| {
      r := Err(TrailingToken(cur.pos));
    }
  }
}
