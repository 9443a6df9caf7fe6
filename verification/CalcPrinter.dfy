/** A printer for calculator trees that adds parentheses only where binding powers need them.
    It is the specification partner of the parser: each undoes the other, and no token list
    that parses to a tree is shorter than the printed one. */
module CalcPrinter {
  import opened Outcomes
  import opened CalcLexer
  import opened CalcParser
  import opened CalcGrammar

  // The grammar layer an operand position asks for.
  datatype Layer = SumLayer | ProductLayer | UnaryLayer

  predicate IsSum(e: Expr) {
    e.Add? || e.Sub?
  }

  predicate IsProduct(e: Expr) {
    e.Mul? || e.Div?
  }

  predicate NeedsParens(e: Expr, layer: Layer) {
    (IsSum(e) && !layer.SumLayer?) || (IsProduct(e) && layer.UnaryLayer?)
  }

  function Print(e: Expr, layer: Layer): seq<Token>
    decreases e, 1
  {
    if NeedsParens(e, layer) then [LParen] + (PrintBare(e) + [RParen]) else PrintBare(e)
  }

  function PrintBare(e: Expr): seq<Token>
    decreases e, 0
  {
    match e
    case Num(n) => [Number(n)]
    case Neg(x) => [Minus] + Print(x, UnaryLayer)
    case Add(l, r) => Print(l, SumLayer) + ([Plus] + Print(r, ProductLayer))
    case Sub(l, r) => Print(l, SumLayer) + ([Minus] + Print(r, ProductLayer))
    case Mul(l, r) => Print(l, ProductLayer) + ([Star] + Print(r, UnaryLayer))
    case Div(l, r) => Print(l, ProductLayer) + ([Slash] + Print(r, UnaryLayer))
  }

  // ----- Parsing undoes printing -----

  lemma ParenthesesParse(e: Expr, inner: seq<Token>, rest: seq<Token>)
    requires Expression(inner + ([RParen] + rest), 0) == Continue(e, [RParen] + rest, 0)
    ensures Prefix([LParen] + (inner + ([RParen] + rest))) == Parsed(e, rest)
  {
    assert ([LParen] + (inner + ([RParen] + rest)))[1..] == inner + ([RParen] + rest);
    assert Continue(e, [RParen] + rest, 0) == Parsed(e, [RParen] + rest);
    assert ([RParen] + rest)[1..] == rest;
  }

  /** Where a printed left operand ends, the loop resumes with exactly that operand in hand. */
  lemma {:induction false} PrintedParses(e: Expr, layer: Layer, rest: seq<Token>, minBp: nat)
    requires layer.SumLayer? ==> minBp <= 1
    requires layer.ProductLayer? ==> minBp <= 3
    requires layer.SumLayer? ==> Stops(rest, 2)
    ensures Expression(Print(e, layer) + rest, minBp) == Continue(e, rest, minBp)
    decreases e, 2
  {
    if NeedsParens(e, layer) {
      BareParses(e, [RParen] + rest, 0);
      ParenthesesParse(e, PrintBare(e), rest);
      Regroup(LParen, PrintBare(e), [RParen], rest);
    } else {
      BareParses(e, rest, minBp);
    }
  }

  lemma {:induction false} BareParses(e: Expr, rest: seq<Token>, minBp: nat)
    requires IsSum(e) ==> minBp <= 1 && Stops(rest, 2)
    requires IsProduct(e) ==> minBp <= 3
    ensures Expression(PrintBare(e) + rest, minBp) == Continue(e, rest, minBp)
    decreases e, 1
  {
    var ts := PrintBare(e) + rest;
    match e
    case Num(_) =>
    case Neg(x) =>
      assert ts[1..] == Print(x, UnaryLayer) + rest;
      PrintedParses(x, UnaryLayer, rest, 5);
      assert Stops(rest, 5);
    case Add(l, r) => OperatorParses(l, Plus, r, rest, minBp);
    case Sub(l, r) => OperatorParses(l, Minus, r, rest, minBp);
    case Mul(l, r) => OperatorParses(l, Star, r, rest, minBp);
    case Div(l, r) => OperatorParses(l, Slash, r, rest, minBp);
  }

  function LeftLayer(op: Token): Layer {
    if op == Plus || op == Minus then SumLayer else ProductLayer
  }

  function RightLayer(op: Token): Layer {
    if op == Plus || op == Minus then ProductLayer else UnaryLayer
  }

  lemma {:induction false} OperatorParses(l: Expr, op: Token, r: Expr, rest: seq<Token>, minBp: nat)
    requires InfixBp(op).Some? && minBp <= InfixBp(op).value.0
    requires op == Plus || op == Minus ==> Stops(rest, 2)
    ensures Expression(Print(l, LeftLayer(op)) + ([op] + Print(r, RightLayer(op))) + rest, minBp)
         == Continue(Binary(op, l, r), rest, minBp)
    decreases Binary(op, l, r), 0
  {
    var tail := [op] + (Print(r, RightLayer(op)) + rest);
    assert Print(l, LeftLayer(op)) + ([op] + Print(r, RightLayer(op))) + rest == Print(l, LeftLayer(op)) + tail;
    PrintedParses(l, LeftLayer(op), tail, minBp);
    ContinueStep(l, tail, minBp);
    var rBp := InfixBp(op).value.1;
    PrintedParses(r, RightLayer(op), rest, rBp);
    assert tail[1..] == Print(r, RightLayer(op)) + rest;
    assert Stops(rest, rBp);
  }

  /** Printing any tree and parsing the tokens gives the tree back. */
  lemma ParseUndoesPrint(e: Expr)
    ensures ParseTokens(Print(e, SumLayer)) == Ok(e)
  {
    PrintedParses(e, SumLayer, [], 0);
    assert Print(e, SumLayer) + [] == Print(e, SumLayer);
  }

  /** The same through text: print, render, tokenize, parse. */
  lemma TextRoundTrip(e: Expr)
    ensures Lex(Render(Print(e, SumLayer))) == Ok(Print(e, SumLayer))
    ensures ParseTokens(Lex(Render(Print(e, SumLayer))).value) == Ok(e)
  {
    RenderRoundTrip(Print(e, SumLayer));
    ParseUndoesPrint(e);
  }

  // ----- The printed form is the shortest one -----

  lemma LayersOnlyAddParens(e: Expr)
    ensures |Print(e, SumLayer)| <= |Print(e, ProductLayer)| <= |Print(e, UnaryLayer)| <= |Print(e, SumLayer)| + 2
  {
  }

  lemma {:induction false} UnaryNoShorter(u: Unary)
    ensures |Print(TreeUnary(u), UnaryLayer)| <= |YieldUnary(u)|
    decreases u, 0
  {
    match u
    case UNum(_) =>
    case UNeg(v) => UnaryNoShorter(v);
    case UParen(s) =>
      SumNoShorter(s);
      LayersOnlyAddParens(TreeSum(s));
  }

  lemma {:induction false} FactorsNoShorter(lhs: Expr, fs: Factors)
    ensures |Print(FoldFactors(lhs, fs), ProductLayer)| <= |Print(lhs, ProductLayer)| + |YieldFactors(fs)|
    decreases fs, 1
  {
    match fs
    case NoFactor =>
    case Factor(d, u, more) =>
      UnaryNoShorter(u);
      FactorsNoShorter(if d then Div(lhs, TreeUnary(u)) else Mul(lhs, TreeUnary(u)), more);
  }

  lemma {:induction false} ProductNoShorter(p: Product)
    ensures |Print(TreeProduct(p), ProductLayer)| <= |YieldProduct(p)|
    decreases p, 2
  {
    UnaryNoShorter(p.first);
    LayersOnlyAddParens(TreeUnary(p.first));
    FactorsNoShorter(TreeUnary(p.first), p.factors);
  }

  lemma {:induction false} TermsNoShorter(lhs: Expr, ts: Terms)
    ensures |Print(FoldTerms(lhs, ts), SumLayer)| <= |Print(lhs, SumLayer)| + |YieldTerms(ts)|
    decreases ts, 3
  {
    match ts
    case NoTerm =>
    case Term(m, p, more) =>
      ProductNoShorter(p);
      TermsNoShorter(if m then Sub(lhs, TreeProduct(p)) else Add(lhs, TreeProduct(p)), more);
  }

  lemma {:induction false} SumNoShorter(s: Sum)
    ensures |Print(TreeSum(s), SumLayer)| <= |YieldSum(s)|
    decreases s, 4
  {
    ProductNoShorter(s.first);
    LayersOnlyAddParens(TreeProduct(s.first));
    TermsNoShorter(TreeProduct(s.first), s.terms);
  }

  /** No token list that parses to `e` is shorter than the printed one: no parenthesis is wasted. */
  lemma PrintIsShortest(tokens: seq<Token>, e: Expr)
    requires ParseTokens(tokens) == Ok(e)
    ensures |Print(e, SumLayer)| <= |tokens|
  {
    ParseExactlyWhenDerived(tokens, e);
    var s: Sum :| YieldSum(s) == tokens && TreeSum(s) == e;
    SumNoShorter(s);
  }
}
