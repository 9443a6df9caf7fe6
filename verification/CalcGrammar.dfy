/** The calculator's language as an ordinary layered grammar, and its agreement with the parser.

      Sum     ::= Product (('+' | '-') Product)*
      Product ::= Unary (('*' | '/') Unary)*
      Unary   ::= number | '-' Unary | '(' Sum ')'
*/
module CalcGrammar {
  import opened Outcomes
  import opened CalcLexer
  import opened CalcParser
  import opened Sequences

  datatype Unary = UNum(n: nat) | UNeg(u: Unary) | UParen(sum: Sum)
  datatype Product = Product(first: Unary, factors: Factors)
  datatype Factors = NoFactor | Factor(divide: bool, u: Unary, more: Factors)
  datatype Sum = Sum(first: Product, terms: Terms)
  datatype Terms = NoTerm | Term(minus: bool, p: Product, more: Terms)

  // ----- The tokens of a derivation -----

  function FactorOp(divide: bool): Token {
    if divide then Slash else Star
  }

  function TermOp(minus: bool): Token {
    if minus then Minus else Plus
  }

  function YieldUnary(u: Unary): seq<Token> {
    match u
    case UNum(n) => [Number(n)]
    case UNeg(v) => [Minus] + YieldUnary(v)
    case UParen(s) => [LParen] + (YieldSum(s) + [RParen])
  }

  function YieldProduct(p: Product): seq<Token> {
    YieldUnary(p.first) + YieldFactors(p.factors)
  }

  function YieldFactors(fs: Factors): seq<Token> {
    match fs
    case NoFactor => []
    case Factor(d, u, more) => [FactorOp(d)] + (YieldUnary(u) + YieldFactors(more))
  }

  function YieldSum(s: Sum): seq<Token> {
    YieldProduct(s.first) + YieldTerms(s.terms)
  }

  function YieldTerms(ts: Terms): seq<Token> {
    match ts
    case NoTerm => []
    case Term(m, p, more) => [TermOp(m)] + (YieldProduct(p) + YieldTerms(more))
  }

  // ----- The tree a derivation denotes: chains associate to the left -----

  function TreeUnary(u: Unary): Expr {
    match u
    case UNum(n) => Num(n)
    case UNeg(v) => Neg(TreeUnary(v))
    case UParen(s) => TreeSum(s)
  }

  function TreeProduct(p: Product): Expr {
    FoldFactors(TreeUnary(p.first), p.factors)
  }

  function FoldFactors(lhs: Expr, fs: Factors): Expr
    decreases fs
  {
    match fs
    case NoFactor => lhs
    case Factor(d, u, more) =>
      FoldFactors(if d then Div(lhs, TreeUnary(u)) else Mul(lhs, TreeUnary(u)), more)
  }

  function TreeSum(s: Sum): Expr {
    FoldTerms(TreeProduct(s.first), s.terms)
  }

  function FoldTerms(lhs: Expr, ts: Terms): Expr
    decreases ts
  {
    match ts
    case NoTerm => lhs
    case Term(m, p, more) =>
      FoldTerms(if m then Sub(lhs, TreeProduct(p)) else Add(lhs, TreeProduct(p)), more)
  }

  /** `tokens` derives `e`: some derivation has exactly these tokens and denotes this tree. */
  ghost predicate Derives(tokens: seq<Token>, e: Expr) {
    exists s: Sum :: YieldSum(s) == tokens && TreeSum(s) == e
  }

  // ----- Every derivation is parsed to its tree -----

  lemma {:induction false} UnaryParses(u: Unary, rest: seq<Token>)
    ensures Prefix(YieldUnary(u) + rest) == Parsed(TreeUnary(u), rest)
    decreases u, 0
  {
    var ts := YieldUnary(u) + rest;
    match u
    case UNum(_) =>
    case UNeg(v) =>
      assert ts[1..] == YieldUnary(v) + rest;
      OperandParses(v, rest, 5);
    case UParen(s) =>
      assert ts[1..] == YieldSum(s) + ([RParen] + rest);
      SumParses(s, [RParen] + rest);
  }

  lemma {:induction false} OperandParses(u: Unary, rest: seq<Token>, minBp: nat)
    requires minBp >= 4
    ensures Expression(YieldUnary(u) + rest, minBp) == Parsed(TreeUnary(u), rest)
    decreases u, 1
  {
    UnaryParses(u, rest);
  }

  lemma {:induction false} FactorsParse(lhs: Expr, fs: Factors, rest: seq<Token>, minBp: nat)
    requires minBp <= 3
    ensures Continue(lhs, YieldFactors(fs) + rest, minBp) == Continue(FoldFactors(lhs, fs), rest, minBp)
    decreases fs, 2
  {
    match fs
    case NoFactor =>
      assert YieldFactors(fs) + rest == rest;
    case Factor(d, u, more) =>
      var ts := YieldFactors(fs) + rest;
      assert ts[1..] == YieldUnary(u) + (YieldFactors(more) + rest);
      OperandParses(u, YieldFactors(more) + rest, 4);
      ContinueStep(lhs, ts, minBp);
      FactorsParse(Binary(ts[0], lhs, TreeUnary(u)), more, rest, minBp);
  }

  lemma {:induction false} ProductParses(p: Product, rest: seq<Token>, minBp: nat)
    requires minBp <= 3
    ensures Expression(YieldProduct(p) + rest, minBp) == Continue(TreeProduct(p), rest, minBp)
    decreases p, 3
  {
    assert YieldProduct(p) + rest == YieldUnary(p.first) + (YieldFactors(p.factors) + rest);
    UnaryParses(p.first, YieldFactors(p.factors) + rest);
    FactorsParse(TreeUnary(p.first), p.factors, rest, minBp);
  }

  lemma {:induction false} TermsParse(lhs: Expr, terms: Terms, rest: seq<Token>)
    requires Stops(rest, 0)
    ensures Continue(lhs, YieldTerms(terms) + rest, 0) == Parsed(FoldTerms(lhs, terms), rest)
    decreases terms, 4
  {
    match terms
    case NoTerm =>
      assert YieldTerms(terms) + rest == rest;
    case Term(m, p, more) =>
      var ts := YieldTerms(terms) + rest;
      var tail := YieldTerms(more) + rest;
      assert ts[1..] == YieldProduct(p) + tail;
      assert Stops(tail, 2);
      ProductParses(p, tail, 2);
      ContinueStep(lhs, ts, 0);
      TermsParse(Binary(ts[0], lhs, TreeProduct(p)), more, rest);
  }

  lemma {:induction false} SumParses(s: Sum, rest: seq<Token>)
    requires Stops(rest, 0)
    ensures Expression(YieldSum(s) + rest, 0) == Parsed(TreeSum(s), rest)
    decreases s, 5
  {
    assert YieldSum(s) + rest == YieldProduct(s.first) + (YieldTerms(s.terms) + rest);
    ProductParses(s.first, YieldTerms(s.terms) + rest, 0);
    TermsParse(TreeProduct(s.first), s.terms, rest);
  }

  // ----- Everything parsed has a derivation -----

  lemma Regroup(x: Token, a: seq<Token>, b: seq<Token>, c: seq<Token>)
    ensures [x] + (a + (b + c)) == ([x] + (a + b)) + c
  {
  }

  lemma Uncons(ts: seq<Token>)
    requires ts != []
    ensures ts == [ts[0]] + ts[1..]
  {
  }

  lemma {:induction false} PrefixDerives(ts: seq<Token>) returns (u: Unary)
    requires Prefix(ts).Parsed?
    ensures ts == YieldUnary(u) + Prefix(ts).rest && TreeUnary(u) == Prefix(ts).expr
    decreases |ts|, 0
  {
    match ts[0]
    case Number(n) =>
      u := UNum(n);
    case Minus =>
      var v := OperandDerives(ts[1..], 5);
      u := UNeg(v);
    case LParen =>
      var s := SumDerives(ts[1..]);
      u := UParen(s);
  }

  lemma {:induction false} OperandDerives(ts: seq<Token>, minBp: nat) returns (u: Unary)
    requires minBp >= 4 && Expression(ts, minBp).Parsed?
    ensures ts == YieldUnary(u) + Expression(ts, minBp).rest
    ensures TreeUnary(u) == Expression(ts, minBp).expr
    decreases |ts|, 1
  {
    u := PrefixDerives(ts);
  }

  lemma {:induction false} FactorsDerive(lhs: Expr, ts: seq<Token>) returns (fs: Factors)
    requires Continue(lhs, ts, 2).Parsed?
    ensures ts == YieldFactors(fs) + Continue(lhs, ts, 2).rest
    ensures FoldFactors(lhs, fs) == Continue(lhs, ts, 2).expr
    decreases |ts|, 2
  {
    fs := NoFactor;
    if !Stops(ts, 2) {
      ContinueStep(lhs, ts, 2);
      var s := Expression(ts[1..], 4);
      var u := OperandDerives(ts[1..], 4);
      var more := FactorsDerive(Binary(ts[0], lhs, s.expr), s.rest);
      fs := Factor(ts[0] == Slash, u, more);
      FactorAssembles(ts, ts[0] == Slash, u, more, Continue(lhs, ts, 2).rest);
    }
  }

  lemma {:induction false} ProductDerives(ts: seq<Token>) returns (p: Product)
    requires Expression(ts, 2).Parsed?
    ensures ts == YieldProduct(p) + Expression(ts, 2).rest
    ensures TreeProduct(p) == Expression(ts, 2).expr
    decreases |ts|, 3
  {
    var u := PrefixDerives(ts);
    var fs := FactorsDerive(Prefix(ts).expr, Prefix(ts).rest);
    p := Product(u, fs);
    Associate(YieldUnary(u), YieldFactors(fs), Expression(ts, 2).rest);
  }

  lemma NoFactorsInFront(ts: seq<Token>)
    ensures YieldFactors(NoFactor) + ts == ts
  {
  }

  lemma TermAssembles(ts: seq<Token>, m: bool, p: Product, more: Terms, rest: seq<Token>)
    requires ts != [] && ts[0] == TermOp(m) && ts[1..] == YieldProduct(p) + (YieldTerms(more) + rest)
    ensures ts == YieldTerms(Term(m, p, more)) + rest
  {
    Uncons(ts);
    Regroup(ts[0], YieldProduct(p), YieldTerms(more), rest);
  }

  lemma FactorAssembles(ts: seq<Token>, d: bool, u: Unary, more: Factors, rest: seq<Token>)
    requires ts != [] && ts[0] == FactorOp(d) && ts[1..] == YieldUnary(u) + (YieldFactors(more) + rest)
    ensures ts == YieldFactors(Factor(d, u, more)) + rest
  {
    Uncons(ts);
    Regroup(ts[0], YieldUnary(u), YieldFactors(more), rest);
  }

  // Once a sum's first product is complete, only '+' and '-' are left for the loop.
  lemma {:induction false} SumTailDerives(lhs: Expr, ts: seq<Token>) returns (fs: Factors, terms: Terms)
    requires Continue(lhs, ts, 0).Parsed?
    ensures ts == YieldFactors(fs) + (YieldTerms(terms) + Continue(lhs, ts, 0).rest)
    ensures FoldTerms(FoldFactors(lhs, fs), terms) == Continue(lhs, ts, 0).expr
    ensures Stops(ts, 2) ==> fs == NoFactor
    decreases |ts|, 5
  {
    fs, terms := NoFactor, NoTerm;
    if !Stops(ts, 2) {
      fs, terms := FactorTailDerives(lhs, ts);
    } else {
      if !Stops(ts, 0) {
        terms := TermTailDerives(lhs, ts);
      }
      NoFactorsInFront(YieldTerms(terms) + Continue(lhs, ts, 0).rest);
    }
  }

  /** A loop that stops for products but not for sums stands at a '+' or '-', and takes a product behind it. */
  lemma TermStep(lhs: Expr, ts: seq<Token>)
    requires Continue(lhs, ts, 0).Parsed? && Stops(ts, 2) && !Stops(ts, 0)
    ensures ts[0] == TermOp(ts[0] == Minus) && Expression(ts[1..], 2).Parsed?
    ensures var s := Expression(ts[1..], 2);
            Continue(lhs, ts, 0) == Continue(Binary(ts[0], lhs, s.expr), s.rest, 0) && Stops(s.rest, 2)
  {
    ContinueStep(lhs, ts, 0);
  }

  lemma TermFolds(lhs: Expr, op: Token, p: Product, more: Terms)
    requires op == TermOp(op == Minus)
    ensures FoldTerms(lhs, Term(op == Minus, p, more)) == FoldTerms(Binary(op, lhs, TreeProduct(p)), more)
  {
  }

  lemma {:induction false} TermTailDerives(lhs: Expr, ts: seq<Token>) returns (terms: Terms)
    requires Continue(lhs, ts, 0).Parsed? && Stops(ts, 2) && !Stops(ts, 0)
    ensures ts == YieldTerms(terms) + Continue(lhs, ts, 0).rest
    ensures FoldTerms(lhs, terms) == Continue(lhs, ts, 0).expr
    decreases |ts|, 4
  {
    var s := Expression(ts[1..], 2);
    TermStep(lhs, ts);
    var p := ProductDerives(ts[1..]);
    var none, more := SumTailDerives(Binary(ts[0], lhs, s.expr), s.rest);
    NoFactorsInFront(YieldTerms(more) + Continue(lhs, ts, 0).rest);
    TermAssembles(ts, ts[0] == Minus, p, more, Continue(lhs, ts, 0).rest);
    TermFolds(lhs, ts[0], p, more);
    terms := Term(ts[0] == Minus, p, more);
  }

  lemma {:induction false} FactorTailDerives(lhs: Expr, ts: seq<Token>) returns (fs: Factors, terms: Terms)
    requires Continue(lhs, ts, 0).Parsed? && !Stops(ts, 2)
    ensures ts == YieldFactors(fs) + (YieldTerms(terms) + Continue(lhs, ts, 0).rest)
    ensures FoldTerms(FoldFactors(lhs, fs), terms) == Continue(lhs, ts, 0).expr
    decreases |ts|, 4
  {
    ContinueStep(lhs, ts, 0);
    var s := Expression(ts[1..], 4);
    var u := OperandDerives(ts[1..], 4);
    var more: Factors;
    more, terms := SumTailDerives(Binary(ts[0], lhs, s.expr), s.rest);
    fs := Factor(ts[0] == Slash, u, more);
    FactorAssembles(ts, ts[0] == Slash, u, more, YieldTerms(terms) + Continue(lhs, ts, 0).rest);
  }

  lemma {:induction false} SumDerives(ts: seq<Token>) returns (s: Sum)
    requires Expression(ts, 0).Parsed?
    ensures ts == YieldSum(s) + Expression(ts, 0).rest
    ensures TreeSum(s) == Expression(ts, 0).expr
    decreases |ts|, 6
  {
    var u := PrefixDerives(ts);
    var fs, terms := SumTailDerives(Prefix(ts).expr, Prefix(ts).rest);
    s := Sum(Product(u, fs), terms);
    Associate(YieldUnary(u), YieldFactors(fs), YieldTerms(terms) + Expression(ts, 0).rest);
    Associate(YieldProduct(s.first), YieldTerms(terms), Expression(ts, 0).rest);
  }

  // ----- The main results -----

  /** The parser accepts exactly the grammar's language and returns the tree it denotes. */
  lemma ParseExactlyWhenDerived(tokens: seq<Token>, e: Expr)
    ensures ParseTokens(tokens) == Ok(e) <==> Derives(tokens, e)
  {
    if ParseTokens(tokens) == Ok(e) {
      var s := SumDerives(tokens);
      assert YieldSum(s) + [] == YieldSum(s);
    }
    if Derives(tokens, e) {
      var s: Sum :| YieldSum(s) == tokens && TreeSum(s) == e;
      SumParses(s, []);
      assert YieldSum(s) + [] == tokens;
    }
  }

  /** A parse error means that no tree at all is derived. */
  lemma RejectExactlyWhenUnderivable(tokens: seq<Token>)
    ensures ParseTokens(tokens).Err? <==> forall e :: !Derives(tokens, e)
  {
    forall e ensures ParseTokens(tokens) == Ok(e) <==> Derives(tokens, e) {
      ParseExactlyWhenDerived(tokens, e);
    }
    if ParseTokens(tokens).Ok? {
      assert Derives(tokens, ParseTokens(tokens).value);
    }
  }

  lemma DerivedTreeIsUnique(tokens: seq<Token>, e1: Expr, e2: Expr)
    requires Derives(tokens, e1) && Derives(tokens, e2)
    ensures e1 == e2
  {
    ParseExactlyWhenDerived(tokens, e1);
    ParseExactlyWhenDerived(tokens, e2);
  }

  // ----- The grammar is unambiguous -----

  lemma {:induction false} UnaryUnique(u: Unary, r: seq<Token>, v: Unary, q: seq<Token>)
    requires YieldUnary(u) + r == YieldUnary(v) + q
    ensures u == v && r == q
    decreases u, 0
  {
    var ts := YieldUnary(u) + r;
    assert ts[0] == YieldUnary(u)[0] == YieldUnary(v)[0];
    match u
    case UNum(_) =>
      assert r == ts[1..] == q;
    case UNeg(w) =>
      assert ts[1..] == YieldUnary(w) + r == YieldUnary(v.u) + q;
      UnaryUnique(w, r, v.u, q);
    case UParen(s) =>
      assert ts[1..] == YieldSum(s) + ([RParen] + r) == YieldSum(v.sum) + ([RParen] + q);
      SumUnique(s, [RParen] + r, v.sum, [RParen] + q);
      assert r == ([RParen] + r)[1..] == ([RParen] + q)[1..] == q;
  }

  lemma ConsUnique(x: Token, a: seq<Token>, y: Token, b: seq<Token>)
    requires [x] + a == [y] + b
    ensures x == y && a == b
  {
    assert a == ([x] + a)[1..] && b == ([y] + b)[1..];
    assert ([x] + a)[0] == x && ([y] + b)[0] == y;
  }

  lemma FactorTokens(d: bool, u: Unary, more: Factors, r: seq<Token>)
    ensures YieldFactors(Factor(d, u, more)) + r == [FactorOp(d)] + (YieldUnary(u) + (YieldFactors(more) + r))
  {
    Regroup(FactorOp(d), YieldUnary(u), YieldFactors(more), r);
  }

  lemma TermTokens(m: bool, p: Product, more: Terms, r: seq<Token>)
    ensures YieldTerms(Term(m, p, more)) + r == [TermOp(m)] + (YieldProduct(p) + (YieldTerms(more) + r))
  {
    Regroup(TermOp(m), YieldProduct(p), YieldTerms(more), r);
  }

  lemma {:induction false} FactorsUnique(f: Factors, r: seq<Token>, g: Factors, q: seq<Token>)
    requires YieldFactors(f) + r == YieldFactors(g) + q && Stops(r, 2) && Stops(q, 2)
    ensures f == g && r == q
    decreases f, 1
  {
    assert [] + r == r && [] + q == q;
    match (f, g)
    case (Factor(d, u, more), Factor(e, v, rest)) =>
      FactorTokens(d, u, more, r);
      FactorTokens(e, v, rest, q);
      ConsUnique(FactorOp(d), YieldUnary(u) + (YieldFactors(more) + r),
                 FactorOp(e), YieldUnary(v) + (YieldFactors(rest) + q));
      UnaryUnique(u, YieldFactors(more) + r, v, YieldFactors(rest) + q);
      FactorsUnique(more, r, rest, q);
    case (Factor(d, u, more), NoFactor) =>
      FactorTokens(d, u, more, r);
      assert false;
    case (NoFactor, Factor(e, v, rest)) =>
      FactorTokens(e, v, rest, q);
      assert false;
    case (NoFactor, NoFactor) =>
  }

  lemma {:induction false} ProductUnique(p: Product, r: seq<Token>, o: Product, q: seq<Token>)
    requires YieldProduct(p) + r == YieldProduct(o) + q && Stops(r, 2) && Stops(q, 2)
    ensures p == o && r == q
    decreases p, 2
  {
    Associate(YieldUnary(p.first), YieldFactors(p.factors), r);
    Associate(YieldUnary(o.first), YieldFactors(o.factors), q);
    UnaryUnique(p.first, YieldFactors(p.factors) + r, o.first, YieldFactors(o.factors) + q);
    FactorsUnique(p.factors, r, o.factors, q);
  }

  lemma {:induction false} TermsUnique(t: Terms, r: seq<Token>, u: Terms, q: seq<Token>)
    requires YieldTerms(t) + r == YieldTerms(u) + q && Stops(r, 0) && Stops(q, 0)
    ensures t == u && r == q
    decreases t, 3
  {
    assert [] + r == r && [] + q == q;
    match (t, u)
    case (Term(m, p, more), Term(n, o, rest)) =>
      TermTokens(m, p, more, r);
      TermTokens(n, o, rest, q);
      ConsUnique(TermOp(m), YieldProduct(p) + (YieldTerms(more) + r),
                 TermOp(n), YieldProduct(o) + (YieldTerms(rest) + q));
      ProductUnique(p, YieldTerms(more) + r, o, YieldTerms(rest) + q);
      TermsUnique(more, r, rest, q);
    case (Term(m, p, more), NoTerm) =>
      TermTokens(m, p, more, r);
      assert false;
    case (NoTerm, Term(n, o, rest)) =>
      TermTokens(n, o, rest, q);
      assert false;
    case (NoTerm, NoTerm) =>
  }

  lemma {:induction false} SumUnique(s: Sum, r: seq<Token>, t: Sum, q: seq<Token>)
    requires YieldSum(s) + r == YieldSum(t) + q && Stops(r, 0) && Stops(q, 0)
    ensures s == t && r == q
    decreases s, 4
  {
    Associate(YieldProduct(s.first), YieldTerms(s.terms), r);
    Associate(YieldProduct(t.first), YieldTerms(t.terms), q);
    ProductUnique(s.first, YieldTerms(s.terms) + r, t.first, YieldTerms(t.terms) + q);
    TermsUnique(s.terms, r, t.terms, q);
  }

  /** A token list has at most one derivation, so not only the tree but every parenthesis is determined. */
  lemma DerivationIsUnique(s: Sum, t: Sum)
    requires YieldSum(s) == YieldSum(t)
    ensures s == t
  {
    assert YieldSum(s) + [] == YieldSum(t) + [];
    SumUnique(s, [], t, []);
  }
}
