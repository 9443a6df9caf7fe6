/** What tokens cost, in micro-dollars, in saturating 64-bit arithmetic (crates/harness/src/model.rs). */
module Pricing {
  import opened Outcomes
  import opened Words

  const U64_MAX: nat := U64_RANGE - 1
  const U32_MAX: nat := U32_RANGE - 1
  const MICRO: nat := 1_000_000

  function Saturate(n: nat): nat {
    if n <= U64_MAX then n else U64_MAX
  }

  function SatAdd(a: nat, b: nat): nat {
    Saturate(a + b)
  }

  function SatMul(a: nat, b: nat): nat {
    Saturate(a * b)
  }

  datatype Counts = Counts(input: nat, output: nat, cacheRead: nat, cacheWrite: nat)

  // Token accounting of one turn; an absent cache count is not a zero, but bills as one.
  datatype Usage = Usage(input: nat, output: nat, cacheRead: Option<nat>, cacheWrite: Option<nat>)

  datatype Prices = Prices(input: nat, output: nat, cacheRead: nat, cacheWrite: nat)

  function OrZero(n: Option<nat>): nat {
    if n.Some? then n.value else 0
  }

  function CountsOf(u: Usage): Counts {
    Counts(u.input, u.output, OrZero(u.cacheRead), OrZero(u.cacheWrite))
  }

  function BilledTokenSum(c: Counts): nat {
    SatAdd(SatAdd(SatAdd(c.input, c.output), c.cacheRead), c.cacheWrite)
  }

  function Anthropic(input: nat, output: nat): Prices {
    Prices(input, output, input / 10, input + input / 4)
  }

  function PricesForModel(model: string): Option<Prices> {
    if model == "claude-sonnet-5" then Some(Anthropic(3_000_000, 15_000_000))
    else if model == "claude-opus-5" || model == "claude-opus-4-8" then Some(Anthropic(15_000_000, 75_000_000))
    else if model == "claude-haiku-4-5" || model == "claude-haiku-4-5-20251001" then
      Some(Anthropic(1_000_000, 5_000_000))
    else None
  }

  /** The four products are summed, saturating at every step, before the single division. */
  function CostMicrosForCounts(p: Prices, c: Counts): nat {
    SatAdd(SatAdd(SatAdd(SatMul(c.input, p.input), SatMul(c.output, p.output)),
                  SatMul(c.cacheRead, p.cacheRead)),
           SatMul(c.cacheWrite, p.cacheWrite)) / MICRO
  }

  function CostMicros(p: Prices, u: Usage): nat {
    CostMicrosForCounts(p, CountsOf(u))
  }

  // ----- Against exact arithmetic -----

  /** The exact cost in millionths of a micro-dollar. */
  function Exact(p: Prices, c: Counts): nat {
    c.input * p.input + c.output * p.output + c.cacheRead * p.cacheRead + c.cacheWrite * p.cacheWrite
  }

  /** One more term on a running sum that stands saturated at `t`. */
  lemma SaturatingStep(t: nat, exact: nat, term: nat, next: nat)
    requires t == Saturate(exact) && next == exact + term
    ensures SatAdd(t, Saturate(term)) == Saturate(next)
  {
  }

  lemma FourSaturatingTerms(a: nat, b: nat, c: nat, d: nat, sum: nat)
    requires sum == a + b + c + d
    ensures SatAdd(SatAdd(SatAdd(Saturate(a), Saturate(b)), Saturate(c)), Saturate(d)) == Saturate(sum)
  {
    var two := SatAdd(Saturate(a), Saturate(b));
    SaturatingStep(Saturate(a), a, b, a + b);
    var three := SatAdd(two, Saturate(c));
    SaturatingStep(two, a + b, c, a + b + c);
    SaturatingStep(three, a + b + c, d, sum);
  }

  /** Saturating at every step is saturating the exact sum once. */
  lemma ChainSaturatesTheExactSum(p: Prices, c: Counts)
    ensures CostMicrosForCounts(p, c) == Saturate(Exact(p, c)) / MICRO
  {
    FourSaturatingTerms(c.input * p.input, c.output * p.output, c.cacheRead * p.cacheRead, c.cacheWrite * p.cacheWrite,
                        Exact(p, c));
  }

  lemma BilledSumSaturatesOnce(c: Counts)
    ensures BilledTokenSum(c) == Saturate(c.input + c.output + c.cacheRead + c.cacheWrite)
  {
  }

  predicate FitsU32(c: Counts) {
    c.input <= U32_MAX && c.output <= U32_MAX && c.cacheRead <= U32_MAX && c.cacheWrite <= U32_MAX
  }

  lemma ProductBound(a: nat, b: nat, amax: nat, bmax: nat)
    requires a <= amax && b <= bmax
    ensures a * b <= amax * bmax
  {
    assert a * b <= amax * b <= amax * bmax;
  }

  /** No published price saturates on any turn a provider can report. */
  lemma PublishedPricesNeverSaturate(model: string, c: Counts)
    requires PricesForModel(model).Some? && FitsU32(c)
    ensures Exact(PricesForModel(model).value, c) <= U64_MAX
    ensures CostMicrosForCounts(PricesForModel(model).value, c) == Exact(PricesForModel(model).value, c) / MICRO
  {
    var p := PricesForModel(model).value;
    ProductBound(c.input, p.input, U32_MAX, 15_000_000);
    ProductBound(c.output, p.output, U32_MAX, 75_000_000);
    ProductBound(c.cacheRead, p.cacheRead, U32_MAX, 1_500_000);
    ProductBound(c.cacheWrite, p.cacheWrite, U32_MAX, 18_750_000);
    ChainSaturatesTheExactSum(p, c);
  }

  // ----- Totals against the sum of turns -----

  function Plus(a: Counts, b: Counts): Counts {
    Counts(a.input + b.input, a.output + b.output, a.cacheRead + b.cacheRead, a.cacheWrite + b.cacheWrite)
  }

  function Totals(turns: seq<Usage>): Counts {
    if turns == [] then Counts(0, 0, 0, 0) else Plus(CountsOf(turns[0]), Totals(turns[1..]))
  }

  function SumOfCosts(p: Prices, turns: seq<Usage>): nat {
    if turns == [] then 0 else CostMicros(p, turns[0]) + SumOfCosts(p, turns[1..])
  }

  lemma ExactIsAdditive(p: Prices, a: Counts, b: Counts)
    ensures Exact(p, Plus(a, b)) == Exact(p, a) + Exact(p, b)
  {
    Distribute(a.input, b.input, p.input);
    Distribute(a.output, b.output, p.output);
    Distribute(a.cacheRead, b.cacheRead, p.cacheRead);
    Distribute(a.cacheWrite, b.cacheWrite, p.cacheWrite);
  }

  lemma Distribute(a: nat, b: nat, c: nat)
    ensures (a + b) * c == a * c + b * c
  {
  }

  lemma {:induction false} SumOfCostsBrackets(p: Prices, turns: seq<Usage>)
    requires Exact(p, Totals(turns)) <= U64_MAX
    ensures SumOfCosts(p, turns) * MICRO <= Exact(p, Totals(turns))
    ensures Exact(p, Totals(turns)) <= SumOfCosts(p, turns) * MICRO + |turns| * (MICRO - 1)
    decreases |turns|
  {
    if turns != [] {
      var (first, rest) := (CountsOf(turns[0]), turns[1..]);
      ExactIsAdditive(p, first, Totals(rest));
      SumOfCostsBrackets(p, rest);
      ChainSaturatesTheExactSum(p, first);
    }
  }

  /** Unless the totals saturate, billing a run by them costs at least the sum of its turns, and less
      than one micro-dollar per turn more. */
  lemma TotalsCostSlightlyMore(p: Prices, turns: seq<Usage>)
    requires turns != []
    ensures Exact(p, Totals(turns)) <= U64_MAX ==>
              SumOfCosts(p, turns) <= CostMicrosForCounts(p, Totals(turns)) < SumOfCosts(p, turns) + |turns|
  {
    if Exact(p, Totals(turns)) <= U64_MAX {
      SumOfCostsBrackets(p, turns);
      ChainSaturatesTheExactSum(p, Totals(turns));
    }
  }

  // ----- What a turn costs -----

  /** A cache count that is absent bills as nothing. */
  predicate Bills(count: Option<nat>, n: nat) {
    count == Some(n) || (count == None && n == 0)
  }

  /** A turn costs the sum of its four kinds of tokens at their own prices, cut at 64 bits and then
      rounded down to whole micro-dollars. */
  lemma TurnCostsExactly(p: Prices, u: Usage, read: nat, written: nat)
    requires Bills(u.cacheRead, read) && Bills(u.cacheWrite, written)
    ensures var exact := u.input * p.input + u.output * p.output + read * p.cacheRead + written * p.cacheWrite;
            CostMicros(p, u) == (if exact < 0x1_0000_0000_0000_0000 then exact else 0xFFFF_FFFF_FFFF_FFFF) / 1_000_000
  {
    ChainSaturatesTheExactSum(p, CountsOf(u));
  }

  /** Totals add up each kind of token by itself. */
  lemma {:induction false} TotalsAddUp(turns: seq<Usage>, u: Usage, read: nat, written: nat)
    requires Bills(u.cacheRead, read) && Bills(u.cacheWrite, written)
    ensures Totals([]) == Counts(0, 0, 0, 0)
    ensures var t := Totals(turns);
            Totals(turns + [u])
            == Counts(t.input + u.input, t.output + u.output, t.cacheRead + read, t.cacheWrite + written)
    decreases |turns|
  {
    if turns == [] {
      assert turns + [u] == [u] && [u][1..] == [];
    } else {
      assert (turns + [u])[1..] == turns[1..] + [u];
      TotalsAddUp(turns[1..], u, read, written);
    }
  }

  /** Exactly five names are priced; in every published table a cache read costs a tenth of an input
      token, and a cache write a quarter more than one. */
  lemma PublishedPricesExactly(model: string)
    ensures PricesForModel(model) ==
            if model == "claude-sonnet-5" then Some(Prices(3_000_000, 15_000_000, 300_000, 3_750_000))
            else if model in {"claude-opus-5", "claude-opus-4-8"} then
              Some(Prices(15_000_000, 75_000_000, 1_500_000, 18_750_000))
            else if model in {"claude-haiku-4-5", "claude-haiku-4-5-20251001"} then
              Some(Prices(1_000_000, 5_000_000, 100_000, 1_250_000))
            else None
    ensures PricesForModel(model).Some? ==>
              var p := PricesForModel(model).value;
              10 * p.cacheRead == p.input && 4 * p.cacheWrite == 5 * p.input && p.output == 5 * p.input
  {
  }
}
