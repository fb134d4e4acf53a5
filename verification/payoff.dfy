/** Pricing from the terminal distribution: the probability-weighted payoff of a
    European call or put, discounted over one compounding period per lattice step. */
module Payoff {
  import opened Powers
  import opened Sums

  datatype OptionKind = Call | Put

  /** std::max on two reals. */
  function Max(a: real, b: real): real
  {
    if a < b then b else a
  }

  /** Payoff at maturity of one terminal node: max(price - strike, 0) for a call,
      max(strike - price, 0) for a put. */
  function Payoff(kind: OptionKind, price: real, strike: real): real
  {
    match kind
    case Call => Max(price - strike, 0.0)
    case Put => Max(strike - price, 0.0)
  }

  /** The payoffs of all terminal nodes, in node order. */
  function Payoffs(kind: OptionKind, prices: seq<real>, strike: real): seq<real>
  {
    seq(|prices|, i requires 0 <= i < |prices| => Payoff(kind, prices[i], strike))
  }

  /** (1 + rate / freq)^periods: compounding at the per-period rate rate / freq. */
  function Discount(rate: real, freq: real, periods: nat): real
    requires freq != 0.0
  {
    Pow(1.0 + rate / freq, periods)
  }

  /** The option's price: the expected payoff over the terminal nodes, discounted
      over as many periods as the lattice has steps (one less than the node count). */
  function OptionValue(kind: OptionKind, prices: seq<real>, probs: seq<real>, strike: real, rate: real, freq: real): real
    requires |prices| == |probs| >= 1
    requires freq != 0.0 && Discount(rate, freq, |prices| - 1) != 0.0
  {
    WeightedSum(Payoffs(kind, prices, strike), probs) / Discount(rate, freq, |prices| - 1)
  }

  /** Every payoff is non-negative. */
  lemma PayoffNonNegative(kind: OptionKind, price: real, strike: real)
    ensures Payoff(kind, price, strike) >= 0.0
  {
  }

  /** With non-negative probabilities and a positive discount base, calls and puts
      are never worth less than zero. */
  lemma OptionValueNonNegative(kind: OptionKind, prices: seq<real>, probs: seq<real>, strike: real, rate: real, freq: real)
    requires |prices| == |probs| >= 1
    requires freq != 0.0 && 1.0 + rate / freq > 0.0
    requires forall i :: 0 <= i < |probs| ==> probs[i] >= 0.0
    ensures Discount(rate, freq, |prices| - 1) > 0.0
    ensures OptionValue(kind, prices, probs, strike, rate, freq) >= 0.0
  {
    PowPositive(1.0 + rate / freq, |prices| - 1);
    var payoffs := Payoffs(kind, prices, strike);
    forall i | 0 <= i < |payoffs|
      ensures payoffs[i] >= 0.0
    {
      PayoffNonNegative(kind, prices[i], strike);
    }
    WeightedSumToNonNegative(payoffs, probs, |prices|);
  }

  /** A single terminal node (a lattice of zero steps) is not discounted: the price
      is its payoff times its probability. */
  lemma SingleNodeUndiscounted(kind: OptionKind, prices: seq<real>, probs: seq<real>, strike: real, rate: real, freq: real)
    requires |prices| == |probs| == 1 && freq != 0.0
    ensures Discount(rate, freq, 0) == 1.0
    ensures OptionValue(kind, prices, probs, strike, rate, freq) == Payoff(kind, prices[0], strike) * probs[0]
  {
    assert WeightedSumTo(Payoffs(kind, prices, strike), probs, 1) == probs[0] * Payoff(kind, prices[0], strike);
  }

  /** Node by node, a call's payoff minus a put's is price - strike. */
  lemma PayoffParity(price: real, strike: real)
    ensures Payoff(Call, price, strike) - Payoff(Put, price, strike) == price - strike
  {
  }

  /** Summed over the terminal nodes, call payoffs minus put payoffs is the
      weighted sum of prices minus strike times the total probability. */
  lemma PayoffSumParity(prices: seq<real>, probs: seq<real>, strike: real)
    requires |prices| == |probs|
    ensures WeightedSum(Payoffs(Call, prices, strike), probs) - WeightedSum(Payoffs(Put, prices, strike), probs)
         == WeightedSum(prices, probs) - strike * Sum(probs)
  {
    var calls, puts := Payoffs(Call, prices, strike), Payoffs(Put, prices, strike);
    forall i | 0 <= i < |probs|
      ensures calls[i] - puts[i] == prices[i] - strike
    {
      PayoffParity(prices[i], strike);
    }
    WeightedSumDifference(calls, puts, prices, probs, strike, |probs|);
  }

  /** Put-call parity on any terminal distribution: call minus put is the
      discounted (sum of prob * price) - strike * (sum of prob). */
  lemma PutCallParity(prices: seq<real>, probs: seq<real>, strike: real, rate: real, freq: real)
    requires |prices| == |probs| >= 1
    requires freq != 0.0 && Discount(rate, freq, |prices| - 1) != 0.0
    ensures OptionValue(Call, prices, probs, strike, rate, freq) - OptionValue(Put, prices, probs, strike, rate, freq)
         == (WeightedSum(prices, probs) - strike * Sum(probs)) / Discount(rate, freq, |prices| - 1)
  {
    PayoffSumParity(prices, probs, strike);
    DivideDifference(WeightedSum(Payoffs(Call, prices, strike), probs), WeightedSum(Payoffs(Put, prices, strike), probs),
                     Discount(rate, freq, |prices| - 1));
  }

  lemma DivideDifference(a: real, b: real, d: real)
    requires d != 0.0
    ensures a / d - b / d == (a - b) / d
  {
  }

  /** When the probabilities sum to one: call minus put is the discounted
      (expected terminal price - strike). */
  lemma PutCallParityUnitMass(prices: seq<real>, probs: seq<real>, strike: real, rate: real, freq: real)
    requires |prices| == |probs| >= 1
    requires freq != 0.0 && Discount(rate, freq, |prices| - 1) != 0.0
    requires Sum(probs) == 1.0
    ensures OptionValue(Call, prices, probs, strike, rate, freq) - OptionValue(Put, prices, probs, strike, rate, freq)
         == (WeightedSum(prices, probs) - strike) / Discount(rate, freq, |prices| - 1)
  {
    PutCallParity(prices, probs, strike, rate, freq);
  }
}
